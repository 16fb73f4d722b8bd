/** The emitting pass of pcre_compile.c: a pattern is compiled into a buffer of the measured length,
    group by group, and the bytes are those of the expanded pattern. */
module PcreEmit {
  import opened Arith
  import opened PcreCode
  import opened PcreBytes
  import opened PcreLength
  import opened PcreBuffer
  import opened PcreLinks
  import opened PcreRepeat
  import opened PcreDecode

  function RegexSize(re: Regex): nat {
    1 + BranchSize(re.b) + if re.Alt? then RegexSize(re.more) else 0
  }

  function BranchSize(b: Branch): nat {
    1 + if b.Then? then ItemSize(b.item) + BranchSize(b.rest) else 0
  }

  function ItemSize(item: Item): nat {
    1 + if item.Group? then RegexSize(item.re) else 0
  }

  // ---------------------------------------------------------------- single characters

  method PutSingle(buf: Buffer, at: nat, s: Single) returns (end: nat)
    requires at + |SingleBytes(s)| <= buf.code.Length
    modifies buf.code
    ensures end == at + |SingleBytes(s)| && Holds(buf.All(), at, SingleBytes(s))
    ensures Same(old(buf.All()), buf.All(), at, end)
  {
    hide Holds, Same, Buffer.All;
    match s {
      case Dot =>
        buf.PutByte(at, OP_ANY);
        end := at + 1;
      case Lit(c) =>
        ghost var s0 := buf.All();
        buf.PutByte(at, OP_CHAR);
        ghost var s1 := buf.All();
        buf.PutByte(at + 1, c);
        end := at + 2;
        Extended(s0, s1, buf.All(), at, [OP_CHAR], [c]);
        assert [OP_CHAR] + [c] == SingleBytes(s);
    }
  }

  /** Bytes written right behind others. */
  lemma Extended(s0: seq<byte>, s1: seq<byte>, s2: seq<byte>, at: nat, a: seq<byte>, b: seq<byte>)
    requires Holds(s1, at, a) && Same(s0, s1, at, at + |a|)
    requires Holds(s2, at + |a|, b) && Same(s1, s2, at + |a|, at + |a| + |b|)
    ensures Holds(s2, at, a + b) && Same(s0, s2, at, at + |a| + |b|)
  {
    hide Holds, Same;
    var to := at + |a| + |b|;
    HoldsKept(s1, s2, at + |a|, to, at, a);
    HoldsJoined(s2, at, a, b);
    SameWider(s0, s1, at, at + |a|, at, to);
    SameWider(s1, s2, at + |a|, to, at, to);
    SameTwice(s0, s1, s2, at, to);
  }

  function CountBytes(kind: Kind): (b: seq<byte>)
    ensures |b| == if kind.Upto? || kind.Exact? then 2 else 0
  {
    match kind case Upto(n) => Two(n) case Exact(n) => Two(n) case _ => []
  }

  /** One repeat item: opcode, count if there is one, character. */
  method PutRep(buf: Buffer, at: nat, opType: nat, kind: Kind, lazy: bool, c: byte, ghost s: Single) returns (end: nat)
    requires opType == (if s.Lit? then 0 else OP_TYPESTAR - OP_STAR) && c == SingleByte(s)
    requires at + |RepBytes(kind, lazy, s)| <= buf.code.Length
    modifies buf.code
    ensures end == at + |RepBytes(kind, lazy, s)| && Holds(buf.All(), at, RepBytes(kind, lazy, s))
    ensures Same(old(buf.All()), buf.All(), at, end)
  {
    hide Holds, Same, Buffer.All, Two;
    ghost var s0 := buf.All();
    var op: byte := OP_STAR + opType + KindCode(kind) + Lazy(lazy);
    buf.PutByte(at, op);
    ghost var s1 := buf.All();
    end := at + 1;
    assert RepBytes(kind, lazy, s) == [op] + CountBytes(kind) + [c];
    if kind.Upto? || kind.Exact? {
      buf.PutTwo(end, kind.n);
      end := end + 2;
      Extended(s0, s1, buf.All(), at, [op], CountBytes(kind));
    } else {
      assert [op] + CountBytes(kind) == [op];
    }
    ghost var s2 := buf.All();
    buf.PutByte(end, c);
    end := end + 1;
    Extended(s0, s2, buf.All(), at, [op] + CountBytes(kind), [c]);
  }

  /** {n,m} with n > 1: an EXACT item, then one for what may follow. */
  method PutExact(buf: Buffer, at: nat, opType: nat, rep: Repeat, c: byte, ghost s: Single) returns (code: nat)
    requires opType == (if s.Lit? then 0 else OP_TYPESTAR - OP_STAR) && c == SingleByte(s)
    requires RepeatOk(rep) && rep.Times? && rep.min > 1 && at + |OpsBytes(RepeatSingle(s, rep))| <= buf.code.Length
    modifies buf.code
    ensures code == at + |OpsBytes(RepeatSingle(s, rep))| && Holds(buf.All(), at, OpsBytes(RepeatSingle(s, rep)))
    ensures Same(old(buf.All()), buf.All(), at, code)
  {
    hide Holds, Same, Buffer.All, RepBytes, OpsBytes;
    ghost var s0 := buf.All();
    RepeatedOps(s, rep);
    code := PutRep(buf, at, opType, Exact(rep.min), false, c, s);
    if rep.max != rep.min {
      ghost var s1 := buf.All();
      var kind := if rep.max < 0 then Star else if rep.max - rep.min == 1 then Query else Upto(rep.max - rep.min);
      code := PutRep(buf, code, opType, kind, rep.lazy, c, s);
      Extended(s0, s1, buf.All(), at, RepBytes(Exact(rep.min), false, s), RepBytes(kind, rep.lazy, s));
    }
  }

  /** {1,m}: the character stays, with an UPTO item behind it. */
  method KeepAndRepeat(buf: Buffer, previous: nat, end: nat, opType: nat, rep: Repeat, c: byte,
                       ghost s: Single) returns (code: nat)
    requires opType == (if s.Lit? then 0 else OP_TYPESTAR - OP_STAR) && c == SingleByte(s)
    requires Holds(buf.All(), previous, SingleBytes(s)) && end == previous + |SingleBytes(s)|
    requires RepeatOk(rep) && rep.Times? && rep.min == 1 && rep.max > 0
    requires previous + |OpsBytes(RepeatSingle(s, rep))| <= buf.code.Length
    modifies buf.code
    ensures code == previous + |OpsBytes(RepeatSingle(s, rep))|
    ensures Holds(buf.All(), previous, OpsBytes(RepeatSingle(s, rep)))
    ensures Same(old(buf.All()), buf.All(), previous, code)
  {
    hide Holds, Same, Buffer.All, RepBytes, OpsBytes;
    ghost var s0 := buf.All();
    RepeatedOps(s, rep);
    code := end;
    SameSelf(s0, previous, code);
    if rep.max == 1 {
      return;
    }
    code := PutRep(buf, code, opType, Upto(rep.max - 1), rep.lazy, c, s);
    Extended(s0, s0, buf.All(), previous, SingleBytes(s), RepBytes(Upto(rep.max - 1), rep.lazy, s));
  }

  /** OUTPUT_SINGLE_REPEAT: the repeated character at `previous` is replaced. */
  method RepeatCharacter(buf: Buffer, previous: nat, end: nat, rep: Repeat, ghost s: Single) returns (code: nat)
    requires RepeatOk(rep) && rep.Times? && Holds(buf.All(), previous, SingleBytes(s))
    requires end == previous + |SingleBytes(s)|
    requires previous + Longer(|SingleBytes(s)|, |OpsBytes(RepeatSingle(s, rep))|) <= buf.code.Length
    modifies buf.code
    ensures code == previous + |OpsBytes(RepeatSingle(s, rep))|
    ensures Holds(buf.All(), previous, OpsBytes(RepeatSingle(s, rep)))
    ensures Same(old(buf.All()), buf.All(), previous,
                 previous + Longer(|SingleBytes(s)|, |OpsBytes(RepeatSingle(s, rep))|))
  {
    hide Holds, Same, Buffer.All, RepBytes, OpsBytes;
    ghost var s0, to := buf.All(), previous + Longer(|SingleBytes(s)|, |OpsBytes(RepeatSingle(s, rep))|);
    SameSelf(s0, previous, to);
    SingleRead(s0, previous, s);
    RepeatedOps(s, rep);
    var first := buf.GetByte(previous, SingleBytes(s)[0]);
    var c := buf.GetByte(end - 1, SingleByte(s));
    var opType: nat := if first == OP_CHAR then 0 else OP_TYPESTAR - OP_STAR;
    if rep.max == 0 {
      NothingAt(s0, previous, s);
      return previous;
    }
    if rep.min == 0 {
      var kind := if rep.max == -1 then Star else if rep.max == 1 then Query else Upto(rep.max);
      code := PutRep(buf, previous, opType, kind, rep.lazy, c, s);
    } else if rep.min == 1 && rep.max == -1 {
      code := PutRep(buf, previous, opType, Plus, rep.lazy, c, s);
    } else if rep.min == 1 {
      code := KeepAndRepeat(buf, previous, end, opType, rep, c, s);
    } else {
      code := PutExact(buf, previous, opType, rep, c, s);
    }
    SameWider(s0, buf.All(), previous, code, previous, to);
  }

  lemma NothingAt(s: seq<byte>, at: nat, single: Single)
    requires Holds(s, at, SingleBytes(single))
    ensures Holds(s, at, [])
  {
  }

  lemma SingleRead(s: seq<byte>, at: nat, single: Single)
    requires Holds(s, at, SingleBytes(single))
    ensures Holds(s, at, [SingleBytes(single)[0]]) && Holds(s, at + |SingleBytes(single)| - 1, [SingleByte(single)])
    ensures SingleBytes(single)[0] == OP_CHAR <==> single.Lit?
  {
    if single.Lit? {
      HoldsJoined(s, at, [OP_CHAR], [single.c]);
      assert [OP_CHAR] + [single.c] == SingleBytes(single);
    }
  }

  /** The bytes of a repeated character, case by case. */
  lemma RepeatedOps(s: Single, rep: Repeat)
    requires RepeatOk(rep) && rep.Times?
    ensures var ops := RepeatSingle(s, rep);
      OpsBytes(ops) ==
        if ops.Nil? then []
        else if ops.rest.Nil? then OpBytes(ops.op)
        else OpBytes(ops.op) + OpBytes(ops.rest.op)
  {
    hide RepBytes;
    var ops := RepeatSingle(s, rep);
    if ops.Cons? {
      OneOp(ops.op);
      if ops.rest.Cons? {
        OneOp(ops.rest.op);
      }
    }
  }

  // ---------------------------------------------------------------- branches

  /** The group that an item is, before it is repeated. */
  function GroupOp(capturing: bool, re: Regex, n: nat): (g: Op)
    requires RegexOk(re)
    ensures Plainly(g)
  {
    var number := if capturing then n + 1 else n;
    Bra(NoZero, if capturing then number else 0, Expand(re, number), Plain)
  }

  lemma GroupFits(capturing: bool, re: Regex, n: nat, rep: Repeat)
    requires RegexOk(re) && RepeatOk(rep)
    ensures var g, item := GroupOp(capturing, re, n), Group(capturing, re);
      && |OpBytes(g)| <= MeasureItem(item, Once) <= MeasureItem(item, rep)
      && RepeatedLength(rep, |OpBytes(g)|) <= MeasureItem(item, rep)
      && ExpandItem(item, rep, n) == RepeatGroup(g, rep)
  {
    hide Multiple, NestedLength, GroupDelta, RepeatedLength;
    var g := GroupOp(capturing, re, n);
    MeasureEnough(re, if capturing then n + 1 else n, g.number);
    GroupLength(g, rep);
    ItemFits(Group(capturing, re), rep, n);
  }

  lemma SingleItemFits(s: Single, rep: Repeat, n: nat)
    requires RepeatOk(rep)
    ensures |SingleBytes(s)| <= MeasureItem(One(s), rep) && |OpsBytes(RepeatSingle(s, rep))| <= MeasureItem(One(s), rep)
    ensures OpsBytes(RepeatSingle(s, Once)) == SingleBytes(s) && ExpandItem(One(s), rep, n) == RepeatSingle(s, rep)
  {
    SingleFits(s, rep);
    OneOp(Char(s));
  }

  /** An item and its repeat. Every byte written lies within the measured length. */
  method EmitItem(buf: Buffer, at: nat, item: Item, rep: Repeat, n: nat) returns (code: nat, count: nat)
    requires ItemOk(item) && RepeatOk(rep) && at + MeasureItem(item, rep) <= buf.code.Length
    requires MeasureItem(item, rep) + 6 <= 65535
    modifies buf.code
    ensures code == at + |OpsBytes(ExpandItem(item, rep, n))|
    ensures Holds(buf.All(), at, OpsBytes(ExpandItem(item, rep, n)))
    ensures Same(old(buf.All()), buf.All(), at, at + MeasureItem(item, rep)) && count == n + ItemCaptures(item)
    decreases ItemSize(item), 1
  {
    hide Holds, Same, Buffer.All, OpBytes, OpsBytes, MeasureItem, RepeatedLength, RepeatGroup, RepeatSingle, Expand;
    hide ExpandItem, SingleBytes;
    ghost var s0, to := buf.All(), at + MeasureItem(item, rep);
    match item {
      case One(s) =>
        SingleItemFits(s, rep, n);
        count := n;
        code := PutSingle(buf, at, s);
        SameWider(s0, buf.All(), at, code, at, to);
        if rep.Times? {
          ghost var s1 := buf.All();
          code := RepeatCharacter(buf, at, code, rep, s);
          SameWider(s1, buf.All(), at, at + Longer(|SingleBytes(s)|, |OpsBytes(RepeatSingle(s, rep))|), at, to);
          SameTwice(s0, s1, buf.All(), at, to);
        }
      case Group(capturing, re) =>
        GroupFits(capturing, re, n, rep);
        ghost var g := GroupOp(capturing, re, n);
        code, count := EmitGroup(buf, at, capturing, re, n);
        SameWider(s0, buf.All(), at, at + MeasureItem(item, Once), at, to);
        if rep.Times? {
          ghost var s1 := buf.All();
          code := RepeatInPlace(buf, at, code, rep, g);
          SameWider(s1, buf.All(), at, at + Longer(|OpBytes(g)|, RepeatedLength(rep, |OpBytes(g)|)), at, to);
          SameTwice(s0, s1, buf.All(), at, to);
        } else {
          OnceIsItself(g);
        }
    }
  }

  lemma OnceIsItself(g: Op)
    requires Plainly(g)
    ensures OpsBytes(RepeatGroup(g, Once)) == OpBytes(g)
  {
    OneOp(g);
  }

  /** compile_branch. */
  method EmitBranch(buf: Buffer, at: nat, b: Branch, n: nat) returns (code: nat, count: nat)
    requires BranchOk(b) && at + MeasureBranch(b) <= buf.code.Length && MeasureBranch(b) + 6 <= 65535
    modifies buf.code
    ensures code == at + |OpsBytes(ExpandBranch(b, n))| && Holds(buf.All(), at, OpsBytes(ExpandBranch(b, n)))
    ensures Same(old(buf.All()), buf.All(), at, at + MeasureBranch(b)) && count == n + BranchCaptures(b)
    decreases BranchSize(b), 2
  {
    hide Holds, Same, Buffer.All, OpsBytes, ExpandItem, ExpandBranch, MeasureItem, MeasureBranch;
    ghost var s0, to := buf.All(), at + MeasureBranch(b);
    SameSelf(s0, at, to);
    HoldsNothing(s0, at);
    code, count := at, n;
    var rest := b;
    ghost var done: seq<byte> := [];
    while rest.Then?
      invariant BranchOk(rest) && BranchSize(rest) <= BranchSize(b) && code == at + |done|
      invariant done + OpsBytes(ExpandBranch(rest, count)) == OpsBytes(ExpandBranch(b, n))
      invariant code + MeasureBranch(rest) <= to && count + BranchCaptures(rest) == n + BranchCaptures(b)
      invariant Holds(buf.All(), at, done) && Same(s0, buf.All(), at, to)
      decreases rest
    {
      ghost var s1, c := buf.All(), count;
      ghost var bytes := OpsBytes(ExpandItem(rest.item, rest.rep, c));
      BranchStep(rest, c);
      ghost var end := code;
      code, count := EmitItem(buf, code, rest.item, rest.rep, count);
      HoldsKept(s1, buf.All(), end, end + MeasureItem(rest.item, rest.rep), at, done);
      HoldsJoined(buf.All(), at, done, bytes);
      SameWider(s1, buf.All(), end, end + MeasureItem(rest.item, rest.rep), at, to);
      SameTwice(s0, s1, buf.All(), at, to);
      assert done + (bytes + OpsBytes(ExpandBranch(rest.rest, count))) ==
             (done + bytes) + OpsBytes(ExpandBranch(rest.rest, count));
      done := done + bytes;
      rest := rest.rest;
    }
    BranchEnd(count);
    assert done + [] == done;
  }

  lemma BranchStep(b: Branch, n: nat)
    requires BranchOk(b) && b.Then?
    ensures var next := n + ItemCaptures(b.item);
      && OpsBytes(ExpandBranch(b, n)) == OpsBytes(ExpandItem(b.item, b.rep, n)) + OpsBytes(ExpandBranch(b.rest, next))
      && MeasureBranch(b) == MeasureItem(b.item, b.rep) + MeasureBranch(b.rest)
      && |OpsBytes(ExpandItem(b.item, b.rep, n))| <= MeasureItem(b.item, b.rep)
  {
    JoinBytes(ExpandItem(b.item, b.rep, n), ExpandBranch(b.rest, n + ItemCaptures(b.item)));
    ItemFits(b.item, b.rep, n);
  }

  lemma BranchEnd(n: nat)
    ensures OpsBytes(ExpandBranch(Empty, n)) == [] && MeasureBranch(Empty) == 0
  {
  }

  // ---------------------------------------------------------------- groups

  /** The opening bracket, its number if it captures, and compile_regex for the rest. */
  method EmitGroup(buf: Buffer, at: nat, capturing: bool, re: Regex, n: nat) returns (code: nat, count: nat)
    requires RegexOk(re) && at + MeasureItem(Group(capturing, re), Once) <= buf.code.Length
    requires MeasureItem(Group(capturing, re), Once) <= 65535
    modifies buf.code
    ensures code == at + |OpBytes(GroupOp(capturing, re, n))|
    ensures Holds(buf.All(), at, OpBytes(GroupOp(capturing, re, n)))
    ensures Same(old(buf.All()), buf.All(), at, at + MeasureItem(Group(capturing, re), Once))
    ensures count == n + ItemCaptures(Group(capturing, re))
    decreases RegexSize(re), 4
  {
    hide Holds, Same, Buffer.All, Measure, Expand, Two, AltsBytes, Closed;
    ghost var s0, to := buf.All(), at + MeasureItem(Group(capturing, re), Once);
    var number := if capturing then n + 1 else n;
    var op: byte := if capturing then OP_CBRA else OP_BRA;
    ghost var skip := NumberBytes(if capturing then number else 0);
    buf.PutByte(at, op);
    ghost var s1 := buf.All();
    SameWider(s0, s1, at, at + 1, at, to);
    if capturing {
      buf.PutTwo(at + 3, number);
      HoldsKept(s1, buf.All(), at + 3, at + 5, at, [op]);
      SameWider(s1, buf.All(), at + 3, at + 5, at, to);
      SameTwice(s0, s1, buf.All(), at, to);
    } else {
      HoldsNothing(buf.All(), at + 3);
    }
    ghost var s2 := buf.All();
    code, count := EmitRegex(buf, at, if capturing then 2 else 0, re, number, op, skip);
    SameTwice(s0, s2, buf.All(), at, to);
    ghost var chain := AltsBytes(op, skip, Expand(re, number));
    assert [] + Closed(OP_KET, chain) == Closed(OP_KET, chain);
  }

  /** The branches of an open group that are complete. */
  ghost predicate AllOpen(s: seq<byte>, start: nat, op: byte, bodies: seq<seq<byte>>) {
    forall i :: 0 <= i < |bodies| ==> Open(s, start, op, bodies, i)
  }

  lemma OpenKept(s: seq<byte>, t: seq<byte>, start: nat, op: byte, bodies: seq<seq<byte>>, i: nat, from: nat, to: nat)
    requires i < |bodies| && Open(s, start, op, bodies, i) && Same(s, t, from, to)
    requires start + At(bodies, i) + 3 + |bodies[i]| <= from
    ensures Open(t, start, op, bodies, i)
  {
    hide Holds, Same, Two, At, BranchOp, BackLink;
    var at := start + At(bodies, i);
    HoldsKept(s, t, from, to, at, [BranchOp(op, i)]);
    HoldsKept(s, t, from, to, at + 1, Two(BackLink(bodies, i)));
    HoldsKept(s, t, from, to, at + 3, bodies[i]);
  }

  lemma AllOpenKept(s: seq<byte>, t: seq<byte>, start: nat, op: byte, bodies: seq<seq<byte>>, from: nat, to: nat)
    requires AllOpen(s, start, op, bodies) && Same(s, t, from, to) && start + At(bodies, |bodies|) <= from
    ensures AllOpen(t, start, op, bodies)
  {
    hide Open, Same, At;
    forall i | 0 <= i < |bodies| ensures Open(t, start, op, bodies, i) {
      AtGrows(bodies, i, |bodies|);
      OpenKept(s, t, start, op, bodies, i, from, to);
    }
  }

  /** The link back from the branch that is being compiled. */
  function OpenLink(bodies: seq<seq<byte>>): nat {
    if bodies == [] then 0 else 3 + |bodies[|bodies| - 1]|
  }

  /** The opcode and the link of the branch that is being compiled. */
  ghost predicate Header(s: seq<byte>, start: nat, op: byte, bodies: seq<seq<byte>>) {
    var at := start + At(bodies, |bodies|);
    Holds(s, at, [BranchOp(op, |bodies|)]) && Holds(s, at + 1, Two(OpenLink(bodies)))
  }

  lemma HeaderKept(s: seq<byte>, t: seq<byte>, start: nat, op: byte, bodies: seq<seq<byte>>, from: nat, to: nat)
    requires Header(s, start, op, bodies) && Same(s, t, from, to) && start + At(bodies, |bodies|) + 3 <= from
    ensures Header(t, start, op, bodies)
  {
    hide Holds, Same, Two, At, OpenLink, BranchOp;
    var at := start + At(bodies, |bodies|);
    HoldsKept(s, t, from, to, at, [BranchOp(op, |bodies|)]);
    HoldsKept(s, t, from, to, at + 1, Two(OpenLink(bodies)));
  }

  lemma MoreAt(bodies: seq<seq<byte>>, body: seq<byte>, i: nat)
    requires i <= |bodies|
    ensures At(bodies + [body], i) == At(bodies, i)
  {
    assert (bodies + [body])[..|bodies|] == bodies;
    AtPrefix(bodies + [body], |bodies|, i);
  }

  lemma StillOpen(s: seq<byte>, start: nat, op: byte, bodies: seq<seq<byte>>, body: seq<byte>, i: nat)
    requires i < |bodies| && Open(s, start, op, bodies, i)
    ensures Open(s, start, op, bodies + [body], i)
  {
    hide Holds, Two, At;
    MoreAt(bodies, body, i);
    assert (bodies + [body])[i] == bodies[i];
    assert i > 0 ==> (bodies + [body])[i - 1] == bodies[i - 1];
  }

  lemma LastOpen(s: seq<byte>, start: nat, op: byte, bodies: seq<seq<byte>>, body: seq<byte>)
    requires Header(s, start, op, bodies) && Holds(s, start + At(bodies, |bodies|) + 3, body)
    ensures Open(s, start, op, bodies + [body], |bodies|)
  {
    hide Holds, Two, At;
    MoreAt(bodies, body, |bodies|);
    assert (bodies + [body])[|bodies|] == body;
    assert bodies != [] ==> (bodies + [body])[|bodies| - 1] == bodies[|bodies| - 1];
  }

  lemma OneMoreOpen(s: seq<byte>, start: nat, op: byte, bodies: seq<seq<byte>>, body: seq<byte>)
    requires AllOpen(s, start, op, bodies) && Header(s, start, op, bodies)
    requires Holds(s, start + At(bodies, |bodies|) + 3, body)
    ensures AllOpen(s, start, op, bodies + [body])
    ensures At(bodies + [body], |bodies|) == At(bodies, |bodies|)
    ensures At(bodies + [body], |bodies| + 1) == At(bodies, |bodies|) + 3 + |body|
    ensures OpenLink(bodies + [body]) == 3 + |body|
  {
    hide Holds, Open, Header;
    MoreAt(bodies, body, |bodies|);
    LastOpen(s, start, op, bodies, body);
    forall i | 0 <= i < |bodies| ensures Open(s, start, op, bodies + [body], i) {
      StillOpen(s, start, op, bodies, body, i);
    }
  }

  /** One branch behind its header, whose body begins with `pre`. */
  method EmitBody(buf: Buffer, code0: nat, b: Branch, n: nat, ghost start: nat, ghost op: byte,
                  ghost bodies: seq<seq<byte>>, ghost pre: seq<byte>)
    returns (code: nat, count: nat)
    requires BranchOk(b) && code0 + MeasureBranch(b) <= buf.code.Length && MeasureBranch(b) + 6 <= 65535
    requires AllOpen(buf.All(), start, op, bodies) && Header(buf.All(), start, op, bodies)
    requires Holds(buf.All(), start + At(bodies, |bodies|) + 3, pre)
    requires code0 == start + At(bodies, |bodies|) + 3 + |pre|
    modifies buf.code
    ensures var body := pre + OpsBytes(ExpandBranch(b, n));
      && AllOpen(buf.All(), start, op, bodies + [body]) && code == start + At(bodies + [body], |bodies| + 1)
      && At(bodies + [body], |bodies|) == At(bodies, |bodies|) && OpenLink(bodies + [body]) == 3 + |body|
    ensures Same(old(buf.All()), buf.All(), code0, code0 + MeasureBranch(b)) && count == n + BranchCaptures(b)
    ensures code <= code0 + MeasureBranch(b)
    decreases BranchSize(b), 3
  {
    hide Holds, Same, Buffer.All, AllOpen, Header, At, MeasureBranch, OpsBytes, ExpandBranch, OpenLink;
    ghost var s0, to, at := buf.All(), code0 + MeasureBranch(b), start + At(bodies, |bodies|) + 3;
    BranchFits(b, n);
    code, count := EmitBranch(buf, code0, b, n);
    AllOpenKept(s0, buf.All(), start, op, bodies, code0, to);
    HeaderKept(s0, buf.All(), start, op, bodies, code0, to);
    HoldsKept(s0, buf.All(), code0, to, at, pre);
    HoldsJoined(buf.All(), at, pre, OpsBytes(ExpandBranch(b, n)));
    OneMoreOpen(buf.All(), start, op, bodies, pre + OpsBytes(ExpandBranch(b, n)));
  }

  /** An OP_ALT whose link leads back to the branch before. */
  method PutAlt(buf: Buffer, code: nat, lastBranch: nat, ghost start: nat, ghost op: byte, ghost bodies: seq<seq<byte>>)
    requires AllOpen(buf.All(), start, op, bodies) && bodies != [] && code == start + At(bodies, |bodies|)
    requires lastBranch == start + At(bodies, |bodies| - 1) && code + 3 <= buf.code.Length
    modifies buf.code
    ensures AllOpen(buf.All(), start, op, bodies) && Header(buf.All(), start, op, bodies)
    ensures Same(old(buf.All()), buf.All(), code, code + 3)
  {
    hide Holds, Same, Buffer.All, AllOpen, At, Two;
    ghost var s0 := buf.All();
    LastBranch(bodies);
    buf.PutByte(code, OP_ALT);
    ghost var s1 := buf.All();
    buf.PutTwo(code + 1, code - lastBranch);
    ghost var s2 := buf.All();
    HoldsKept(s1, s2, code + 1, code + 3, code, [OP_ALT]);
    SameWider(s0, s1, code, code + 1, code, code + 3);
    SameWider(s1, s2, code + 1, code + 3, code, code + 3);
    SameTwice(s0, s1, s2, code, code + 3);
    AllOpenKept(s0, s2, start, op, bodies, code, code + 3);
  }

  /** The opening link, which is zero while the group is open. */
  method OpenGroup(buf: Buffer, start: nat, ghost op: byte, ghost skip: seq<byte>)
    requires Holds(buf.All(), start, [op]) && Holds(buf.All(), start + 3, skip)
    modifies buf.code
    ensures AllOpen(buf.All(), start, op, []) && Header(buf.All(), start, op, [])
    ensures Holds(buf.All(), start + At([], 0) + 3, skip)
    ensures Same(old(buf.All()), buf.All(), start, start + 3) && At([], 0) == 0
  {
    hide Holds, Same, Buffer.All, Two;
    ghost var s0 := buf.All();
    HeldFits(s0, start + 3, skip);
    buf.PutTwo(start + 1, 0);
    HoldsKept(s0, buf.All(), start + 1, start + 3, start, [op]);
    HoldsKept(s0, buf.All(), start + 1, start + 3, start + 3, skip);
    SameWider(s0, buf.All(), start + 1, start + 3, start, start + 3);
  }

  /** A group in the middle of compile_regex: its complete branches, the header of the next one, and
      the number that the first body begins with. */
  ghost predicate Compiling(s: seq<byte>, start: nat, op: byte, bodies: seq<seq<byte>>, pre: seq<byte>, code: nat,
                            lastBranch: nat) {
    && AllOpen(s, start, op, bodies) && Header(s, start, op, bodies) && Holds(s, start + At(bodies, |bodies|) + 3, pre)
    && lastBranch == start + At(bodies, |bodies|) && code == lastBranch + 3 + |pre|
  }

  /** A branch and the OP_ALT behind it. */
  method EmitAlternative(buf: Buffer, code0: nat, b: Branch, n: nat, lastBranch: nat,
                         ghost start: nat, ghost op: byte, ghost bodies: seq<seq<byte>>, ghost pre: seq<byte>)
    returns (code: nat, count: nat, branch: nat)
    requires BranchOk(b) && code0 + MeasureBranch(b) + 3 <= buf.code.Length && MeasureBranch(b) + 6 <= 65535
    requires Compiling(buf.All(), start, op, bodies, pre, code0, lastBranch)
    modifies buf.code
    ensures Compiling(buf.All(), start, op, bodies + [pre + OpsBytes(ExpandBranch(b, n))], [], code, branch)
    ensures Same(old(buf.All()), buf.All(), start, code0 + MeasureBranch(b) + 3) && count == n + BranchCaptures(b)
    ensures start + 3 <= code <= code0 + MeasureBranch(b) + 3
    decreases BranchSize(b), 4
  {
    hide Holds, Same, Buffer.All, AllOpen, Header, At, MeasureBranch, OpsBytes, ExpandBranch, OpenLink;
    ghost var s0, to := buf.All(), code0 + MeasureBranch(b) + 3;
    ghost var more := bodies + [pre + OpsBytes(ExpandBranch(b, n))];
    code, count := EmitBody(buf, code0, b, n, start, op, bodies, pre);
    ghost var s1 := buf.All();
    PutAlt(buf, code, lastBranch, start, op, more);
    SameWider(s0, s1, code0, code0 + MeasureBranch(b), start, to);
    SameWider(s1, buf.All(), code, code + 3, start, to);
    SameTwice(s0, s1, buf.All(), start, to);
    AltBody(buf.All(), start, op, more);
    branch := code;
    code := code + 3;
  }

  /** compile_regex, from an opening bracket that has been stored already. */
  method EmitRegex(buf: Buffer, start: nat, skipBytes: nat, re: Regex, n: nat, ghost op: byte, ghost skip: seq<byte>)
    returns (code: nat, count: nat)
    requires RegexOk(re) && |skip| == skipBytes && Holds(buf.All(), start, [op]) && Holds(buf.All(), start + 3, skip)
    requires start + Measure(re) + skipBytes <= buf.code.Length && Measure(re) + skipBytes <= 65535
    modifies buf.code
    ensures var bytes := Closed(OP_KET, AltsBytes(op, skip, Expand(re, n)));
      code == start + |bytes| && Holds(buf.All(), start, bytes)
    ensures Same(old(buf.All()), buf.All(), start, start + Measure(re) + skipBytes) && count == n + Captures(re)
    decreases RegexSize(re), 3
  {
    hide Holds, Same, Buffer.All, AllOpen, Header, At, Measure, MeasureBranch, OpsBytes, Expand, ExpandBranch;
    hide AltsBytes, Bodies, OpenLink, Compiling, Closed;
    ghost var s0, to := buf.All(), start + Measure(re) + skipBytes;
    MeasureStep(re, n, skip);
    OpenGroup(buf, start, op, skip);
    SameWider(s0, buf.All(), start, start + 3, start, to);
    var rest, lastBranch := re, start;
    code, count := start + 3 + skipBytes, n;
    ghost var bodies: seq<seq<byte>>, pre := [], skip;
    NowCompiling(buf.All(), start, op, skip, code);
    while rest.Alt?
      invariant RegexOk(rest) && RegexSize(rest) <= RegexSize(re)
      invariant Compiling(buf.All(), start, op, bodies, pre, code, lastBranch)
      invariant start + 3 <= code && code + Measure(rest) - 3 <= to
      invariant bodies + Bodies(pre, Expand(rest, count)) == Bodies(skip, Expand(re, n))
      invariant count + Captures(rest) == n + Captures(re) && Same(s0, buf.All(), start, to)
      decreases rest
    {
      ghost var s1, end, body := buf.All(), code, pre + OpsBytes(ExpandBranch(rest.b, count));
      MeasureStep(rest, count, pre);
      code, count, lastBranch := EmitAlternative(buf, code, rest.b, count, lastBranch, start, op, bodies, pre);
      SameWider(s1, buf.All(), start, end + MeasureBranch(rest.b) + 3, start, to);
      SameTwice(s0, s1, buf.All(), start, to);
      BodiesMore(bodies, body, Bodies([], Expand(rest.more, count)));
      bodies := bodies + [body];
      pre := [];
      rest := rest.more;
    }
    ghost var s2 := buf.All();
    CapturesLast(rest);
    code, count := EmitLast(buf, code, rest, count, start, lastBranch, re, n, op, skip, bodies, pre, to);
    SameTwice(s0, s2, buf.All(), start, to);
  }

  lemma BodiesMore(bodies: seq<seq<byte>>, body: seq<byte>, rest: seq<seq<byte>>)
    ensures bodies + ([body] + rest) == bodies + [body] + rest
  {
  }

  lemma CapturesLast(re: Regex)
    ensures re.Last? ==> Captures(re) == BranchCaptures(re.b)
  {
  }

  lemma NowCompiling(s: seq<byte>, start: nat, op: byte, skip: seq<byte>, code: nat)
    requires AllOpen(s, start, op, []) && Header(s, start, op, []) && Holds(s, start + At([], 0) + 3, skip)
    requires At([], 0) == 0 && code == start + 3 + |skip|
    ensures Compiling(s, start, op, [], skip, code, start)
  {
  }

  lemma AltBody(s: seq<byte>, start: nat, op: byte, bodies: seq<seq<byte>>)
    requires Header(s, start, op, bodies)
    ensures Holds(s, start + At(bodies, |bodies|) + 3, [])
  {
  }

  /** The last branch, and the end of the group. */
  method EmitLast(buf: Buffer, code0: nat, rest: Regex, n: nat, start: nat, lastBranch: nat, ghost re: Regex,
                  ghost n0: nat,
                  ghost op: byte, ghost skip: seq<byte>, ghost bodies: seq<seq<byte>>, ghost pre: seq<byte>,
                  ghost to: nat)
    returns (code: nat, count: nat)
    requires rest.Last? && RegexOk(rest) && RegexOk(re)
    requires Compiling(buf.All(), start, op, bodies, pre, code0, lastBranch)
    requires code0 + Measure(rest) - 3 <= to <= buf.code.Length && to - start <= 65535
    requires bodies + Bodies(pre, Expand(rest, n)) == Bodies(skip, Expand(re, n0))
    modifies buf.code
    ensures var bytes := Closed(OP_KET, AltsBytes(op, skip, Expand(re, n0)));
      code == start + |bytes| && Holds(buf.All(), start, bytes)
    ensures Same(old(buf.All()), buf.All(), start, to) && count == n + BranchCaptures(rest.b)
    decreases RegexSize(rest), 2
  {
    hide Holds, Same, Buffer.All, AllOpen, Header, At, Measure, MeasureBranch, OpsBytes, Expand, ExpandBranch;
    hide AltsBytes, Bodies, OpenLink, Chained;
    ghost var s1, body := buf.All(), pre + OpsBytes(ExpandBranch(rest.b, n));
    ghost var all := bodies + [body];
    MeasureStep(rest, n, pre);
    code, count := EmitBody(buf, code0, rest.b, n, start, op, bodies, pre);
    ghost var s2 := buf.All();
    SameWider(s1, s2, code0, code0 + MeasureBranch(rest.b), start, to);
    EachOpen(s2, start, op, all);
    CloseGroup(buf, start, lastBranch, code, op, all);
    SameWider(s2, buf.All(), start, code + 3, start, to);
    SameTwice(s1, s2, buf.All(), start, to);
    AltsChained(op, skip, Expand(re, n0));
    code := code + 3;
  }

  lemma EachOpen(s: seq<byte>, start: nat, op: byte, bodies: seq<seq<byte>>)
    requires AllOpen(s, start, op, bodies)
    ensures forall i :: 0 <= i < |bodies| ==> Open(s, start, op, bodies, i)
  {
  }

  /** One branch of what is measured and expanded. */
  lemma MeasureStep(re: Regex, n: nat, pre: seq<byte>)
    requires RegexOk(re)
    ensures Measure(re) >= 6 + MeasureBranch(re.b)
    ensures re.Alt? ==> Measure(re) == MeasureBranch(re.b) + 3 + Measure(re.more)
    ensures var body := pre + OpsBytes(ExpandBranch(re.b, n));
      Bodies(pre, Expand(re, n)) ==
        [body] + if re.Alt? then Bodies([], Expand(re.more, n + BranchCaptures(re.b))) else []
    ensures re.Last? ==> Bodies(pre, Expand(re, n)) == [pre + OpsBytes(ExpandBranch(re.b, n))]
  {
  }

  // ---------------------------------------------------------------- pcre_compile

  const MAX_PATTERN_SIZE: nat := 65536

  /** The code of a whole pattern: a group of its own, and OP_END. */
  function PatternBytes(re: Regex): seq<byte>
    requires RegexOk(re)
  {
    OpBytes(GroupOp(false, re, 0)) + [OP_END]
  }

  /** pcre_compile, given the measured length: a longer pattern is refused. Otherwise the code fits
      the buffer, and fills it if and only if nothing is repeated {0}. */
  method Compile(re: Regex, length: nat) returns (buf: Buffer?, used: nat, ghost code: Alts)
    requires RegexOk(re) && length == 1 + Measure(re)
    ensures buf == null <==> length > MAX_PATTERN_SIZE
    ensures buf != null ==> fresh(buf) && fresh(buf.code) && buf.code.Length == length
    ensures buf != null ==> used == |PatternBytes(re)| <= length && Holds(buf.All(), 0, PatternBytes(re))
    ensures buf != null ==> (used == length <==> AllKept(re))
    ensures buf != null ==> ReadsAs(buf.All(), used, code) && MeansPattern(code, re)
  {
    hide Holds, Same, Buffer.All, Measure, OpBytes, MeansPattern, ReadsAs;
    used, code := 0, Only(Nil);
    if length > MAX_PATTERN_SIZE {
      return null, 0, code;
    }
    MeasureEnough(re, 0, 0);
    var b := new Buffer(length);
    var end, count := EmitGroup(b, 0, false, re, 0);
    ghost var s := b.All();
    b.PutByte(end, OP_END);
    HoldsKept(s, b.All(), end, end + 1, 0, OpBytes(GroupOp(false, re, 0)));
    HoldsJoined(b.All(), 0, OpBytes(GroupOp(false, re, 0)), [OP_END]);
    buf, used := b, end + 1;
    code := ReadBack(re, b.All(), used);
  }

  /** The bytes in use are read as one bracket that captures nothing, and a zero behind it. */
  ghost predicate ReadsAs(s: seq<byte>, used: nat, code: Alts) {
    && 0 < used <= |s| && s[used - 1] == 0
    && DecodeOps(s[..used - 1]) == Some(Cons(Bra(NoZero, 0, code, Plain), Nil))
  }

  lemma ReadBack(re: Regex, s: seq<byte>, used: nat) returns (code: Alts)
    requires RegexOk(re) && Measure(re) < 65536
    requires Holds(s, 0, PatternBytes(re)) && used == |PatternBytes(re)|
    ensures ReadsAs(s, used, code) && MeansPattern(code, re)
  {
    hide Measure, OpBytes, MeansPattern, DecodeOps, Expand;
    code := PatternReadBack(re);
    assert s[..used - 1] == PatternBytes(re)[..used - 1] == OpBytes(GroupOp(false, re, 0));
  }
}
