/** compile_branch of pcre_compile.c: a repeated group is moved, copied and nested in place. */
module PcreRepeat {
  import opened Arith
  import opened PcreCode
  import opened PcreBytes
  import opened PcreLength
  import opened PcreBuffer
  import opened PcreLinks

  /** A group as compile_regex leaves it. */
  predicate Plainly(g: Op) {
    g.Bra? && g.zero.NoZero? && g.ket.Plain?
  }

  // ---------------------------------------------------------------- copies

  /** memcpy of the group, n times in a row. */
  method CopyTimes(buf: Buffer, from: nat, len: nat, at: nat, n: nat, ghost g: Op) returns (end: nat)
    requires |OpBytes(g)| == len && from + len <= at && at + |OpsBytes(Copies(g, n))| <= buf.code.Length
    requires Holds(buf.All(), from, OpBytes(g))
    modifies buf.code
    ensures end == at + |OpsBytes(Copies(g, n))| && Holds(buf.All(), at, OpsBytes(Copies(g, n)))
    ensures Same(old(buf.All()), buf.All(), at, end)
  {
    hide Holds, Same, Buffer.All, OpBytes, OpsBytes;
    ghost var s0 := buf.All();
    ghost var goal := at + |OpsBytes(Copies(g, n))|;
    CopyNone(s0, at, g, goal);
    end := at;
    var i := 0;
    while i < n
      invariant i <= n && at <= end && end == at + |OpsBytes(Copies(g, i))|
      invariant Holds(buf.All(), at, OpsBytes(Copies(g, i))) && Same(s0, buf.All(), at, goal)
      invariant Holds(buf.All(), from, OpBytes(g))
    {
      ghost var s1 := buf.All();
      CopyMore(g, i, n);
      buf.Copy(end, from, len, OpBytes(g));
      CopyAdded(s0, s1, buf.All(), from, at, g, i, end, goal);
      end := end + len;
      i := i + 1;
    }
  }

  lemma CopyNone(s: seq<byte>, at: nat, g: Op, goal: nat)
    requires at <= |s|
    ensures OpsBytes(Copies(g, 0)) == [] && Holds(s, at, []) && Same(s, s, at, goal)
  {
  }

  lemma {:induction false} CopyMore(g: Op, i: nat, n: nat)
    requires i < n
    ensures OpsBytes(Copies(g, i + 1)) == OpsBytes(Copies(g, i)) + OpBytes(g)
    ensures |OpsBytes(Copies(g, i))| + |OpBytes(g)| <= |OpsBytes(Copies(g, n))|
    decreases n
  {
    if i == n - 1 {
      CopyLast(g, i);
    } else {
      CopyMore(g, i, n - 1);
    }
  }

  lemma {:induction false} CopyLast(g: Op, i: nat)
    ensures OpsBytes(Copies(g, i + 1)) == OpsBytes(Copies(g, i)) + OpBytes(g)
  {
    if i == 0 {
      assert OpsBytes(Copies(g, 0)) == [] && Copies(g, 1) == Cons(g, Nil);
      assert OpBytes(g) + [] == [] + OpBytes(g);
    } else {
      CopyLast(g, i - 1);
    }
  }

  lemma CopyAdded(s0: seq<byte>, s1: seq<byte>, s2: seq<byte>, from: nat, at: nat, g: Op, i: nat, end: nat, goal: nat)
    requires end == at + |OpsBytes(Copies(g, i))| && from + |OpBytes(g)| <= at && end + |OpBytes(g)| <= goal
    requires Holds(s1, at, OpsBytes(Copies(g, i))) && Same(s0, s1, at, goal) && Holds(s1, from, OpBytes(g))
    requires OpsBytes(Copies(g, i + 1)) == OpsBytes(Copies(g, i)) + OpBytes(g)
    requires Holds(s2, end, OpBytes(g)) && Same(s1, s2, end, end + |OpBytes(g)|)
    ensures Holds(s2, at, OpsBytes(Copies(g, i + 1))) && Same(s0, s2, at, goal) && Holds(s2, from, OpBytes(g))
  {
    hide Holds, Same, OpBytes, OpsBytes;
    var to := end + |OpBytes(g)|;
    HoldsKept(s1, s2, end, to, at, OpsBytes(Copies(g, i)));
    HoldsKept(s1, s2, end, to, from, OpBytes(g));
    HoldsJoined(s2, at, OpsBytes(Copies(g, i)), OpBytes(g));
    SameWider(s1, s2, end, to, at, goal);
    SameTwice(s0, s1, s2, at, goal);
  }

  // ---------------------------------------------------------------- nested optional copies

  /** Where level i of the nesting starts: BRAZERO, BRA, a link, and a copy of the group. */
  function Level(at: nat, i: nat, len: nat): (l: nat)
    ensures l >= at
  {
    if i == 0 then at else Level(at, i - 1, len) + 4 + len
  }

  lemma {:induction false} LevelGrows(at: nat, i: nat, j: nat, len: nat)
    requires i < j
    ensures Level(at, i, len) + 4 + len <= Level(at, j, len)
  {
    if i < j - 1 {
      LevelGrows(at, i, j - 1, len);
    }
  }

  lemma NestedOneMore(k: nat, len: nat)
    requires k > 0
    ensures NestedLength(k + 1, len) == NestedLength(k, len) + len + 7 && NestedLength(1, len) == len + 1
  {
    MultipleStep(k, len + 7);
  }

  /** d pending brackets, k nested copies that are complete, and the KETs that are to come. */
  lemma {:induction false} NestedEnd(at: nat, d: nat, k: nat, len: nat)
    requires k > 0
    ensures Level(at, d, len) + NestedLength(k, len) + 3 * d == at + NestedLength(d + k, len)
    decreases d
  {
    hide NestedLength;
    if d > 0 {
      NestedOneMore(k, len);
      NestedEnd(at, d - 1, k + 1, len);
    }
  }

  function Marks(lazy: bool): seq<byte> {
    [OP_BRAZERO + Lazy(lazy), OP_BRA]
  }

  /** The link of a pending bracket leads back to the link of the one around it. */
  function PendingLink(i: nat, len: nat): nat {
    if i == 0 then 0 else 4 + len
  }

  ghost predicate OpenLevel(s: seq<byte>, at: nat, i: nat, g: seq<byte>, lazy: bool) {
    var l := Level(at, i, |g|);
    Holds(s, l, Marks(lazy)) && Holds(s, l + 2, Two(PendingLink(i, |g|))) && Holds(s, l + 4, g)
  }

  ghost predicate Pending(s: seq<byte>, at: nat, d: nat, g: seq<byte>, lazy: bool) {
    forall i :: 0 <= i < d ==> OpenLevel(s, at, i, g, lazy)
  }

  /** Bytes from level d on do not matter to the levels before. */
  lemma PendingKept(s: seq<byte>, t: seq<byte>, at: nat, d: nat, g: seq<byte>, lazy: bool, from: nat, to: nat)
    requires Pending(s, at, d, g, lazy) && Same(s, t, from, to) && Level(at, d, |g|) <= from
    ensures Pending(t, at, d, g, lazy)
  {
    hide Level, Holds, Same;
    forall i | 0 <= i < d ensures OpenLevel(t, at, i, g, lazy) {
      assert OpenLevel(s, at, i, g, lazy);
      LevelGrows(at, i, d, |g|);
      var l := Level(at, i, |g|);
      HoldsKept(s, t, from, to, l, Marks(lazy));
      HoldsKept(s, t, from, to, l + 2, Two(PendingLink(i, |g|)));
      HoldsKept(s, t, from, to, l + 4, g);
    }
  }

  lemma PendingMore(s: seq<byte>, at: nat, d: nat, g: seq<byte>, lazy: bool)
    requires Pending(s, at, d, g, lazy) && OpenLevel(s, at, d, g, lazy)
    ensures Pending(s, at, d + 1, g, lazy)
  {
  }

  /** The position of the innermost pending link, or -1. */
  function BraLink(at: nat, d: nat, len: nat): int {
    if d == 0 then -1 else Level(at, d - 1, len) + 2
  }

  /** One more pending bracket with a copy of the group. */
  method OpenOne(buf: Buffer, code: nat, from: nat, len: nat, bralink: int, lazy: bool, ghost at: nat, ghost d: nat,
                 ghost g: seq<byte>)
    requires |g| == len && code == Level(at, d, len) && code + 4 + len <= buf.code.Length
    requires bralink == BraLink(at, d, len)
    requires from + len <= code && Holds(buf.All(), from, g) && Pending(buf.All(), at, d, g, lazy)
    modifies buf.code
    ensures Pending(buf.All(), at, d + 1, g, lazy) && Same(old(buf.All()), buf.All(), code, code + 4 + len)
    ensures Holds(buf.All(), from, g)
  {
    hide Level, Holds, Same, Pending, OpenLevel, Buffer.All, Two;
    ghost var s0 := buf.All();
    var offset := if bralink == -1 then 0 else code + 2 - bralink;
    LevelStep(at, d, len);
    buf.PutByte(code, OP_BRAZERO + Lazy(lazy));
    ghost var s1 := buf.All();
    buf.PutByte(code + 1, OP_BRA);
    ghost var s2 := buf.All();
    buf.PutTwo(code + 2, offset);
    ghost var s3 := buf.All();
    Written(s0, s1, s2, s3, code, lazy, offset, from, g);
    buf.Copy(code + 4, from, len, g);
    ghost var s4 := buf.All();
    Copied(s0, s3, s4, code, lazy, offset, from, g);
    OpenedLevel(s4, at, d, g, lazy);
    PendingKept(s0, s4, at, d, g, lazy, code, code + 4 + len);
    PendingMore(s4, at, d, g, lazy);
  }

  lemma LevelStep(at: nat, d: nat, len: nat)
    ensures d > 0 ==> Level(at, d, len) == Level(at, d - 1, len) + 4 + len
    ensures d > 0 ==> Level(at, d, len) + 2 - BraLink(at, d, len) == PendingLink(d, len)
    ensures BraLink(at, d, len) == -1 <==> d == 0
  {
  }

  lemma OpenedLevel(s: seq<byte>, at: nat, d: nat, g: seq<byte>, lazy: bool)
    requires var l := Level(at, d, |g|);
      Holds(s, l, Marks(lazy)) && Holds(s, l + 2, Two(PendingLink(d, |g|))) && Holds(s, l + 4, g)
    ensures OpenLevel(s, at, d, g, lazy)
  {
  }

  lemma Written(s0: seq<byte>, s1: seq<byte>, s2: seq<byte>, s3: seq<byte>, code: nat, lazy: bool, offset: nat,
                from: nat, g: seq<byte>)
    requires Holds(s1, code, [OP_BRAZERO + Lazy(lazy)]) && Same(s0, s1, code, code + 1)
    requires Holds(s2, code + 1, [OP_BRA]) && Same(s1, s2, code + 1, code + 2)
    requires Holds(s3, code + 2, Two(offset)) && Same(s2, s3, code + 2, code + 4)
    requires Holds(s0, from, g) && from + |g| <= code
    ensures Holds(s3, code, Marks(lazy)) && Same(s0, s3, code, code + 4) && Holds(s3, from, g)
  {
    hide Holds, Same, Two;
    var z: byte := OP_BRAZERO + Lazy(lazy);
    HoldsKept(s1, s2, code + 1, code + 2, code, [z]);
    HoldsJoined(s2, code, [z], [OP_BRA]);
    assert [z] + [OP_BRA] == Marks(lazy);
    HoldsKept(s2, s3, code + 2, code + 4, code, Marks(lazy));
    SameWider(s0, s1, code, code + 1, code, code + 4);
    SameWider(s1, s2, code + 1, code + 2, code, code + 4);
    SameWider(s2, s3, code + 2, code + 4, code, code + 4);
    SameTwice(s0, s1, s2, code, code + 4);
    SameTwice(s0, s2, s3, code, code + 4);
    HoldsKept(s0, s3, code, code + 4, from, g);
  }

  lemma Copied(s0: seq<byte>, s3: seq<byte>, s4: seq<byte>, code: nat, lazy: bool, offset: nat, from: nat, g: seq<byte>)
    requires Holds(s3, code, Marks(lazy)) && Holds(s3, code + 2, Two(offset)) && Same(s0, s3, code, code + 4)
    requires Same(s3, s4, code + 4, code + 4 + |g|)
    requires Holds(s3, from, g) && from + |g| <= code
    ensures Holds(s4, code, Marks(lazy)) && Holds(s4, code + 2, Two(offset)) && Same(s0, s4, code, code + 4 + |g|)
    ensures Holds(s4, from, g)
  {
    hide Holds, Same, Two;
    var to := code + 4 + |g|;
    HoldsKept(s3, s4, code + 4, to, code, Marks(lazy));
    HoldsKept(s3, s4, code + 4, to, code + 2, Two(offset));
    HoldsKept(s3, s4, code + 4, to, from, g);
    SameWider(s0, s3, code, code + 4, code, to);
    SameWider(s3, s4, code + 4, to, code, to);
    SameTwice(s0, s3, s4, code, to);
  }

  /** The last optional copy, which does not nest. */
  method LastOne(buf: Buffer, code: nat, from: nat, len: nat, lazy: bool, ghost at: nat, ghost d: nat,
                 ghost g: seq<byte>)
    requires |g| == len && code == Level(at, d, len) && code + 1 + len <= buf.code.Length
    requires from + len <= code && Holds(buf.All(), from, g) && Pending(buf.All(), at, d, g, lazy)
    modifies buf.code
    ensures Pending(buf.All(), at, d, g, lazy) && Same(old(buf.All()), buf.All(), code, code + 1 + len)
    ensures Holds(buf.All(), code, [OP_BRAZERO + Lazy(lazy)] + g)
  {
    hide Level, Holds, Same, Pending, Buffer.All;
    ghost var s0 := buf.All();
    ghost var to := code + 1 + len;
    buf.PutByte(code, OP_BRAZERO + Lazy(lazy));
    ghost var s1 := buf.All();
    HoldsKept(s0, s1, code, code + 1, from, g);
    buf.Copy(code + 1, from, len, g);
    ghost var s2 := buf.All();
    HoldsKept(s1, s2, code + 1, to, code, [OP_BRAZERO + Lazy(lazy)]);
    HoldsJoined(s2, code, [OP_BRAZERO + Lazy(lazy)], g);
    SameWider(s0, s1, code, code + 1, code, to);
    SameWider(s1, s2, code + 1, to, code, to);
    SameTwice(s0, s1, s2, code, to);
    PendingKept(s0, s2, at, d, g, lazy, code, to);
  }

  /** The loop that writes k more optional copies behind d pending ones. */
  method NestCopies(buf: Buffer, from: nat, len: nat, at: nat, k: nat, bralink: int, lazy: bool, ghost d: nat,
                    ghost g: seq<byte>)
    returns (code: nat, last: int)
    requires |g| == len && k > 0 && d <= 1 && bralink == BraLink(at, d, len)
    requires at + NestedLength(d + k, len) <= buf.code.Length
    requires from + len <= Level(at, d, len) && Holds(buf.All(), from, g) && Pending(buf.All(), at, d, g, lazy)
    modifies buf.code
    ensures code == Level(at, d + k - 1, len) + 1 + len && last == BraLink(at, d + k - 1, len)
    ensures Pending(buf.All(), at, d + k - 1, g, lazy)
    ensures Holds(buf.All(), Level(at, d + k - 1, len), [OP_BRAZERO + Lazy(lazy)] + g)
    ensures Same(old(buf.All()), buf.All(), Level(at, d, len), at + NestedLength(d + k, len))
  {
    hide Level, Holds, Same, Pending, Buffer.All, NestedLength;
    ghost var s0, goal, start := buf.All(), at + NestedLength(d + k, len), Level(at, d, len);
    SameSelf(s0, start, goal);
    NestedOneMore(1, len);
    NestedEnd(at, d + k - 1, 1, len);
    code := NestStart(at, d, len, bralink, from);
    last := bralink;
    ghost var e := d;
    var i := k - 1;
    while i > 0
      invariant 0 <= i && e + i == d + k - 1 && d <= e && start <= Level(at, e, len)
      invariant code == Level(at, e, len) && last == BraLink(at, e, len) && from + len <= code
      invariant Pending(buf.All(), at, e, g, lazy) && Holds(buf.All(), from, g) && Same(s0, buf.All(), start, goal)
    {
      LevelFits(at, e, d + k - 1, len);
      ghost var s1 := buf.All();
      OpenOne(buf, code, from, len, last, lazy, at, e, g);
      SameWider(s1, buf.All(), code, code + 4 + len, start, goal);
      SameTwice(s0, s1, buf.All(), start, goal);
      NextLevel(at, e, len);
      last := code + 2;
      code := code + 4 + len;
      e := e + 1;
      i := i - 1;
    }
    ghost var s1 := buf.All();
    LastOne(buf, code, from, len, lazy, at, e, g);
    SameWider(s1, buf.All(), code, code + 1 + len, start, goal);
    SameTwice(s0, s1, buf.All(), start, goal);
    code := code + 1 + len;
  }

  /** The code pointer, which stands behind the pending brackets. */
  method NestStart(at: nat, ghost d: nat, len: nat, bralink: int, ghost from: nat) returns (code: nat)
    requires d <= 1 && bralink == BraLink(at, d, len)
    ensures code == Level(at, d, len)
  {
    code := if bralink == -1 then at else at + 4 + len;
    LevelStep(at, d, len);
  }

  lemma LevelFits(at: nat, e: nat, top: nat, len: nat)
    requires e < top
    ensures Level(at, e, len) + 4 + len <= Level(at, top, len) && at <= Level(at, e, len)
  {
    LevelGrows(at, e, top, len);
  }

  lemma NextLevel(at: nat, e: nat, len: nat)
    ensures Level(at, e + 1, len) == Level(at, e, len) + 4 + len && BraLink(at, e + 1, len) == Level(at, e, len) + 2
  {
  }

  // ---------------------------------------------------------------- closing the pending brackets

  lemma ZeroInFront(g: Op, lazy: bool)
    requires g.Bra? && g.zero.NoZero?
    ensures OpBytes(g.(zero := Zero(lazy))) == [OP_BRAZERO + Lazy(lazy)] + OpBytes(g)
  {
    hide Closed, AltsBytes;
    var group := Closed(KetByte(g.ket), AltsBytes(BraByte(g.number), NumberBytes(g.number), g.alts));
    assert OpBytes(g) == [] + group == group;
  }

  lemma WrapBytes(inner: Ops, lazy: bool)
    ensures OpBytes(Bra(Zero(lazy), 0, Only(inner), Plain)) ==
      [OP_BRAZERO + Lazy(lazy)] + Closed(OP_KET, Segment(OP_BRA, OpsBytes(inner)))
  {
    hide Closed, Segment, OpsBytes;
    assert AltsBytes(OP_BRA, [], Only(inner)) == Segment(OP_BRA, [] + OpsBytes(inner));
    assert [] + OpsBytes(inner) == OpsBytes(inner);
  }

  /** What k nested optional copies are in bytes. */
  lemma NestedUnfolds(g: Op, k: nat, lazy: bool)
    requires Plainly(g) && k > 0
    ensures var z := [OP_BRAZERO + Lazy(lazy)];
      OpsBytes(Nested(g, k, lazy)) ==
        if k == 1 then z + OpBytes(g)
        else z + Closed(OP_KET, Segment(OP_BRA, OpBytes(g) + OpsBytes(Nested(g, k - 1, lazy))))
  {
    hide OpBytes, Closed, Segment;
    if k == 1 {
      ZeroInFront(g, lazy);
      OneOp(g.(zero := Zero(lazy)));
    } else {
      var inner := Cons(g, Nested(g, k - 1, lazy));
      WrapBytes(inner, lazy);
      OneOp(Bra(Zero(lazy), 0, Only(inner), Plain));
    }
  }

  lemma OneOp(op: Op)
    ensures OpsBytes(Cons(op, Nil)) == OpBytes(op)
  {
    assert OpBytes(op) + [] == OpBytes(op);
  }

  /** One pending bracket is closed: its link and that of the new KET span the bracket. */
  method CloseOne(buf: Buffer, code: nat, bralink: nat, ghost at: nat, ghost d: nat, ghost g: Op, ghost k: nat,
                  lazy: bool)
    returns (outer: int)
    requires Plainly(g) && k > 0 && d > 0 && bralink == BraLink(at, d, |OpBytes(g)|)
    requires Pending(buf.All(), at, d, OpBytes(g), lazy)
    requires var l := Level(at, d, |OpBytes(g)|);
      Holds(buf.All(), l, OpsBytes(Nested(g, k, lazy))) && code == l + |OpsBytes(Nested(g, k, lazy))|
    requires code + 3 <= buf.code.Length && 4 + |OpBytes(g)| < 65536
    modifies buf.code
    ensures outer == BraLink(at, d - 1, |OpBytes(g)|)
    ensures Pending(buf.All(), at, d - 1, OpBytes(g), lazy)
    ensures var l := Level(at, d - 1, |OpBytes(g)|);
      Holds(buf.All(), l, OpsBytes(Nested(g, k + 1, lazy))) && code + 3 == l + |OpsBytes(Nested(g, k + 1, lazy))|
    ensures Same(old(buf.All()), buf.All(), Level(at, d - 1, |OpBytes(g)|), code + 3)
  {
    hide Level, Holds, Same, Pending, OpenLevel, Buffer.All, Two, OpBytes, OpsBytes, Nested, Segment, Closed;
    ghost var s0, len := buf.All(), |OpBytes(g)|;
    ghost var inner := OpsBytes(Nested(g, k, lazy));
    InnermostLevel(s0, at, d, OpBytes(g), lazy);
    var offset := code - bralink + 1;
    var bra := code - offset;
    var oldLinkOffset := buf.GetLink(bra + 1, PendingLink(d - 1, len));
    outer := if oldLinkOffset == 0 then -1 else bralink - oldLinkOffset;
    buf.PutByte(code, OP_KET);
    ghost var s1 := buf.All();
    buf.PutTwo(code + 1, offset);
    ghost var s2 := buf.All();
    buf.PutTwo(bra + 1, offset);
    ghost var s3 := buf.All();
    ClosedNow(s0, s1, s2, s3, bra, OpBytes(g), inner, code, offset, lazy);
    NestedUnfolds(g, k + 1, lazy);
    OuterPending(s0, at, d, OpBytes(g), lazy);
    PendingKept(s0, s3, at, d - 1, OpBytes(g), lazy, bra - 1, code + 3);
  }

  lemma OuterPending(s: seq<byte>, at: nat, d: nat, g: seq<byte>, lazy: bool)
    requires d > 0 && Pending(s, at, d, g, lazy)
    ensures Pending(s, at, d - 1, g, lazy)
  {
  }

  lemma InnermostLevel(s: seq<byte>, at: nat, d: nat, g: seq<byte>, lazy: bool)
    requires d > 0 && Pending(s, at, d, g, lazy)
    ensures var l := Level(at, d - 1, |g|);
      && Level(at, d, |g|) == l + 4 + |g| && BraLink(at, d, |g|) == l + 2
      && Holds(s, l, Marks(lazy)) && Holds(s, l + 2, Two(PendingLink(d - 1, |g|))) && Holds(s, l + 4, g)
    ensures BraLink(at, d - 1, |g|) == if d == 1 then -1 else BraLink(at, d, |g|) - PendingLink(d - 1, |g|)
  {
    assert OpenLevel(s, at, d - 1, g, lazy);
    NextLevel(at, d - 1, |g|);
    LevelStep(at, d - 1, |g|);
  }

  lemma ClosedNow(s0: seq<byte>, s1: seq<byte>, s2: seq<byte>, s3: seq<byte>, bra: nat, g: seq<byte>, inner: seq<byte>,
                  code: nat, offset: nat, lazy: bool)
    requires bra > 0 && code == bra + 3 + |g| + |inner| && offset == 3 + |g| + |inner|
    requires Holds(s0, bra - 1, Marks(lazy)) && Holds(s0, bra + 3, g) && Holds(s0, bra + 3 + |g|, inner)
    requires Holds(s1, code, [OP_KET]) && Same(s0, s1, code, code + 1)
    requires Holds(s2, code + 1, Two(offset)) && Same(s1, s2, code + 1, code + 3)
    requires Holds(s3, bra + 1, Two(offset)) && Same(s2, s3, bra + 1, bra + 3)
    ensures Holds(s3, bra - 1, [OP_BRAZERO + Lazy(lazy)] + Closed(OP_KET, Segment(OP_BRA, g + inner)))
    ensures Same(s0, s3, bra - 1, code + 3)
  {
    hide Holds, Same, Two;
    var z, body := [OP_BRAZERO + Lazy(lazy)], g + inner;
    SameWider(s0, s1, code, code + 1, code, code + 3);
    SameWider(s1, s2, code + 1, code + 3, code, code + 3);
    SameTwice(s0, s1, s2, code, code + 3);
    HoldsKept(s1, s2, code + 1, code + 3, code, [OP_KET]);
    HoldsJoined(s0, bra + 3, g, inner);
    HoldsKept(s0, s2, code, code + 3, bra + 3, body);
    HoldsKept(s0, s2, code, code + 3, bra - 1, Marks(lazy));
    HoldsKept(s2, s3, bra + 1, bra + 3, bra + 3, body);
    HoldsKept(s2, s3, bra + 1, bra + 3, bra - 1, Marks(lazy));
    HoldsKept(s2, s3, bra + 1, bra + 3, code, [OP_KET]);
    HoldsKept(s2, s3, bra + 1, bra + 3, code + 1, Two(offset));
    assert Marks(lazy) == z + [OP_BRA];
    HoldsJoined(s3, bra - 1, z, [OP_BRA]);
    SegmentHeld(s3, bra, OP_BRA, body);
    var segment := Segment(OP_BRA, body);
    HoldsJoined(s3, bra, segment, [OP_KET]);
    HoldsJoined(s3, bra, segment + [OP_KET], Two(offset));
    HoldsJoined(s3, bra - 1, z, Closed(OP_KET, segment));
    SameWider(s0, s2, code, code + 3, bra - 1, code + 3);
    SameWider(s2, s3, bra + 1, bra + 3, bra - 1, code + 3);
    SameTwice(s0, s2, s3, bra - 1, code + 3);
  }

  /** The loop that chains through the pending brackets. */
  method CloseNested(buf: Buffer, start: nat, innermost: int, ghost at: nat, ghost d: nat, ghost g: Op,
                     lazy: bool) returns (code: nat)
    requires Plainly(g) && 4 + |OpBytes(g)| < 65536 && innermost == BraLink(at, d, |OpBytes(g)|)
    requires start == Level(at, d, |OpBytes(g)|) + 1 + |OpBytes(g)|
    requires at + NestedLength(d + 1, |OpBytes(g)|) <= buf.code.Length
    requires Pending(buf.All(), at, d, OpBytes(g), lazy)
    requires Holds(buf.All(), Level(at, d, |OpBytes(g)|), [OP_BRAZERO + Lazy(lazy)] + OpBytes(g))
    modifies buf.code
    ensures Holds(buf.All(), at, OpsBytes(Nested(g, d + 1, lazy))) && code == at + NestedLength(d + 1, |OpBytes(g)|)
    ensures Same(old(buf.All()), buf.All(), at, code)
  {
    hide Holds, Same, Pending, Buffer.All, OpBytes, OpsBytes, Nested, NestedLength;
    ghost var s0, len, goal := buf.All(), |OpBytes(g)|, at + NestedLength(d + 1, |OpBytes(g)|);
    SameSelf(s0, at, goal);
    NestedUnfolds(g, 1, lazy);
    code := start;
    var bralink := innermost;
    ghost var j: nat, k: nat := d, 1;
    NestedState(at, j, k, g, lazy);
    while bralink != -1
      invariant k > 0 && j + k == d + 1 && bralink == BraLink(at, j, len) && Pending(buf.All(), at, j, OpBytes(g), lazy)
      invariant Holds(buf.All(), Level(at, j, len), OpsBytes(Nested(g, k, lazy)))
      invariant code == Level(at, j, len) + |OpsBytes(Nested(g, k, lazy))| && code + 3 * j == goal
      invariant Same(s0, buf.All(), at, goal)
      decreases j
    {
      ghost var s1 := buf.All();
      bralink := CloseOne(buf, code, bralink, at, j, g, k, lazy);
      SameWider(s1, buf.All(), Level(at, j - 1, len), code + 3, at, goal);
      SameTwice(s0, s1, buf.All(), at, goal);
      code := code + 3;
      j, k := j - 1, k + 1;
    }
  }

  lemma NestedState(at: nat, d: nat, k: nat, g: Op, lazy: bool)
    requires Plainly(g) && k > 0
    ensures |OpsBytes(Nested(g, k, lazy))| == NestedLength(k, |OpBytes(g)|)
    ensures Level(at, d, |OpBytes(g)|) + |OpsBytes(Nested(g, k, lazy))| + 3 * d ==
            at + NestedLength(d + k, |OpBytes(g)|)
    ensures NestedLength(1, |OpBytes(g)|) == |OpBytes(g)| + 1
  {
    NestedBytes(g, k, lazy);
    NestedEnd(at, d, k, |OpBytes(g)|);
    NestedOneMore(1, |OpBytes(g)|);
  }

  /** k nested optional copies, behind d that are pending already. */
  method Nest(buf: Buffer, from: nat, len: nat, at: nat, k: nat, bralink: int, lazy: bool, ghost d: nat,
              ghost g: Op) returns (code: nat)
    requires Plainly(g) && |OpBytes(g)| == len && 4 + len < 65536 && k > 0 && d <= 1 && bralink == BraLink(at, d, len)
    requires at + NestedLength(d + k, len) <= buf.code.Length && from + len <= Level(at, d, len)
    requires Holds(buf.All(), from, OpBytes(g)) && Pending(buf.All(), at, d, OpBytes(g), lazy)
    modifies buf.code
    ensures Holds(buf.All(), at, OpsBytes(Nested(g, d + k, lazy))) && code == at + NestedLength(d + k, len)
    ensures Same(old(buf.All()), buf.All(), at, code)
  {
    hide Level, Holds, Same, Pending, Buffer.All, OpBytes, OpsBytes, Nested, NestedLength;
    ghost var s0, goal := buf.All(), at + NestedLength(d + k, len);
    var last: int;
    code, last := NestCopies(buf, from, len, at, k, bralink, lazy, d, OpBytes(g));
    ghost var s1 := buf.All();
    code := CloseNested(buf, code, last, at, d + k - 1, g, lazy);
    SameWider(s0, s1, Level(at, d, len), goal, at, goal);
    SameTwice(s0, s1, buf.All(), at, goal);
  }

  // ---------------------------------------------------------------- the repeat of a group

  lemma KetReplaced(s: seq<byte>, t: seq<byte>, start: nat, g: Op, lazy: bool)
    requires Plainly(g) && Holds(s, start, OpBytes(g)) && |OpBytes(g)| >= 3
    requires var ket := start + |OpBytes(g)| - 3; Holds(t, ket, [OP_KETRMAX + Lazy(lazy)]) && Same(s, t, ket, ket + 1)
    ensures Holds(t, start, OpBytes(g.(ket := Repeats(lazy)))) && |OpBytes(g.(ket := Repeats(lazy)))| == |OpBytes(g)|
  {
    hide Holds, Same, Two, AltsBytes;
    var chain := AltsBytes(BraByte(g.number), NumberBytes(g.number), g.alts);
    var link, ket, k := Two(|chain|), start + |chain|, [OP_KETRMAX + Lazy(lazy)];
    assert OpBytes(g) == chain + [OP_KET] + link && OpBytes(g.(ket := Repeats(lazy))) == chain + k + link;
    HoldsJoined(s, start, chain + [OP_KET], link);
    HoldsJoined(s, start, chain, [OP_KET]);
    HoldsKept(s, t, ket, ket + 1, start, chain);
    HoldsKept(s, t, ket, ket + 1, ket + 1, link);
    HoldsJoined(t, start, chain, k);
    HoldsJoined(t, start, chain + k, link);
  }

  lemma GroupBytes(g: Op)
    requires Plainly(g)
    ensures var bodies := Bodies(NumberBytes(g.number), g.alts);
      && bodies != [] && OpBytes(g) == Closed(OP_KET, Chained(BraByte(g.number), bodies))
      && |OpBytes(g)| == At(bodies, |bodies|) + 3
  {
    var chain := AltsBytes(BraByte(g.number), NumberBytes(g.number), g.alts);
    AltsChained(BraByte(g.number), NumberBytes(g.number), g.alts);
    assert [] + Closed(OP_KET, chain) == Closed(OP_KET, chain);
  }

  /** The offset of the group's KET back from its end, found by following the links. */
  method KetOffset(buf: Buffer, previous: nat, end: nat, ghost g: Op) returns (ketOffset: nat)
    requires Plainly(g) && Holds(buf.All(), previous, OpBytes(g)) && end == previous + |OpBytes(g)|
    requires |OpBytes(g)| < 65536
    ensures ketOffset == 3
  {
    hide Holds, OpBytes, Buffer.All, Chained, At, Closed;
    GroupBytes(g);
    ghost var visited;
    var ket: nat;
    ket, visited := FindKet(buf, previous, BraByte(g.number), Bodies(NumberBytes(g.number), g.alts));
    ketOffset := end - ket;
  }

  /** The KET of a group becomes a repeating one. */
  method SetRepeating(buf: Buffer, ket: nat, lazy: bool, ghost start: nat, ghost g: Op)
    requires Plainly(g) && Holds(buf.All(), start, OpBytes(g)) && |OpBytes(g)| >= 3
    requires ket == start + |OpBytes(g)| - 3 < buf.code.Length
    modifies buf.code
    ensures Holds(buf.All(), start, OpBytes(g.(ket := Repeats(lazy)))) && Same(old(buf.All()), buf.All(), ket, ket + 1)
    ensures |OpBytes(g.(ket := Repeats(lazy)))| == |OpBytes(g)|
  {
    hide Holds, Same, OpBytes, Buffer.All;
    ghost var s := buf.All();
    buf.PutByte(ket, OP_KETRMAX + Lazy(lazy));
    KetReplaced(s, buf.All(), start, g, lazy);
  }

  /** {0,1}, and {0,} with a repeating KET: the group moves up behind a BRAZERO. */
  method MakeOptional(buf: Buffer, previous: nat, end: nat, unlimited: bool, lazy: bool,
                      ghost g: Op) returns (code: nat)
    requires Plainly(g) && Holds(buf.All(), previous, OpBytes(g)) && end == previous + |OpBytes(g)|
    requires |OpBytes(g)| < 65536 && end + 1 <= buf.code.Length
    modifies buf.code
    ensures code == end + 1 && Same(old(buf.All()), buf.All(), previous, code)
    ensures var repeated := if unlimited then g.(ket := Repeats(lazy)) else g;
      Holds(buf.All(), previous, [OP_BRAZERO + Lazy(lazy)] + OpBytes(repeated))
    ensures |OpBytes(if unlimited then g.(ket := Repeats(lazy)) else g)| == |OpBytes(g)|
  {
    hide Holds, Same, OpBytes, Buffer.All;
    ghost var s0 := buf.All();
    GroupBytes(g);
    var ketOffset: nat := 0;
    if unlimited {
      ketOffset := KetOffset(buf, previous, end, g);
    }
    buf.MoveUp(previous, end - previous, 1, OpBytes(g));
    ghost var s1 := buf.All();
    code := end + 1;
    buf.PutByte(previous, OP_BRAZERO + Lazy(lazy));
    ghost var s2 := buf.All();
    HoldsKept(s1, s2, previous, previous + 1, previous + 1, OpBytes(g));
    SameWider(s1, s2, previous, previous + 1, previous, code);
    SameTwice(s0, s1, s2, previous, code);
    if unlimited {
      SetRepeating(buf, code - ketOffset, lazy, previous + 1, g);
      SameWider(s2, buf.All(), code - ketOffset, code - ketOffset + 1, previous, code);
      SameTwice(s0, s2, buf.All(), previous, code);
      HoldsKept(s2, buf.All(), code - ketOffset, code - ketOffset + 1, previous, [OP_BRAZERO + Lazy(lazy)]);
    }
    ghost var repeated := if unlimited then g.(ket := Repeats(lazy)) else g;
    HoldsJoined(buf.All(), previous, [OP_BRAZERO + Lazy(lazy)], OpBytes(repeated));
  }

  /** {0,m} with m > 1: the group moves up into the first of the nested brackets. */
  method MakeNested(buf: Buffer, previous: nat, end: nat, max: nat, lazy: bool, ghost g: Op) returns (code: nat)
    requires Plainly(g) && Holds(buf.All(), previous, OpBytes(g)) && end == previous + |OpBytes(g)| && max > 1
    requires 4 + |OpBytes(g)| < 65536 && previous + NestedLength(max, |OpBytes(g)|) <= buf.code.Length
    modifies buf.code
    ensures code == previous + NestedLength(max, |OpBytes(g)|) && Same(old(buf.All()), buf.All(), previous, code)
    ensures Holds(buf.All(), previous, OpsBytes(Nested(g, max, lazy)))
  {
    hide Holds, Same, OpBytes, OpsBytes, Nested, Buffer.All, NestedLength, Two;
    ghost var s0 := buf.All();
    var len := end - previous;
    NestedOneMore(max - 1, len);
    NestedOneMore(1, len);
    NestedEnough(max, len);
    buf.MoveUp(previous, len, 4, OpBytes(g));
    ghost var s1 := buf.All();
    buf.PutByte(previous, OP_BRAZERO + Lazy(lazy));
    ghost var s2 := buf.All();
    buf.PutByte(previous + 1, OP_BRA);
    ghost var s3 := buf.All();
    buf.PutTwo(previous + 2, 0);
    ghost var s4 := buf.All();
    FirstLevel(s0, s1, s2, s3, s4, previous, g, lazy);
    code := Nest(buf, previous + 4, len, previous, max - 1, previous + 2, lazy, 1, g);
    SameWider(s0, s4, previous, previous + 4 + len, previous, code);
    SameTwice(s0, s4, buf.All(), previous, code);
  }

  lemma NestedEnough(k: nat, len: nat)
    requires k > 1
    ensures NestedLength(k, len) >= 2 * len + 8
  {
    MultipleAtLeast(k, len + 7);
  }

  lemma {:induction false} MultipleAtLeast(k: nat, x: nat)
    requires k > 1
    ensures Multiple(k, x) >= 2 * x
  {
    MultipleStep(k - 1, x);
    if k > 2 {
      MultipleAtLeast(k - 1, x);
    } else {
      MultipleStep(1, x);
    }
  }

  lemma FirstLevel(s0: seq<byte>, s1: seq<byte>, s2: seq<byte>, s3: seq<byte>, s4: seq<byte>, at: nat, g: Op,
                   lazy: bool)
    requires var len := |OpBytes(g)|; Holds(s1, at + 4, OpBytes(g)) && Same(s0, s1, at, at + 4 + len)
    requires Holds(s2, at, [OP_BRAZERO + Lazy(lazy)]) && Same(s1, s2, at, at + 1)
    requires Holds(s3, at + 1, [OP_BRA]) && Same(s2, s3, at + 1, at + 2)
    requires Holds(s4, at + 2, Two(0)) && Same(s3, s4, at + 2, at + 4)
    ensures Pending(s4, at, 1, OpBytes(g), lazy) && Holds(s4, at + 4, OpBytes(g))
    ensures Same(s0, s4, at, at + 4 + |OpBytes(g)|)
    ensures Level(at, 1, |OpBytes(g)|) == at + 4 + |OpBytes(g)| && BraLink(at, 1, |OpBytes(g)|) == at + 2
  {
    hide Holds, Same, Two, OpBytes;
    var z, to := [OP_BRAZERO + Lazy(lazy)], at + 4 + |OpBytes(g)|;
    HoldsKept(s2, s3, at + 1, at + 2, at, z);
    HoldsJoined(s3, at, z, [OP_BRA]);
    assert z + [OP_BRA] == Marks(lazy);
    HoldsKept(s3, s4, at + 2, at + 4, at, Marks(lazy));
    HoldsKept(s1, s2, at, at + 1, at + 4, OpBytes(g));
    HoldsKept(s2, s3, at + 1, at + 2, at + 4, OpBytes(g));
    HoldsKept(s3, s4, at + 2, at + 4, at + 4, OpBytes(g));
    SameWider(s1, s2, at, at + 1, at, to);
    SameWider(s2, s3, at + 1, at + 2, at, to);
    SameWider(s3, s4, at + 2, at + 4, at, to);
    SameTwice(s0, s1, s2, at, to);
    SameTwice(s0, s2, s3, at, to);
    SameTwice(s0, s3, s4, at, to);
    assert Level(at, 0, |OpBytes(g)|) == at;
    OpenedLevel(s4, at, 0, OpBytes(g), lazy);
    PendingMore(s4, at, 0, OpBytes(g), lazy);
    NextLevel(at, 0, |OpBytes(g)|);
  }

  /** The group stands min times in a row. */
  method Replicate(buf: Buffer, previous: nat, end: nat, min: nat, ghost g: Op) returns (code: nat)
    requires Plainly(g) && Holds(buf.All(), previous, OpBytes(g)) && end == previous + |OpBytes(g)| && min > 0
    requires previous + Multiple(min, |OpBytes(g)|) <= buf.code.Length
    modifies buf.code
    ensures code == previous + Multiple(min, |OpBytes(g)|) && end <= code
    ensures Same(old(buf.All()), buf.All(), previous, code)
    ensures Holds(buf.All(), previous, OpsBytes(Copies(g, min))) && Holds(buf.All(), previous, OpBytes(g))
    ensures code - |OpBytes(g)| >= previous && Holds(buf.All(), code - |OpBytes(g)|, OpBytes(g))
    ensures Holds(buf.All(), previous, OpsBytes(Copies(g, min - 1)))
    ensures code - |OpBytes(g)| == previous + |OpsBytes(Copies(g, min - 1))|
  {
    hide Holds, Same, OpBytes, OpsBytes, Buffer.All, Multiple;
    ghost var s0 := buf.All();
    CopiesLength(g, min - 1);
    MultipleStep(min - 1, |OpBytes(g)|);
    code := end;
    code := CopyTimes(buf, previous, end - previous, end, min - 1, g);
    ghost var s1 := buf.All();
    CopyFirst(g, min);
    CopyLast(g, min - 1);
    HoldsKept(s0, s1, end, code, previous, OpBytes(g));
    HoldsJoined(s1, previous, OpBytes(g), OpsBytes(Copies(g, min - 1)));
    HoldsJoined(s1, previous, OpsBytes(Copies(g, min - 1)), OpBytes(g));
    SameWider(s0, s1, end, code, previous, code);
  }

  lemma CopyFirst(g: Op, n: nat)
    requires n > 0
    ensures OpsBytes(Copies(g, n)) == OpBytes(g) + OpsBytes(Copies(g, n - 1))
  {
  }

  /** {n,} with n > 0: the last copy repeats. */
  method MakeUnlimited(buf: Buffer, previous: nat, end: nat, min: nat, lazy: bool, ghost g: Op) returns (code: nat)
    requires Plainly(g) && Holds(buf.All(), previous, OpBytes(g)) && end == previous + |OpBytes(g)| && min > 0
    requires |OpBytes(g)| < 65536 && previous + Multiple(min, |OpBytes(g)|) <= buf.code.Length
    modifies buf.code
    ensures code == previous + Multiple(min, |OpBytes(g)|) && Same(old(buf.All()), buf.All(), previous, code)
    ensures Holds(buf.All(), previous, OpsBytes(Join(Copies(g, min - 1), Cons(g.(ket := Repeats(lazy)), Nil))))
  {
    hide Holds, Same, OpBytes, OpsBytes, Buffer.All, Multiple, Copies, Join;
    ghost var s0 := buf.All();
    GroupBytes(g);
    var ketOffset := KetOffset(buf, previous, end, g);
    code := Replicate(buf, previous, end, min, g);
    ghost var s1, at := buf.All(), code - |OpBytes(g)|;
    SetRepeating(buf, code - ketOffset, lazy, at, g);
    ghost var s2 := buf.All();
    ghost var ket, last := code - ketOffset, g.(ket := Repeats(lazy));
    HoldsKept(s1, s2, ket, ket + 1, previous, OpsBytes(Copies(g, min - 1)));
    HoldsJoined(s2, previous, OpsBytes(Copies(g, min - 1)), OpBytes(last));
    JoinBytes(Copies(g, min - 1), Cons(last, Nil));
    OneOp(last);
    SameWider(s1, s2, ket, ket + 1, previous, code);
    SameTwice(s0, s1, s2, previous, code);
  }

  /** {n,m} with n > 0: copies, then nested optional ones. */
  method MakeLimited(buf: Buffer, previous: nat, end: nat, min: nat, max: nat, lazy: bool,
                     ghost g: Op) returns (code: nat)
    requires Plainly(g) && Holds(buf.All(), previous, OpBytes(g)) && end == previous + |OpBytes(g)| && 0 < min <= max
    requires 4 + |OpBytes(g)| < 65536 && RepeatOk(Times(min, max, lazy))
    requires previous + RepeatedLength(Times(min, max, lazy), |OpBytes(g)|) <= buf.code.Length
    modifies buf.code
    ensures code == previous + RepeatedLength(Times(min, max, lazy), |OpBytes(g)|)
    ensures Same(old(buf.All()), buf.All(), previous, code)
    ensures Holds(buf.All(), previous, OpsBytes(Join(Copies(g, min), Nested(g, max - min, lazy))))
  {
    hide Holds, Same, OpBytes, OpsBytes, Buffer.All, Multiple, Copies, Join, Nested, NestedLength;
    ghost var s0, goal := buf.All(), previous + RepeatedLength(Times(min, max, lazy), |OpBytes(g)|);
    JoinBytes(Copies(g, min), Nested(g, max - min, lazy));
    LimitedLength(g, min, max, lazy);
    code := Replicate(buf, previous, end, min, g);
    ghost var s1, at := buf.All(), code;
    SameWider(s0, s1, previous, code, previous, goal);
    NothingNested(s1, at, g, lazy);
    if max > min {
      code := Nest(buf, previous, end - previous, code, max - min, -1, lazy, 0, g);
      HoldsKept(s1, buf.All(), at, code, previous, OpsBytes(Copies(g, min)));
      SameWider(s1, buf.All(), at, code, previous, goal);
      SameTwice(s0, s1, buf.All(), previous, goal);
    }
    HoldsJoined(buf.All(), previous, OpsBytes(Copies(g, min)), OpsBytes(Nested(g, max - min, lazy)));
  }

  lemma NothingNested(s: seq<byte>, at: nat, g: Op, lazy: bool)
    requires Plainly(g) && at <= |s|
    ensures OpsBytes(Nested(g, 0, lazy)) == [] && Holds(s, at, [])
    ensures Pending(s, at, 0, OpBytes(g), lazy) && Level(at, 0, |OpBytes(g)|) == at
    ensures BraLink(at, 0, |OpBytes(g)|) == -1
  {
  }

  lemma LimitedLength(g: Op, min: nat, max: nat, lazy: bool)
    requires Plainly(g) && 0 < min <= max && RepeatOk(Times(min, max, lazy))
    ensures |OpsBytes(Copies(g, min))| == Multiple(min, |OpBytes(g)|)
    ensures RepeatedLength(Times(min, max, lazy), |OpBytes(g)|) ==
      Multiple(min, |OpBytes(g)|) + if max > min then NestedLength(max - min, |OpBytes(g)|) else 0
    ensures max > min ==> NestedLength(max - min, |OpBytes(g)|) >= 0
  {
    CopiesLength(g, min);
    if max > min {
      NestedBytes(g, max - min, lazy);
    }
  }

  /** The longer of two lengths. */
  function Longer(a: int, b: int): int {
    if a < b then b else a
  }

  /** The repeat of the group at `previous`, in place. Every byte written lies within the group
      or within what replaces it. */
  method RepeatInPlace(buf: Buffer, previous: nat, end: nat, rep: Repeat, ghost g: Op) returns (code: nat)
    requires Plainly(g) && RepeatOk(rep) && rep.Times?
    requires Holds(buf.All(), previous, OpBytes(g)) && end == previous + |OpBytes(g)| && 4 + |OpBytes(g)| < 65536
    requires previous + Longer(|OpBytes(g)|, RepeatedLength(rep, |OpBytes(g)|)) <= buf.code.Length
    modifies buf.code
    ensures code == previous + |OpsBytes(RepeatGroup(g, rep))|
    ensures Holds(buf.All(), previous, OpsBytes(RepeatGroup(g, rep)))
    ensures Same(old(buf.All()), buf.All(), previous,
                 previous + Longer(|OpBytes(g)|, RepeatedLength(rep, |OpBytes(g)|)))
  {
    hide Holds, Same, OpBytes, OpsBytes, Buffer.All, Multiple, Copies, Join, Nested, NestedLength;
    ghost var s0, to := buf.All(), previous + Longer(|OpBytes(g)|, RepeatedLength(rep, |OpBytes(g)|));
    GroupLength(g, rep);
    SameSelf(s0, previous, to);
    if rep.min == 0 {
      if rep.max == 0 {
        NothingNested(s0, previous, g, rep.lazy);
        NoOps();
        return previous;
      }
      if rep.max <= 1 {
        OptionalOps(g, rep);
        code := MakeOptional(buf, previous, end, rep.max == -1, rep.lazy, g);
      } else {
        code := MakeNested(buf, previous, end, rep.max, rep.lazy, g);
      }
    } else if rep.max == -1 {
      code := MakeUnlimited(buf, previous, end, rep.min, rep.lazy, g);
    } else {
      code := MakeLimited(buf, previous, end, rep.min, rep.max, rep.lazy, g);
    }
    SameWider(s0, buf.All(), previous, code, previous, to);
  }

  lemma NoOps()
    ensures OpsBytes(Nil) == []
  {
  }

  lemma OptionalOps(g: Op, rep: Repeat)
    requires Plainly(g) && RepeatOk(rep) && rep.Times? && rep.min == 0 && (rep.max == -1 || rep.max == 1)
    ensures OpsBytes(RepeatGroup(g, rep)) ==
      [OP_BRAZERO + Lazy(rep.lazy)] + OpBytes(if rep.max == -1 then g.(ket := Repeats(rep.lazy)) else g)
    ensures NestedLength(1, |OpBytes(g)|) == |OpBytes(g)| + 1
  {
    var h := if rep.max == -1 then g.(ket := Repeats(rep.lazy)) else g;
    ZeroInFront(h, rep.lazy);
    OneOp(h.(zero := Zero(rep.lazy)));
    NestedOneMore(1, |OpBytes(g)|);
  }
}
