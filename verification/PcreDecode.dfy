/** Reading compiled code back: what a matcher sees in the bytes, by the numbers of the opcodes and by the
    links. Only the opcodes of the modelled patterns are read; all others are refused. */
module PcreDecode {
  import opened Arith
  import opened PcreCode
  import opened PcreBytes
  import opened PcreMeaning
  import opened PcreOrder
  import opened PcreLength
  import opened PcreCaptures

  datatype Option<T> = None | Some(value: T)

  /** Two bytes, the high one first. */
  function Big(s: seq<byte>, i: nat): nat
    requires i + 1 < |s|
  {
    (s[i] as nat) * 256 + s[i + 1] as nat
  }

  /** A whole branch. */
  function DecodeOps(s: seq<byte>): Option<Ops>
    decreases |s|, 3
  {
    if s == [] then Some(Nil)
    else
      match DecodeOp(s)
      case None => None
      case Some((op, n)) =>
        match DecodeOps(s[n..])
        case None => None
        case Some(rest) => Some(Cons(op, rest))
  }

  /** One item, and how many bytes it takes. */
  function DecodeOp(s: seq<byte>): (r: Option<(Op, nat)>)
    requires s != []
    ensures r.Some? ==> 0 < r.value.1 <= |s|
    decreases |s|, 2
  {
    if s[0] == 12 then Some((Char(Dot), 1))
    else if s[0] == 27 then (if |s| < 2 then None else Some((Char(Lit(s[1])), 2)))
    else if 30 <= s[0] <= 38 then DecodeRep(s, s[0], false)
    else if 56 <= s[0] <= 64 then DecodeRep(s, s[0] - 26, true)
    else if s[0] == 93 || s[0] == 94 then DecodeBracket(s, NoZero)
    else if (s[0] == 102 || s[0] == 103) && |s| > 1 && (s[1] == 93 || s[1] == 94) then
      match DecodeBracket(s[1..], Zero(s[0] == 103))
      case None => None
      case Some((op, n)) => Some((op, n + 1))
    else None
  }

  /** A repeat: 30 and 31 are star, 32 and 33 plus, 34 and 35 query, 36 and 37 upto, the lazy one second,
      and 38 is exact. */
  function DecodeRep(s: seq<byte>, code: nat, typed: bool): (r: Option<(Op, nat)>)
    requires s != [] && 30 <= code <= 38
    ensures r.Some? ==> 0 < r.value.1 <= |s|
  {
    var at := if code <= 35 then 1 else 3;
    if |s| <= at || (typed && s[at] != 12) then None
    else
      var single := if typed then Dot else Lit(s[at]);
      var kind :=
        if code <= 31 then Star
        else if code <= 33 then Plus
        else if code <= 35 then Query
        else if code <= 37 then Upto(Big(s, 1))
        else Exact(Big(s, 1));
      Some((Rep(kind, code == 31 || code == 33 || code == 35 || code == 37, single), at + 1))
  }

  /** A bracket: 93, or 94 and the number of a capturing group; 84, 85 or 86 at its end, with the way back. */
  function DecodeBracket(s: seq<byte>, zero: Zero): (r: Option<(Op, nat)>)
    requires s != [] && (s[0] == 93 || s[0] == 94)
    ensures r.Some? ==> 0 < r.value.1 <= |s|
    decreases |s|, 1
  {
    var skip := if s[0] == 94 then 2 else 0;
    if |s| < 3 + skip || (s[0] == 94 && Big(s, 3) == 0) then None
    else
      match DecodeAlts(s, skip)
      case None => None
      case Some((alts, end)) =>
        if |s| < end + 3 || Big(s, end + 1) != end || !(84 <= s[end] <= 86) then None
        else
          var ket := if s[end] == 84 then Plain else Repeats(s[end] == 86);
          Some((Bra(zero, if s[0] == 94 then Big(s, 3) else 0, alts, ket), end + 3))
  }

  /** The branches of a bracket: each link leads to the next, which begins with 83, or to the end. */
  function DecodeAlts(s: seq<byte>, skip: nat): (r: Option<(Alts, nat)>)
    requires |s| >= 3 + skip
    ensures r.Some? ==> 0 < r.value.1 < |s|
    decreases |s|, 0
  {
    var link := Big(s, 1);
    if link < 3 + skip || link >= |s| then None
    else
      match DecodeOps(s[3 + skip..link])
      case None => None
      case Some(ops) =>
        if s[link] != 83 then Some((Only(ops), link))
        else if |s| < link + 3 then None
        else
          match DecodeAlts(s[link..], 0)
          case None => None
          case Some((more, end)) => Some((Or(ops, more), link + end))
  }

  // ---------------------------------------------------------------- reading back what was written

  /** Counts and numbers fit two bytes, and an exact count is not lazy. */
  predicate Fits(op: Op) {
    match op
    case Char(_) => true
    case Rep(kind, lazy, _) => (kind.Upto? || kind.Exact? ==> kind.n < 65536) && (kind.Exact? ==> !lazy)
    case Bra(_, number, _, _) => number < 65536
  }

  lemma SingleOpsFit(s: Single, rep: Repeat)
    requires RepeatOk(rep)
    ensures EveryOps(RepeatSingle(s, rep), Fits)
  {
    var ops := RepeatSingle(s, rep);
    if ops.Cons? && ops.rest.Cons? {
      assert EveryOps(ops.rest.rest, Fits) && EveryOps(ops.rest, Fits);
    }
  }

  lemma FitsTame()
    ensures Tame(Fits)
  {
    forall s, rep | RepeatOk(rep) ensures EveryOps(RepeatSingle(s, rep), Fits) {
      SingleOpsFit(s, rep);
    }
    hide RepeatOk, EveryOps, RepeatSingle;
  }

  /** The code of a pattern fits as long as its groups can be numbered. */
  lemma CodeFits(re: Regex, n: nat)
    requires RegexOk(re) && n + |Opening(re)| < 65536
    ensures EveryAlts(Expand(re, n), Fits)
  {
    hide Tame, Opening;
    FitsTame();
    assert Opening(re)[0..|Opening(re)|] == Opening(re);
    EveryExpanded(re, n, Opening(re), n, Fits);
  }

  lemma BigTwo(s: seq<byte>, i: nat, v: nat)
    requires i + 2 <= |s| && v < 65536 && s[i..i + 2] == Two(v)
    ensures Big(s, i) == v
  {
    assert s[i] == s[i..i + 2][0] && s[i + 1] == s[i..i + 2][1];
  }

  lemma CharBack(s: Single, tail: seq<byte>)
    ensures SingleBytes(s) + tail != [] && DecodeOp(SingleBytes(s) + tail) == Some((Char(s), |SingleBytes(s)|))
  {
  }

  lemma RepBack(kind: Kind, lazy: bool, s: Single, tail: seq<byte>)
    requires Fits(Rep(kind, lazy, s))
    ensures var b := RepBytes(kind, lazy, s);
      b + tail != [] && DecodeOp(b + tail) == Some((Rep(kind, lazy, s), |b|))
  {
    hide Two;
    var b := RepBytes(kind, lazy, s) + tail;
    if kind.Upto? || kind.Exact? {
      assert b[1..3] == Two(kind.n);
      BigTwo(b, 1, kind.n);
    }
  }

  lemma {:induction false} OpsBack(ops: Ops)
    requires EveryOps(ops, Fits) && |OpsBytes(ops)| < 65536
    ensures DecodeOps(OpsBytes(ops)) == Some(ops)
    decreases ops, 3
  {
    hide OpBytes, DecodeOp;
    if ops.Cons? {
      var b, n := OpsBytes(ops), |OpBytes(ops.op)|;
      OpBack(ops.op, OpsBytes(ops.rest));
      assert b[n..] == OpsBytes(ops.rest);
      OpsBack(ops.rest);
    }
  }

  lemma {:induction false} OpBack(op: Op, tail: seq<byte>)
    requires EveryOp(op, Fits) && |OpBytes(op)| < 65536
    ensures OpBytes(op) != [] && DecodeOp(OpBytes(op) + tail) == Some((op, |OpBytes(op)|))
    decreases op, 2
  {
    hide RepBytes, SingleBytes, DecodeRep, DecodeBracket, AltsBytes, Closed, EveryAlts;
    match op
    case Char(s) => CharBack(s, tail);
    case Rep(kind, lazy, s) => RepBack(kind, lazy, s, tail);
    case Bra(zero, number, alts, ket) =>
      var b := Closed(KetByte(ket), AltsBytes(BraByte(number), NumberBytes(number), alts));
      BracketBack(op, tail);
      assert OpBytes(op) == ZeroBytes(zero) + b;
      var s := OpBytes(op) + tail;
      if zero.NoZero? {
        assert s == b + tail;
      } else {
        assert s[1..] == b + tail && s[1] == (b + tail)[0] == b[0];
      }
  }

  lemma {:induction false} BracketBack(op: Op, tail: seq<byte>)
    requires op.Bra? && EveryOp(op, Fits) && |OpBytes(op)| < 65536
    ensures var b := Closed(KetByte(op.ket), AltsBytes(BraByte(op.number), NumberBytes(op.number), op.alts));
      && b != [] && b[0] == (if op.number == 0 then 93 else 94) && |OpBytes(op)| == |b| + |ZeroBytes(op.zero)|
      && DecodeBracket(b + tail, op.zero) == Some((op, |b|))
    decreases op, 1
  {
    hide DecodeAlts, AltsBytes, Two, EveryAlts;
    var number := op.number;
    var segments := AltsBytes(BraByte(number), NumberBytes(number), op.alts);
    var s := segments + ([KetByte(op.ket)] + Two(|segments|) + tail);
    assert Closed(KetByte(op.ket), segments) + tail == s;
    FirstSegment(BraByte(number), NumberBytes(number), op.alts);
    AltsBack(BraByte(number), NumberBytes(number), op.alts, [KetByte(op.ket)] + Two(|segments|) + tail);
    if number != 0 {
      assert s[3..5] == segments[3..5] == Two(number);
      BigTwo(s, 3, number);
    }
    assert s[|segments| + 1..|segments| + 3] == Two(|segments|);
    BigTwo(s, |segments| + 1, |segments|);
  }

  /** How a bracket begins. */
  lemma FirstSegment(op: byte, skip: seq<byte>, alts: Alts)
    ensures var b := AltsBytes(op, skip, alts);
      |b| >= 3 + |skip| && b[0] == op && b[3..3 + |skip|] == skip
  {
    var first := Segment(op, skip + OpsBytes(alts.ops));
    assert alts.Or? ==> AltsBytes(op, skip, alts)[3..3 + |skip|] == first[3..3 + |skip|];
  }

  lemma {:induction false} AltsBack(op: byte, skip: seq<byte>, alts: Alts, tail: seq<byte>)
    requires EveryAlts(alts, Fits) && |AltsBytes(op, skip, alts)| < 65536 && tail != [] && tail[0] != 83
    ensures var b := AltsBytes(op, skip, alts);
      |b + tail| >= 3 + |skip| && DecodeAlts(b + tail, |skip|) == Some((alts, |b|))
    decreases alts, 4
  {
    hide DecodeOps, OpsBytes, Two, EveryOps;
    var body := skip + OpsBytes(alts.ops);
    var more := if alts.Or? then AltsBytes(OP_ALT, [], alts.more) else [];
    var s := [op] + Two(3 + |body|) + body + (more + tail);
    assert AltsBytes(op, skip, alts) + tail == s;
    assert s[1..3] == Two(3 + |body|);
    BigTwo(s, 1, 3 + |body|);
    assert s[3 + |skip|..3 + |body|] == OpsBytes(alts.ops) && s[3 + |body|..] == more + tail;
    OpsBack(alts.ops);
    if alts.Or? {
      FirstSegment(OP_ALT, [], alts.more);
      AltsBack(OP_ALT, [], alts.more, tail);
    }
  }

  // ---------------------------------------------------------------- a whole pattern

  /** Every capturing group has its place in the measured length. */
  lemma {:induction false} CapturesMeasured(re: Regex)
    requires RegexOk(re)
    ensures |Opening(re)| <= Measure(re)
    decreases re, 1
  {
    BranchCapturesMeasured(re.b);
    if re.Alt? {
      CapturesMeasured(re.more);
    }
  }

  lemma {:induction false} BranchCapturesMeasured(b: Branch)
    requires BranchOk(b)
    ensures |BranchOpening(b)| <= MeasureBranch(b)
    decreases b, 1
  {
    hide GroupDelta, RepeatSingle;
    if b.Then? {
      if b.item.Group? {
        CapturesMeasured(b.item.re);
      }
      BranchCapturesMeasured(b.rest);
    }
  }

  /** What some code says: it matches what the pattern describes, in the order of the pattern, and every
      capturing bracket in it is that of the group with its number; unless something is repeated {0} each
      number is there. */
  ghost predicate MeansPattern(code: Alts, re: Regex)
    requires RegexOk(re)
  {
    && (forall marks :: AltsLang(code, marks) == RegexLang(re, 0, marks))
    && (forall u, i :: AltsTries(code, u, i) == RegexTries(re, u, i))
    && EveryAlts(code, Carries(Opening(re), 0))
    && AltsNumbers(code) <= Span(0, |Opening(re)|)
    && (AllKept(re) ==> AltsNumbers(code) == Span(0, |Opening(re)|))
  }

  lemma ExpandedMeansPattern(re: Regex)
    requires RegexOk(re)
    ensures MeansPattern(Expand(re, 0), re)
  {
    hide AltsLang, RegexLang, AltsTries, RegexTries, Span, Carries, AltsNumbers, Opening;
    forall marks ensures AltsLang(Expand(re, 0), marks) == RegexLang(re, 0, marks) {
      ExpansionKeepsMeaning(re, 0, marks);
    }
    forall u, i ensures AltsTries(Expand(re, 0), u, i) == RegexTries(re, u, i) {
      ExpansionKeepsOrder(re, 0, u, i);
    }
    EveryNumber(re, 0);
    AllNumbers(re, 0);
  }

  /** The bytes of a whole pattern are read back as code that means the pattern. */
  lemma PatternReadBack(re: Regex) returns (code: Alts)
    requires RegexOk(re) && Measure(re) < 65536
    ensures DecodeOps(OpBytes(Bra(NoZero, 0, Expand(re, 0), Plain))) == Some(Cons(Bra(NoZero, 0, code, Plain), Nil))
    ensures MeansPattern(code, re)
  {
    hide Measure, OpBytes, MeansPattern, DecodeOps, Opening, Expand;
    code := Expand(re, 0);
    ExpandedMeansPattern(re);
    CapturesMeasured(re);
    CodeFits(re, 0);
    MeasureEnough(re, 0, 0);
    var ops := Cons(Bra(NoZero, 0, code, Plain), Nil);
    assert OpsBytes(ops) == OpBytes(ops.op) + [] == OpBytes(ops.op);
    assert EveryOp(ops.op, Fits) && EveryOps(ops.rest, Fits);
    OpsBack(ops);
  }
}
