/** pcre_compile.c: the bytes that code items are stored in, with LINK_SIZE 2, and the length that
    the measuring pass adds up for a pattern. */
module PcreBytes {
  import opened Arith
  import opened PcreCode

  const LINK_SIZE: nat := 2
  const OP_END: byte := 0
  const OP_ANY: byte := 12
  const OP_CHAR: byte := 27
  const OP_STAR: byte := 30
  const OP_TYPESTAR: byte := 56
  const OP_ALT: byte := 83
  const OP_KET: byte := 84
  const OP_KETRMAX: byte := 85
  const OP_BRA: byte := 93
  const OP_CBRA: byte := 94
  const OP_BRAZERO: byte := 102

  /** PUT and PUT2: two bytes, the high one first, cut off at 16 bits. */
  function Two(v: nat): (s: seq<byte>)
    ensures |s| == 2
  {
    [v / 256 % 256, v % 256]
  }

  /** GET. */
  function Get(s: seq<byte>, i: nat): (v: nat)
    requires i + 1 < |s|
    ensures v < 65536
  {
    (s[i] as int) * 256 + s[i + 1] as int
  }

  lemma GetTwo(s: seq<byte>, i: nat, v: nat)
    requires i + 2 <= |s| && v < 65536 && s[i..i + 2] == Two(v)
    ensures Get(s, i) == v
  {
    assert s[i] == s[i..i + 2][0] && s[i + 1] == s[i..i + 2][1];
  }

  // ---------------------------------------------------------------- code items in bytes

  function Lazy(lazy: bool): nat {
    if lazy then 1 else 0
  }

  /** The byte that says what a repeated item repeats. */
  function SingleByte(s: Single): byte {
    match s case Lit(c) => c case Dot => OP_ANY
  }

  function SingleBytes(s: Single): (b: seq<byte>)
    ensures 1 <= |b| <= 2
  {
    match s case Lit(c) => [OP_CHAR, c] case Dot => [OP_ANY]
  }

  /** The six kinds of repeats come in pairs, the lazy one second. */
  function KindCode(kind: Kind): (k: nat)
    ensures k <= 8
  {
    match kind case Star => 0 case Plus => 2 case Query => 4 case Upto(_) => 6 case Exact(_) => 8
  }

  function RepBytes(kind: Kind, lazy: bool, s: Single): seq<byte> {
    [(if s.Lit? then OP_STAR else OP_TYPESTAR) + KindCode(kind) + Lazy(lazy)]
    + (match kind case Upto(n) => Two(n) case Exact(n) => Two(n) case _ => [])
    + [SingleByte(s)]
  }

  function ZeroBytes(zero: Zero): (b: seq<byte>)
    ensures |b| <= 1
  {
    match zero case NoZero => [] case Zero(lazy) => [OP_BRAZERO + Lazy(lazy)]
  }

  function KetByte(ket: Ket): byte {
    match ket case Plain => OP_KET case Repeats(lazy) => OP_KETRMAX + Lazy(lazy)
  }

  /** What follows the link of an opening bracket: the number of a capturing group. */
  function NumberBytes(number: nat): (b: seq<byte>)
    ensures |b| == if number == 0 then 0 else 2
  {
    if number == 0 then [] else Two(number)
  }

  function BraByte(number: nat): byte {
    if number == 0 then OP_BRA else OP_CBRA
  }

  /** A branch behind its opcode: the link leads to the next one, or to the KET. */
  function Segment(op: byte, body: seq<byte>): (b: seq<byte>)
    ensures |b| == 3 + |body|
  {
    [op] + Two(3 + |body|) + body
  }

  /** The KET links back to the start of the group. */
  function Closed(ket: byte, segments: seq<byte>): (b: seq<byte>)
    ensures |b| == |segments| + 3
  {
    segments + [ket] + Two(|segments|)
  }

  function OpBytes(op: Op): (b: seq<byte>)
    decreases op
  {
    match op
    case Char(s) => SingleBytes(s)
    case Rep(kind, lazy, s) => RepBytes(kind, lazy, s)
    case Bra(zero, number, alts, ket) =>
      ZeroBytes(zero) + Closed(KetByte(ket), AltsBytes(BraByte(number), NumberBytes(number), alts))
  }

  function OpsBytes(ops: Ops): seq<byte>
    decreases ops
  {
    match ops case Nil => [] case Cons(op, rest) => OpBytes(op) + OpsBytes(rest)
  }

  function AltsBytes(op: byte, skip: seq<byte>, alts: Alts): (b: seq<byte>)
    ensures |b| >= 3
    decreases alts
  {
    match alts
    case Only(ops) => Segment(op, skip + OpsBytes(ops))
    case Or(ops, more) => Segment(op, skip + OpsBytes(ops)) + AltsBytes(OP_ALT, [], more)
  }

  lemma {:induction false} JoinBytes(a: Ops, b: Ops)
    ensures OpsBytes(Join(a, b)) == OpsBytes(a) + OpsBytes(b)
  {
    if a.Cons? {
      JoinBytes(a.rest, b);
    }
  }

  // ---------------------------------------------------------------- the measuring pass

  /** What compile_regex adds up for the brackets and the branches. */
  function Measure(re: Regex): (m: nat)
    requires RegexOk(re)
    ensures m >= 2 + 2 * LINK_SIZE
  {
    match re
    case Last(b) => 2 + 2 * LINK_SIZE + MeasureBranch(b)
    case Alt(b, more) => MeasureBranch(b) + 1 + LINK_SIZE + Measure(more)
  }

  function MeasureBranch(b: Branch): nat
    requires BranchOk(b)
  {
    if b.Empty? then 0 else MeasureItem(b.item, b.rep) + MeasureBranch(b.rest)
  }

  /** A repeat that shrinks the item to nothing does not take its length back. */
  function MeasureItem(item: Item, rep: Repeat): nat
    requires ItemOk(item) && RepeatOk(rep)
  {
    match item
    case One(s) => if rep.Once? || rep.max == 0 then |SingleBytes(s)| else |OpsBytes(RepeatSingle(s, rep))|
    case Group(capturing, re) =>
      var prev := Measure(re) + if capturing then 2 else 0;
      prev + if rep.Once? then 0 else GroupDelta(rep.min, rep.max, prev)
  }

  /** What a repeat adds to a group of length `prev`: multiplied, not copied. */
  function GroupDelta(min: nat, max: int, prev: nat): (d: int)
    requires max == -1 || min <= max
    ensures d >= 0 || prev == 0
  {
    if min == 0 then
      if max == 0 then 0
      else if max <= 1 then 1
      else 2 + LINK_SIZE + NestedLength(max - 1, prev) + 1 + LINK_SIZE
    else
      Multiple(min - 1, prev) + if max > min then NestedLength(max - min, prev) else 0
  }

  /** k nested optional copies; the last one does not nest. */
  function NestedLength(k: nat, prev: nat): (d: int)
    requires k > 0
  {
    Multiple(k, prev + 1 + 2 + 2 * LINK_SIZE) - 2 - 2 * LINK_SIZE
  }
}
