/** pcre_compile.c: patterns of literals, dots, groups, alternation and repeats, and the code
    items they are compiled to. Counted repeats are expanded when the code is emitted. */
module PcreCode {
  import opened Arith

  // ---------------------------------------------------------------- patterns

  /** What a dot does not match. */
  const NEWLINE: byte := 10

  datatype Single = Lit(c: byte) | Dot

  /** A quantifier; max is -1 where there is no maximum. */
  datatype Repeat = Once | Times(min: nat, max: int, lazy: bool)

  datatype Item = One(s: Single) | Group(capturing: bool, re: Regex)
  datatype Branch = Empty | Then(item: Item, rep: Repeat, rest: Branch)
  datatype Regex = Last(b: Branch) | Alt(b: Branch, more: Regex)

  /** What read_repeat_counts lets through. */
  predicate RepeatOk(rep: Repeat) {
    rep.Times? ==> rep.min <= 65535 && (rep.max == -1 || rep.min <= rep.max <= 65535)
  }

  predicate ItemOk(item: Item) {
    item.Group? ==> RegexOk(item.re)
  }

  predicate BranchOk(b: Branch) {
    b.Then? ==> ItemOk(b.item) && RepeatOk(b.rep) && BranchOk(b.rest)
  }

  predicate RegexOk(re: Regex) {
    BranchOk(re.b) && (re.Alt? ==> RegexOk(re.more))
  }

  /** The number of capturing groups. */
  function ItemCaptures(item: Item): nat {
    if item.Group? then (if item.capturing then 1 else 0) + Captures(item.re) else 0
  }

  function BranchCaptures(b: Branch): nat {
    if b.Then? then ItemCaptures(b.item) + BranchCaptures(b.rest) else 0
  }

  function Captures(re: Regex): nat {
    BranchCaptures(re.b) + if re.Alt? then Captures(re.more) else 0
  }

  // ---------------------------------------------------------------- code items

  datatype Kind = Star | Plus | Query | Upto(n: nat) | Exact(n: nat)

  /** BRAZERO or BRAMINZERO in front of a bracket. */
  datatype Zero = NoZero | Zero(lazy: bool)

  /** KET, or KETRMAX or KETRMIN. */
  datatype Ket = Plain | Repeats(lazy: bool)

  datatype Op =
    | Char(s: Single)
    | Rep(kind: Kind, lazy: bool, s: Single)
    | Bra(zero: Zero, number: nat, alts: Alts, ket: Ket)

  datatype Ops = Nil | Cons(op: Op, rest: Ops)
  datatype Alts = Only(ops: Ops) | Or(ops: Ops, more: Alts)

  function Join(a: Ops, b: Ops): Ops {
    match a case Nil => b case Cons(op, rest) => Cons(op, Join(rest, b))
  }

  /** Something is true of every item of some code, inside brackets too. */
  predicate EveryOp(op: Op, p: Op -> bool) {
    p(op) && (op.Bra? ==> EveryAlts(op.alts, p))
  }

  predicate EveryOps(ops: Ops, p: Op -> bool) {
    ops.Cons? ==> EveryOp(ops.op, p) && EveryOps(ops.rest, p)
  }

  predicate EveryAlts(alts: Alts, p: Op -> bool) {
    EveryOps(alts.ops, p) && (alts.Or? ==> EveryAlts(alts.more, p))
  }

  // ---------------------------------------------------------------- the expansion of repeats

  /** A repeated single character: one or two items that count. */
  function RepeatSingle(s: Single, rep: Repeat): Ops
    requires RepeatOk(rep)
  {
    match rep
    case Once => Cons(Char(s), Nil)
    case Times(min, max, lazy) =>
      if max == 0 then Nil
      else if min == 0 then
        Cons(Rep(if max == -1 then Star else if max == 1 then Query else Upto(max), lazy, s), Nil)
      else if min == 1 then
        if max == -1 then Cons(Rep(Plus, lazy, s), Nil)
        else Cons(Char(s), if max == 1 then Nil else Cons(Rep(Upto(max - 1), lazy, s), Nil))
      else
        Cons(Rep(Exact(min), false, s),
             if max == -1 then Cons(Rep(Star, lazy, s), Nil)
             else if max == min then Nil
             else Cons(Rep(if max - min == 1 then Query else Upto(max - min), lazy, s), Nil))
  }

  function Copies(g: Op, n: nat): Ops {
    if n == 0 then Nil else Cons(g, Copies(g, n - 1))
  }

  /** k optional copies of a group, each inside the one before. */
  function Nested(g: Op, k: nat, lazy: bool): Ops
    requires g.Bra?
  {
    if k == 0 then Nil
    else if k == 1 then Cons(g.(zero := Zero(lazy)), Nil)
    else Cons(Bra(Zero(lazy), 0, Only(Cons(g, Nested(g, k - 1, lazy))), Plain), Nil)
  }

  /** A repeated group: copies, with the last one repeating or followed by nested optional ones. */
  function RepeatGroup(g: Op, rep: Repeat): Ops
    requires g.Bra? && RepeatOk(rep)
  {
    match rep
    case Once => Cons(g, Nil)
    case Times(min, max, lazy) =>
      if min == 0 then
        if max == 0 then Nil
        else if max == -1 then Cons(g.(zero := Zero(lazy), ket := Repeats(lazy)), Nil)
        else Nested(g, max, lazy)
      else if max == -1 then Join(Copies(g, min - 1), Cons(g.(ket := Repeats(lazy)), Nil))
      else Join(Copies(g, min), Nested(g, max - min, lazy))
  }

  /** The code of an item whose groups are numbered after n. */
  function ExpandItem(item: Item, rep: Repeat, n: nat): Ops
    requires ItemOk(item) && RepeatOk(rep)
  {
    match item
    case One(s) => RepeatSingle(s, rep)
    case Group(capturing, re) =>
      var number := if capturing then n + 1 else n;
      RepeatGroup(Bra(NoZero, if capturing then number else 0, Expand(re, number), Plain), rep)
  }

  function ExpandBranch(b: Branch, n: nat): Ops
    requires BranchOk(b)
  {
    if b.Empty? then Nil else Join(ExpandItem(b.item, b.rep, n), ExpandBranch(b.rest, n + ItemCaptures(b.item)))
  }

  function Expand(re: Regex, n: nat): Alts
    requires RegexOk(re)
  {
    match re
    case Last(b) => Only(ExpandBranch(b, n))
    case Alt(b, more) => Or(ExpandBranch(b, n), Expand(more, n + BranchCaptures(b)))
  }
}
