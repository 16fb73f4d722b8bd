/** The expansion of repeats preserves the order in which a matcher tries: on every text and from every
    position the code offers the same ends of a match as the pattern, in the same order, greedy and lazy
    repeats and alternatives included. An iteration that matches nothing is the last of an unlimited
    repeat. */
module PcreOrder {
  import opened Arith
  import opened PcreCode

  type Text = seq<byte>

  /** The ends of a match from a position on, the one that is tried first in front. */
  type Tries = nat -> seq<nat>

  /** One match and then another: for each end of the first, in order, all ends of the second. */
  ghost function Each(f: Tries, s: seq<nat>): seq<nat> {
    if s == [] then [] else f(s[0]) + Each(f, s[1..])
  }

  /** More repetitions first if the repeat is greedy, none first if it is lazy. */
  ghost function Prefer(lazy: bool, more: seq<nat>, none: seq<nat>): seq<nat> {
    if lazy then none + more else more + none
  }

  /** One repetition, and as many more as there are: an empty one is the last. */
  ghost function Loop(m: Tries, lazy: bool, u: Text, i: nat): seq<nat>
    decreases |u| - i
  {
    Each(j => if i < j <= |u| then Prefer(lazy, Loop(m, lazy, u, j), [j]) else [j], m(i))
  }

  /** From min to max repetitions, or any number from min on where max is -1. */
  ghost function Repeated(m: Tries, min: nat, max: int, lazy: bool, u: Text, i: nat): seq<nat>
    requires max == -1 || min <= max
    decreases min, if max == -1 then 0 else max
  {
    if min == 1 && max == -1 then Loop(m, lazy, u, i)
    else if min > 0 then Each(j => Repeated(m, min - 1, if max == -1 then -1 else max - 1, lazy, u, j), m(i))
    else if max == 0 then [i]
    else if max == -1 then Prefer(lazy, Loop(m, lazy, u, i), [i])
    else Prefer(lazy, Each(j => Repeated(m, 0, max - 1, lazy, u, j), m(i)), [i])
  }

  // ---------------------------------------------------------------- what patterns and code try

  ghost function SingleTries(s: Single, u: Text, i: nat): seq<nat> {
    if i < |u| && (match s case Lit(c) => u[i] == c case Dot => u[i] != NEWLINE) then [i + 1] else []
  }

  ghost function RepeatTries(m: Tries, rep: Repeat, u: Text, i: nat): seq<nat>
    requires RepeatOk(rep)
  {
    if rep.Once? then m(i) else Repeated(m, rep.min, rep.max, rep.lazy, u, i)
  }

  ghost function ItemTries(item: Item, u: Text, i: nat): seq<nat>
    requires ItemOk(item)
  {
    match item case One(s) => SingleTries(s, u, i) case Group(_, re) => RegexTries(re, u, i)
  }

  ghost function BranchTries(b: Branch, u: Text, i: nat): seq<nat>
    requires BranchOk(b)
  {
    match b
    case Empty => [i]
    case Then(item, rep, rest) =>
      Each(j => BranchTries(rest, u, j), RepeatTries(k => ItemTries(item, u, k), rep, u, i))
  }

  ghost function RegexTries(re: Regex, u: Text, i: nat): seq<nat>
    requires RegexOk(re)
  {
    match re
    case Last(b) => BranchTries(b, u, i)
    case Alt(b, more) => BranchTries(b, u, i) + RegexTries(more, u, i)
  }

  ghost function KindTries(kind: Kind, m: Tries, lazy: bool, u: Text, i: nat): seq<nat> {
    match kind
    case Star => Repeated(m, 0, -1, lazy, u, i)
    case Plus => Repeated(m, 1, -1, lazy, u, i)
    case Query => Repeated(m, 0, 1, lazy, u, i)
    case Upto(n) => Repeated(m, 0, n, lazy, u, i)
    case Exact(n) => Repeated(m, n, n, lazy, u, i)
  }

  ghost function OpTries(op: Op, u: Text, i: nat): seq<nat> {
    match op
    case Char(s) => SingleTries(s, u, i)
    case Rep(kind, lazy, s) => KindTries(kind, k => SingleTries(s, u, k), lazy, u, i)
    case Bra(zero, _, alts, ket) =>
      var run := if ket.Plain? then AltsTries(alts, u, i) else Loop(k => AltsTries(alts, u, k), ket.lazy, u, i);
      if zero.NoZero? then run else Prefer(zero.lazy, run, [i])
  }

  ghost function OpsTries(ops: Ops, u: Text, i: nat): seq<nat> {
    match ops case Nil => [i] case Cons(op, rest) => Each(j => OpsTries(rest, u, j), OpTries(op, u, i))
  }

  ghost function AltsTries(alts: Alts, u: Text, i: nat): seq<nat> {
    match alts
    case Only(ops) => OpsTries(ops, u, i)
    case Or(ops, more) => OpsTries(ops, u, i) + AltsTries(more, u, i)
  }

  // ---------------------------------------------------------------- laws of trying

  lemma {:induction false} EachSame(f: Tries, g: Tries, s: seq<nat>)
    requires forall i :: 0 <= i < |s| ==> f(s[i]) == g(s[i])
    ensures Each(f, s) == Each(g, s)
  {
    if s != [] {
      EachSame(f, g, s[1..]);
    }
  }

  lemma EachNone(f: Tries)
    ensures Each(f, []) == []
  {
  }

  lemma EachFirst(f: Tries, i: nat, s: seq<nat>)
    ensures Each(f, [i] + s) == f(i) + Each(f, s)
  {
    assert ([i] + s)[1..] == s;
  }

  lemma {:induction false} EachJoined(f: Tries, s: seq<nat>, t: seq<nat>)
    ensures Each(f, s + t) == Each(f, s) + Each(f, t)
  {
    hide Each;
    if s == [] {
      EachNone(f);
      assert s + t == t;
    } else {
      EachJoined(f, s[1..], t);
      EachFirst(f, s[0], s[1..]);
      EachFirst(f, s[0], s[1..] + t);
      assert s == [s[0]] + s[1..] && s + t == [s[0]] + (s[1..] + t);
    }
  }

  lemma EachOne(f: Tries, i: nat)
    ensures Each(f, [i]) == f(i)
  {
    assert Each(f, [i][1..]) == [];
  }

  lemma {:induction false} EachItself(s: seq<nat>)
    ensures Each(j => [j], s) == s
  {
    if s != [] {
      EachItself(s[1..]);
    }
  }

  lemma {:induction false} EachEach(f: Tries, g: Tries, s: seq<nat>)
    ensures Each(g, Each(f, s)) == Each(j => Each(g, f(j)), s)
  {
    if s != [] {
      EachEach(f, g, s[1..]);
      EachJoined(g, f(s[0]), Each(f, s[1..]));
    }
  }

  lemma {:induction false} LoopSame(m: Tries, n: Tries, lazy: bool, u: Text, i: nat)
    requires forall k :: m(k) == n(k)
    ensures Loop(m, lazy, u, i) == Loop(n, lazy, u, i)
    decreases |u| - i
  {
    var f: Tries := j => if i < j <= |u| then Prefer(lazy, Loop(m, lazy, u, j), [j]) else [j];
    var g: Tries := j => if i < j <= |u| then Prefer(lazy, Loop(n, lazy, u, j), [j]) else [j];
    forall j | 0 <= j < |m(i)| ensures f(m(i)[j]) == g(m(i)[j]) {
      if i < m(i)[j] <= |u| {
        LoopSame(m, n, lazy, u, m(i)[j]);
      }
    }
    EachSame(f, g, m(i));
  }

  lemma {:induction false} RepeatedSame(m: Tries, n: Tries, min: nat, max: int, lazy: bool, u: Text, i: nat)
    requires (max == -1 || min <= max) && forall k :: m(k) == n(k)
    ensures Repeated(m, min, max, lazy, u, i) == Repeated(n, min, max, lazy, u, i)
    decreases min, if max == -1 then 0 else max, 0
  {
    if min == 1 && max == -1 {
      LoopSame(m, n, lazy, u, i);
    } else if min > 0 {
      NextSame(m, n, min - 1, if max == -1 then -1 else max - 1, lazy, u, i);
    } else if max == -1 {
      LoopSame(m, n, lazy, u, i);
    } else if max > 0 {
      NextSame(m, n, 0, max - 1, lazy, u, i);
    }
  }

  lemma {:induction false} NextSame(m: Tries, n: Tries, min: nat, max: int, lazy: bool, u: Text, i: nat)
    requires (max == -1 || min <= max) && forall k :: m(k) == n(k)
    ensures Each(j => Repeated(m, min, max, lazy, u, j), m(i)) == Each(j => Repeated(n, min, max, lazy, u, j), n(i))
    decreases min, if max == -1 then 0 else max, 1
  {
    var f: Tries, g: Tries := j => Repeated(m, min, max, lazy, u, j), j => Repeated(n, min, max, lazy, u, j);
    forall x | 0 <= x < |m(i)| ensures f(m(i)[x]) == g(m(i)[x]) {
      RepeatedSame(m, n, min, max, lazy, u, m(i)[x]);
    }
    EachSame(f, g, m(i));
  }

  lemma RepeatSame(m: Tries, n: Tries, rep: Repeat, u: Text, i: nat)
    requires RepeatOk(rep) && forall k :: m(k) == n(k)
    ensures RepeatTries(m, rep, u, i) == RepeatTries(n, rep, u, i)
  {
    if rep.Times? {
      RepeatedSame(m, n, rep.min, rep.max, rep.lazy, u, i);
    }
  }

  lemma RepeatedNext(m: Tries, min: nat, max: int, lazy: bool, u: Text, i: nat)
    requires (max == -1 && min > 1) || (0 < min <= max)
    ensures Repeated(m, min, max, lazy, u, i) ==
            Each(j => Repeated(m, min - 1, if max == -1 then -1 else max - 1, lazy, u, j), m(i))
  {
  }

  lemma RepeatedNone(m: Tries, lazy: bool, u: Text, i: nat)
    ensures Repeated(m, 0, 0, lazy, u, i) == [i] && Repeated(m, 1, -1, lazy, u, i) == Loop(m, lazy, u, i)
  {
  }

  // ---------------------------------------------------------------- the expansion

  lemma {:induction false} JoinTries(a: Ops, b: Ops, u: Text, i: nat)
    ensures OpsTries(Join(a, b), u, i) == Each(j => OpsTries(b, u, j), OpsTries(a, u, i))
  {
    match a
    case Nil => EachOne(j => OpsTries(b, u, j), i);
    case Cons(op, rest) =>
      var s := OpTries(op, u, i);
      var f: Tries, g: Tries := j => OpsTries(rest, u, j), j => OpsTries(b, u, j);
      var h: Tries := j => OpsTries(Join(rest, b), u, j);
      forall x | 0 <= x < |s| ensures h(s[x]) == Each(g, f(s[x])) {
        JoinTries(rest, b, u, s[x]);
      }
      EachSame(h, j => Each(g, f(j)), s);
      EachEach(f, g, s);
  }

  lemma JustOne(op: Op, u: Text, i: nat)
    ensures OpsTries(Cons(op, Nil), u, i) == OpTries(op, u, i)
  {
    EachSame(j => OpsTries(Nil, u, j), j => [j], OpTries(op, u, i));
    EachItself(OpTries(op, u, i));
  }

  /** Copies of a group in front of some code that repeats it. */
  lemma {:induction false} CopiesTries(g: Op, n: nat, tail: Ops, min: nat, max: int, lazy: bool, u: Text, i: nat)
    requires (max == -1 && min > 0) || min <= max
    requires forall j :: OpsTries(tail, u, j) == Repeated(k => OpTries(g, u, k), min, max, lazy, u, j)
    ensures OpsTries(Join(Copies(g, n), tail), u, i) ==
            Repeated(k => OpTries(g, u, k), n + min, if max == -1 then -1 else n + max, lazy, u, i)
  {
    hide Repeated, Loop, OpTries, Each;
    if n > 0 {
      var m: Tries := k => OpTries(g, u, k);
      var rest := Join(Copies(g, n - 1), tail);
      var top := if max == -1 then -1 else n - 1 + max;
      var f: Tries, h: Tries := j => OpsTries(rest, u, j), j => Repeated(m, n - 1 + min, top, lazy, u, j);
      forall x | 0 <= x < |m(i)| ensures f(m(i)[x]) == h(m(i)[x]) {
        CopiesTries(g, n - 1, tail, min, max, lazy, u, m(i)[x]);
      }
      EachSame(f, h, m(i));
      RepeatedNext(m, n + min, if max == -1 then -1 else n + max, lazy, u, i);
    }
  }

  /** Optional groups inside one another are tried like at most as many repetitions. */
  lemma {:induction false} NestedTries(g: Op, k: nat, lazy: bool, u: Text, i: nat)
    requires g.Bra? && g.zero.NoZero? && g.ket.Plain?
    ensures OpsTries(Nested(g, k, lazy), u, i) == Repeated(j => OpTries(g, u, j), 0, k, lazy, u, i)
  {
    var m: Tries := j => OpTries(g, u, j);
    if k == 1 {
      JustOne(g.(zero := Zero(lazy)), u, i);
      EachSame(j => Repeated(m, 0, 0, lazy, u, j), j => [j], m(i));
      EachItself(m(i));
    } else if k > 1 {
      var inner := Nested(g, k - 1, lazy);
      var f: Tries, h: Tries := j => OpsTries(inner, u, j), j => Repeated(m, 0, k - 1, lazy, u, j);
      forall x | 0 <= x < |m(i)| ensures f(m(i)[x]) == h(m(i)[x]) {
        NestedTries(g, k - 1, lazy, u, m(i)[x]);
      }
      EachSame(f, h, m(i));
      assert OpsTries(Cons(g, inner), u, i) == Each(f, m(i));
      assert AltsTries(Only(Cons(g, inner)), u, i) == Each(f, m(i));
      JustOne(Bra(Zero(lazy), 0, Only(Cons(g, inner)), Plain), u, i);
    }
  }

  lemma GroupOrder(g: Op, rep: Repeat, u: Text, i: nat)
    requires g.Bra? && g.zero.NoZero? && g.ket.Plain? && RepeatOk(rep)
    ensures OpsTries(RepeatGroup(g, rep), u, i) == RepeatTries(k => OpTries(g, u, k), rep, u, i)
  {
    var m: Tries := k => OpTries(g, u, k);
    if rep.Once? {
      JustOne(g, u, i);
    } else if rep.min == 0 {
      if rep.max == -1 {
        JustOne(g.(zero := Zero(rep.lazy), ket := Repeats(rep.lazy)), u, i);
        LoopSame(k => AltsTries(g.alts, u, k), m, rep.lazy, u, i);
      } else if rep.max > 0 {
        NestedTries(g, rep.max, rep.lazy, u, i);
      }
    } else if rep.max == -1 {
      var last := g.(ket := Repeats(rep.lazy));
      forall j ensures OpsTries(Cons(last, Nil), u, j) == Repeated(m, 1, -1, rep.lazy, u, j) {
        JustOne(last, u, j);
        LoopSame(k => AltsTries(g.alts, u, k), m, rep.lazy, u, j);
      }
      CopiesTries(g, rep.min - 1, Cons(last, Nil), 1, -1, rep.lazy, u, i);
    } else {
      var most: nat := rep.max - rep.min;
      forall j ensures OpsTries(Nested(g, most, rep.lazy), u, j) == Repeated(m, 0, most, rep.lazy, u, j) {
        NestedTries(g, most, rep.lazy, u, j);
      }
      CopiesTries(g, rep.min, Nested(g, most, rep.lazy), 0, most, rep.lazy, u, i);
    }
  }

  /** Every repetition moves on, and stays within the text. */
  ghost predicate MovesOn(m: Tries, u: Text) {
    forall k: nat, x :: 0 <= x < |m(k)| ==> k < m(k)[x] <= |u|
  }

  /** n repetitions and then some more are so many more. */
  lemma {:induction false} PowerThen(m: Tries, n: nat, min: nat, max: int, lazy: bool, u: Text, i: nat)
    requires MovesOn(m, u) && (max == -1 || min <= max)
    ensures Each(j => Repeated(m, min, max, lazy, u, j), Repeated(m, n, n, false, u, i)) ==
            Repeated(m, n + min, if max == -1 then -1 else n + max, lazy, u, i)
    decreases n
  {
    hide Repeated, Loop, Each, MovesOn;
    var f: Tries := j => Repeated(m, min, max, lazy, u, j);
    RepeatedNone(m, false, u, i);
    if n == 0 {
      EachOne(f, i);
    } else {
      var top := if max == -1 then -1 else n - 1 + max;
      var g: Tries := j => Repeated(m, n - 1, n - 1, false, u, j);
      var h: Tries := j => Repeated(m, n - 1 + min, top, lazy, u, j);
      forall x | 0 <= x < |m(i)| ensures Each(f, g(m(i)[x])) == h(m(i)[x]) {
        PowerThen(m, n - 1, min, max, lazy, u, m(i)[x]);
      }
      EachEach(g, f, m(i));
      EachSame(j => Each(f, g(j)), h, m(i));
      RepeatedNext(m, n, n, false, u, i);
      if n + min == 1 && max == -1 {
        RepeatedNone(m, lazy, u, i);
        LoopIsNext(m, lazy, u, i);
      } else {
        RepeatedNext(m, n + min, if max == -1 then -1 else n + max, lazy, u, i);
      }
    }
  }

  /** Where every repetition moves on, a loop is one and any number more. */
  lemma LoopIsNext(m: Tries, lazy: bool, u: Text, i: nat)
    requires MovesOn(m, u)
    ensures Loop(m, lazy, u, i) == Each(j => Repeated(m, 0, -1, lazy, u, j), m(i))
  {
    EachSame(j => if i < j <= |u| then Prefer(lazy, Loop(m, lazy, u, j), [j]) else [j],
             j => Repeated(m, 0, -1, lazy, u, j), m(i));
  }

  lemma SingleOrder(s: Single, rep: Repeat, u: Text, i: nat)
    requires RepeatOk(rep)
    ensures OpsTries(RepeatSingle(s, rep), u, i) == RepeatTries(k => SingleTries(s, u, k), rep, u, i)
  {
    hide Repeated, Loop, Each, MovesOn;
    var ops := RepeatSingle(s, rep);
    if rep.Once? {
      JustOne(Char(s), u, i);
    } else if rep.max == 0 {
      RepeatedNone(k => SingleTries(s, u, k), rep.lazy, u, i);
    } else {
      if rep.min == 0 || (rep.min == 1 && rep.max == -1) {
        JustOne(ops.op, u, i);
      } else {
        var m: Tries, most := k => SingleTries(s, u, k), if rep.max == -1 then -1 else rep.max - rep.min;
        var f: Tries, h: Tries := j => OpsTries(ops.rest, u, j), j => Repeated(m, 0, most, rep.lazy, u, j);
        FirstSingle(s, rep, u, i);
        forall j ensures f(j) == h(j) {
          RestOfSingles(s, rep, u, j);
        }
        EachSame(f, h, OpTries(ops.op, u, i));
        SinglesMoveOn(s, u);
        PowerThen(m, rep.min, 0, most, rep.lazy, u, i);
      }
    }
  }

  lemma SinglesMoveOn(s: Single, u: Text)
    ensures MovesOn(k => SingleTries(s, u, k), u)
  {
  }

  lemma FirstSingle(s: Single, rep: Repeat, u: Text, i: nat)
    requires RepeatOk(rep) && rep.Times? && rep.min > 0 && rep.max != 0 && (rep.min == 1 ==> rep.max > 0)
    ensures OpTries(RepeatSingle(s, rep).op, u, i) ==
            Repeated(k => SingleTries(s, u, k), rep.min, rep.min, false, u, i)
  {
    if rep.min == 1 {
      var m: Tries := k => SingleTries(s, u, k);
      EachSame(j => Repeated(m, 0, 0, false, u, j), j => [j], m(i));
      EachItself(m(i));
    }
  }

  lemma RestOfSingles(s: Single, rep: Repeat, u: Text, j: nat)
    requires RepeatOk(rep) && rep.Times? && rep.min > 0 && rep.max != 0 && (rep.min == 1 ==> rep.max > 0)
    ensures OpsTries(RepeatSingle(s, rep).rest, u, j) ==
            Repeated(k => SingleTries(s, u, k), 0, if rep.max == -1 then -1 else rep.max - rep.min, rep.lazy, u, j)
  {
    var rest := RepeatSingle(s, rep).rest;
    if rest.Cons? {
      JustOne(rest.op, u, j);
    }
  }

  lemma {:induction false} ItemOrder(item: Item, rep: Repeat, n: nat, u: Text, i: nat)
    requires ItemOk(item) && RepeatOk(rep)
    ensures OpsTries(ExpandItem(item, rep, n), u, i) == RepeatTries(k => ItemTries(item, u, k), rep, u, i)
    decreases item
  {
    match item
    case One(s) =>
      SingleOrder(s, rep, u, i);
      RepeatSame(k => SingleTries(s, u, k), k => ItemTries(item, u, k), rep, u, i);
    case Group(capturing, re) =>
      var number := if capturing then n + 1 else n;
      var g := Bra(NoZero, if capturing then number else 0, Expand(re, number), Plain);
      forall k ensures OpTries(g, u, k) == ItemTries(item, u, k) {
        ExpansionKeepsOrder(re, number, u, k);
      }
      GroupOrder(g, rep, u, i);
      RepeatSame(k => OpTries(g, u, k), k => ItemTries(item, u, k), rep, u, i);
  }

  lemma {:induction false} BranchOrder(b: Branch, n: nat, u: Text, i: nat)
    requires BranchOk(b)
    ensures OpsTries(ExpandBranch(b, n), u, i) == BranchTries(b, u, i)
    decreases b
  {
    hide Each, RepeatTries, ItemTries, ExpandItem, OpTries;
    if b.Then? {
      var next := n + ItemCaptures(b.item);
      var rest := ExpandBranch(b.rest, next);
      var f: Tries, h: Tries := j => OpsTries(rest, u, j), j => BranchTries(b.rest, u, j);
      ItemOrder(b.item, b.rep, n, u, i);
      forall j ensures f(j) == h(j) {
        BranchOrder(b.rest, next, u, j);
      }
      JoinTries(ExpandItem(b.item, b.rep, n), rest, u, i);
      EachSame(f, h, OpsTries(ExpandItem(b.item, b.rep, n), u, i));
    }
  }

  /** The code of a pattern offers the ends of its matches in the order of the pattern. */
  lemma {:induction false} ExpansionKeepsOrder(re: Regex, n: nat, u: Text, i: nat)
    requires RegexOk(re)
    ensures AltsTries(Expand(re, n), u, i) == RegexTries(re, u, i)
    decreases re
  {
    BranchOrder(re.b, n, u, i);
    if re.Alt? {
      ExpansionKeepsOrder(re.more, n + BranchCaptures(re.b), u, i);
    }
  }
}
