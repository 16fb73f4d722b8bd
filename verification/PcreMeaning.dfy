/** The expansion of repeats preserves meaning: the code of a pattern matches exactly the strings
    that the pattern describes, and every capturing group keeps the number of its bracket. */
module PcreMeaning {
  import opened Arith
  import opened PcreCode

  /** A character that is matched, or the place where a capturing group begins or ends. */
  datatype Sym = Ch(c: byte) | Open(number: nat) | Close(number: nat)

  type Word = seq<Sym>
  type Lang = iset<Word>

  ghost function Cat(a: Lang, b: Lang): Lang {
    iset u: Word | exists i :: 0 <= i <= |u| && u[..i] in a && u[i..] in b
  }

  ghost function Unit(): Lang {
    iset{[]}
  }

  ghost function Power(a: Lang, k: nat): Lang {
    if k == 0 then Unit() else Cat(a, Power(a, k - 1))
  }

  /** From min to max repetitions, or any number from min on where max is -1. */
  ghost function Times(a: Lang, min: nat, max: int): Lang {
    iset u: Word | Between(u, a, min, max)
  }

  ghost predicate Between(u: Word, a: Lang, min: nat, max: int) {
    exists k: nat :: min <= k && (max == -1 || k <= max) && u in Power(a, k)
  }

  // ---------------------------------------------------------------- what patterns and code mean

  /** The capturing groups of a pattern, in the order of their opening brackets. */
  function ItemOpening(item: Item): seq<Regex> {
    if item.One? then [] else (if item.capturing then [item.re] else []) + Opening(item.re)
  }

  function BranchOpening(b: Branch): seq<Regex> {
    if b.Empty? then [] else ItemOpening(b.item) + BranchOpening(b.rest)
  }

  function Opening(re: Regex): seq<Regex> {
    BranchOpening(re.b) + if re.Alt? then Opening(re.more) else []
  }

  ghost function SingleLang(s: Single): Lang {
    iset u: Word | |u| == 1 && u[0].Ch? && match s case Lit(c) => u[0].c == c case Dot => u[0].c != NEWLINE
  }

  /** A group's words, between the marks of its number if it captures and marks are asked for. */
  ghost function Marked(a: Lang, number: nat, marks: bool): Lang {
    if marks && number > 0 then Cat(Cat(iset{[Open(number)]}, a), iset{[Close(number)]}) else a
  }

  /** What an item describes when n capturing brackets have been opened before it: the next one gets the
      number n + 1. */
  ghost function ItemLang(item: Item, n: nat, marks: bool): Lang {
    match item
    case One(s) => SingleLang(s)
    case Group(capturing, re) =>
      if capturing then Marked(RegexLang(re, n + 1, marks), n + 1, marks) else RegexLang(re, n, marks)
  }

  ghost function BranchLang(b: Branch, n: nat, marks: bool): Lang {
    match b
    case Empty => Unit()
    case Then(item, rep, rest) =>
      Cat(if rep.Once? then ItemLang(item, n, marks) else Times(ItemLang(item, n, marks), rep.min, rep.max),
          BranchLang(rest, n + |ItemOpening(item)|, marks))
  }

  ghost function RegexLang(re: Regex, n: nat, marks: bool): Lang {
    match re
    case Last(b) => BranchLang(b, n, marks)
    case Alt(b, more) => BranchLang(b, n, marks) + RegexLang(more, n + |BranchOpening(b)|, marks)
  }

  ghost function KindLang(kind: Kind, a: Lang): Lang {
    match kind
    case Star => Times(a, 0, -1)
    case Plus => Times(a, 1, -1)
    case Query => Times(a, 0, 1)
    case Upto(n) => Times(a, 0, n)
    case Exact(n) => Times(a, n, n)
  }

  ghost function OpLang(op: Op, marks: bool): Lang {
    match op
    case Char(s) => SingleLang(s)
    case Rep(kind, _, s) => KindLang(kind, SingleLang(s))
    case Bra(zero, number, alts, ket) =>
      var once := Marked(AltsLang(alts, marks), number, marks);
      var run := if ket.Plain? then once else Times(once, 1, -1);
      if zero.NoZero? then run else run + Unit()
  }

  ghost function OpsLang(ops: Ops, marks: bool): Lang {
    match ops case Nil => Unit() case Cons(op, rest) => Cat(OpLang(op, marks), OpsLang(rest, marks))
  }

  ghost function AltsLang(alts: Alts, marks: bool): Lang {
    match alts case Only(ops) => OpsLang(ops, marks) case Or(ops, more) => OpsLang(ops, marks) + AltsLang(more, marks)
  }

  // ---------------------------------------------------------------- laws of languages

  lemma CatUnit(a: Lang)
    ensures Cat(a, Unit()) == a && Cat(Unit(), a) == a
  {
    CatUnitRight(a);
    CatUnitLeft(a);
  }

  lemma CatUnitRight(a: Lang)
    ensures Cat(a, Unit()) == a
  {
    forall u: Word ensures u in Cat(a, Unit()) <==> u in a {
      assert u[..|u|] == u && u[|u|..] == [];
    }
  }

  lemma CatUnitLeft(a: Lang)
    ensures Cat(Unit(), a) == a
  {
    forall u: Word ensures u in Cat(Unit(), a) <==> u in a {
      assert u[..0] == [] && u[0..] == u;
    }
  }

  lemma InCat(u: Word, v: Word, a: Lang, b: Lang)
    requires u in a && v in b
    ensures u + v in Cat(a, b)
  {
    assert (u + v)[..|u|] == u && (u + v)[|u|..] == v;
  }

  lemma SplitCat(u: Word, a: Lang, b: Lang) returns (v: Word, w: Word)
    requires u in Cat(a, b)
    ensures u == v + w && v in a && w in b
  {
    var i :| 0 <= i <= |u| && u[..i] in a && u[i..] in b;
    v, w := u[..i], u[i..];
  }

  lemma CatAssociates(a: Lang, b: Lang, c: Lang)
    ensures Cat(Cat(a, b), c) == Cat(a, Cat(b, c))
  {
    forall u: Word ensures u in Cat(Cat(a, b), c) <==> u in Cat(a, Cat(b, c)) {
      if u in Cat(Cat(a, b), c) {
        var v, w := SplitCat(u, Cat(a, b), c);
        var x, y := SplitCat(v, a, b);
        InCat(y, w, b, c);
        InCat(x, y + w, a, Cat(b, c));
        assert u == x + (y + w);
      }
      if u in Cat(a, Cat(b, c)) {
        var v, w := SplitCat(u, a, Cat(b, c));
        var x, y := SplitCat(w, b, c);
        InCat(v, x, a, b);
        InCat(v + x, y, Cat(a, b), c);
        assert u == (v + x) + y;
      }
    }
  }

  lemma PowerOne(a: Lang)
    ensures Power(a, 1) == a
  {
    CatUnit(a);
  }

  lemma {:induction false} PowerAdds(a: Lang, j: nat, k: nat)
    ensures Power(a, j + k) == Cat(Power(a, j), Power(a, k))
  {
    hide Cat;
    if j == 0 {
      CatUnit(Power(a, k));
    } else {
      PowerAdds(a, j - 1, k);
      CatAssociates(a, Power(a, j - 1), Power(a, k));
    }
  }

  lemma TimesExactly(a: Lang, k: nat)
    ensures Times(a, k, k) == Power(a, k)
  {
  }

  /** n repetitions followed by min to max more are n + min to n + max. */
  lemma TimesAdds(a: Lang, n: nat, min: nat, max: int)
    requires max >= -1
    ensures Cat(Power(a, n), Times(a, min, max)) == Times(a, n + min, if max == -1 then -1 else n + max)
  {
    hide Cat, Power;
    var top := if max == -1 then -1 else n + max;
    forall u: Word ensures u in Cat(Power(a, n), Times(a, min, max)) <==> u in Times(a, n + min, top) {
      if u in Cat(Power(a, n), Times(a, min, max)) {
        var v, w := SplitCat(u, Power(a, n), Times(a, min, max));
        var k: nat :| min <= k && (max == -1 || k <= max) && w in Power(a, k);
        PowerAdds(a, n, k);
        InCat(v, w, Power(a, n), Power(a, k));
        assert u in Power(a, n + k);
      }
      if u in Times(a, n + min, top) {
        var k: nat :| n + min <= k && (top == -1 || k <= top) && u in Power(a, k);
        PowerAdds(a, n, k - n);
        var v, w := SplitCat(u, Power(a, n), Power(a, k - n));
        assert w in Times(a, min, max);
        InCat(v, w, Power(a, n), Times(a, min, max));
      }
    }
  }

  /** At most k repetitions are none, or one and at most k - 1 more. */
  lemma TimesNested(a: Lang, k: nat)
    requires k > 0
    ensures Times(a, 0, k) == Cat(a, Times(a, 0, k - 1)) + Unit()
  {
    hide Cat, Times, Power, Unit;
    TimesAdds(a, 1, 0, k - 1);
    PowerOne(a);
    TimesFromOne(a, k);
  }

  /** Any number of repetitions is none, or at least one. */
  lemma TimesFromOne(a: Lang, max: int)
    requires max == -1 || max > 0
    ensures Times(a, 0, max) == Times(a, 1, max) + Unit()
  {
    hide Cat;
    forall u: Word ensures Between(u, a, 0, max) <==> Between(u, a, 1, max) || u in Unit() {
      if Between(u, a, 0, max) {
        var j: nat :| (max == -1 || j <= max) && u in Power(a, j);
        assert j == 0 || Between(u, a, 1, max);
      }
      if u in Unit() {
        assert u in Power(a, 0);
      }
    }
  }

  lemma TimesZero(a: Lang)
    ensures Times(a, 0, 0) == Unit()
  {
    TimesExactly(a, 0);
  }

  // ---------------------------------------------------------------- the expansion

  lemma {:induction false} JoinLang(a: Ops, b: Ops, marks: bool)
    ensures OpsLang(Join(a, b), marks) == Cat(OpsLang(a, marks), OpsLang(b, marks))
  {
    match a
    case Nil => CatUnit(OpsLang(b, marks));
    case Cons(op, rest) =>
      JoinLang(rest, b, marks);
      CatAssociates(OpLang(op, marks), OpsLang(rest, marks), OpsLang(b, marks));
  }

  lemma JustOne(op: Op, marks: bool)
    ensures OpsLang(Cons(op, Nil), marks) == OpLang(op, marks)
  {
    CatUnit(OpLang(op, marks));
  }

  lemma {:induction false} CopiesLang(g: Op, n: nat, marks: bool)
    ensures OpsLang(Copies(g, n), marks) == Power(OpLang(g, marks), n)
  {
    if n > 0 {
      CopiesLang(g, n - 1, marks);
    }
  }

  /** Optional groups, each inside the one before, match up to as many repetitions. */
  lemma {:induction false} NestedLang(g: Op, k: nat, lazy: bool, marks: bool)
    requires g.Bra? && g.zero.NoZero? && g.ket.Plain?
    ensures OpsLang(Nested(g, k, lazy), marks) == Times(OpLang(g, marks), 0, k)
  {
    hide Cat, Times, Power, Unit;
    var a := OpLang(g, marks);
    if k == 0 {
      TimesZero(a);
    } else {
      TimesNested(a, k);
      var inner := Nested(g, k - 1, lazy);
      NestedLang(g, k - 1, lazy, marks);
      if k == 1 {
        TimesZero(a);
        CatUnit(a);
        JustOne(g.(zero := Zero(lazy)), marks);
      } else {
        var body := Only(Cons(g, inner));
        assert AltsLang(body, marks) == Cat(a, OpsLang(inner, marks));
        JustOne(Bra(Zero(lazy), 0, body, Plain), marks);
      }
    }
  }

  ghost function RepeatLang(a: Lang, rep: Repeat): Lang {
    if rep.Once? then a else Times(a, rep.min, rep.max)
  }

  lemma TimesOnce(a: Lang)
    ensures Times(a, 1, 1) == a
  {
    TimesExactly(a, 1);
    PowerOne(a);
  }

  lemma SingleRepeated(s: Single, rep: Repeat, marks: bool)
    requires RepeatOk(rep)
    ensures OpsLang(RepeatSingle(s, rep), marks) == RepeatLang(SingleLang(s), rep)
  {
    hide Cat, Times, Power, Unit, SingleLang;
    var a := SingleLang(s);
    if rep.Once? {
      JustOne(Char(s), marks);
    } else if rep.max == 0 {
      TimesZero(a);
    } else if rep.min == 0 || (rep.min == 1 && rep.max == -1) {
      JustOne(RepeatSingle(s, rep).op, marks);
    } else {
      TimesOnce(a);
      TimesExactly(a, rep.min);
      PowerOne(a);
      var ops := RepeatSingle(s, rep);
      if ops.rest.Cons? {
        JustOne(ops.rest.op, marks);
        TimesAdds(a, rep.min, 0, if rep.max == -1 then -1 else rep.max - rep.min);
      } else {
        JustOne(ops.op, marks);
      }
    }
  }

  lemma GroupRepeated(g: Op, rep: Repeat, marks: bool)
    requires g.Bra? && g.zero.NoZero? && g.ket.Plain? && RepeatOk(rep)
    ensures OpsLang(RepeatGroup(g, rep), marks) == RepeatLang(OpLang(g, marks), rep)
  {
    hide Cat, Times, Power, Unit;
    var a := OpLang(g, marks);
    if rep.Once? {
      JustOne(g, marks);
    } else if rep.min == 0 {
      if rep.max == 0 {
        TimesZero(a);
      } else if rep.max == -1 {
        TimesFromOne(a, -1);
        JustOne(g.(zero := Zero(rep.lazy), ket := Repeats(rep.lazy)), marks);
      } else {
        NestedLang(g, rep.max, rep.lazy, marks);
      }
    } else if rep.max == -1 {
      var last := g.(ket := Repeats(rep.lazy));
      CopiesLang(g, rep.min - 1, marks);
      JoinLang(Copies(g, rep.min - 1), Cons(last, Nil), marks);
      JustOne(last, marks);
      TimesAdds(a, rep.min - 1, 1, -1);
    } else {
      CopiesLang(g, rep.min, marks);
      NestedLang(g, rep.max - rep.min, rep.lazy, marks);
      JoinLang(Copies(g, rep.min), Nested(g, rep.max - rep.min, rep.lazy), marks);
      TimesAdds(a, rep.min, 0, rep.max - rep.min);
    }
  }

  /** Counting groups is counting opening brackets. */
  lemma {:induction false} CapturesOpened(re: Regex)
    ensures |Opening(re)| == Captures(re)
    decreases re, 0
  {
    BranchOpened(re.b);
    if re.Alt? {
      CapturesOpened(re.more);
    }
  }

  lemma {:induction false} BranchOpened(b: Branch)
    ensures |BranchOpening(b)| == BranchCaptures(b)
    decreases b, 0
  {
    if b.Then? {
      ItemOpened(b.item);
      BranchOpened(b.rest);
    }
  }

  lemma {:induction false} ItemOpened(item: Item)
    ensures |ItemOpening(item)| == ItemCaptures(item)
    decreases item, 0
  {
    if item.Group? {
      CapturesOpened(item.re);
    }
  }

  lemma {:induction false} ItemMeaning(item: Item, rep: Repeat, n: nat, marks: bool)
    requires ItemOk(item) && RepeatOk(rep)
    ensures OpsLang(ExpandItem(item, rep, n), marks) == RepeatLang(ItemLang(item, n, marks), rep)
    decreases item
  {
    hide Cat, Times, Power, Unit, RepeatSingle, RepeatGroup, RepeatLang;
    match item
    case One(s) => SingleRepeated(s, rep, marks);
    case Group(capturing, re) =>
      var number := if capturing then n + 1 else n;
      ExpansionKeepsMeaning(re, number, marks);
      GroupRepeated(Bra(NoZero, if capturing then number else 0, Expand(re, number), Plain), rep, marks);
  }

  lemma {:induction false} BranchMeaning(b: Branch, n: nat, marks: bool)
    requires BranchOk(b)
    ensures OpsLang(ExpandBranch(b, n), marks) == BranchLang(b, n, marks)
    decreases b
  {
    hide Cat, Times, Power, Unit;
    if b.Then? {
      ItemOpened(b.item);
      ItemMeaning(b.item, b.rep, n, marks);
      BranchMeaning(b.rest, n + ItemCaptures(b.item), marks);
      JoinLang(ExpandItem(b.item, b.rep, n), ExpandBranch(b.rest, n + ItemCaptures(b.item)), marks);
    }
  }

  /** The code of a pattern matches what the pattern describes, and where marks are asked for, every
      capturing group stands between the marks of its bracket's number, in every copy of it. */
  lemma {:induction false} ExpansionKeepsMeaning(re: Regex, n: nat, marks: bool)
    requires RegexOk(re)
    ensures AltsLang(Expand(re, n), marks) == RegexLang(re, n, marks)
    decreases re
  {
    BranchOpened(re.b);
    BranchMeaning(re.b, n, marks);
    if re.Alt? {
      ExpansionKeepsMeaning(re.more, n + BranchCaptures(re.b), marks);
    }
  }

  /** Without marks the numbers play no part. */
  lemma {:induction false} NumbersPlayNoPart(re: Regex, m: nat, n: nat)
    ensures RegexLang(re, m, false) == RegexLang(re, n, false)
    decreases re, 0
  {
    BranchNumbersPlayNoPart(re.b, m, n);
    if re.Alt? {
      NumbersPlayNoPart(re.more, m + |BranchOpening(re.b)|, n + |BranchOpening(re.b)|);
    }
  }

  lemma {:induction false} BranchNumbersPlayNoPart(b: Branch, m: nat, n: nat)
    ensures BranchLang(b, m, false) == BranchLang(b, n, false)
    decreases b, 0
  {
    hide Cat, Times, Unit;
    if b.Then? {
      if b.item.Group? {
        var one := if b.item.capturing then 1 else 0;
        NumbersPlayNoPart(b.item.re, m + one, n + one);
      }
      BranchNumbersPlayNoPart(b.rest, m + |ItemOpening(b.item)|, n + |ItemOpening(b.item)|);
    }
  }
}
