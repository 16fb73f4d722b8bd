/** The measuring pass is right: the length it adds up is enough for the code that is emitted, and
    exact unless something is repeated {0}. */
module PcreLength {
  import opened Arith
  import opened PcreCode
  import opened PcreBytes

  /** Nothing in the pattern is repeated {0}. */
  predicate ItemKept(item: Item) {
    item.Group? ==> AllKept(item.re)
  }

  predicate BranchKept(b: Branch) {
    b.Then? ==> ItemKept(b.item) && (b.rep.Times? ==> b.rep.max != 0) && BranchKept(b.rest)
  }

  predicate AllKept(re: Regex) {
    BranchKept(re.b) && (re.Alt? ==> AllKept(re.more))
  }

  // ---------------------------------------------------------------- patterns with everything kept

  /** The pattern with what is repeated {0} standing once. */
  function KeptItem(item: Item): Item {
    if item.Group? then Group(item.capturing, Kept(item.re)) else item
  }

  function KeptBranch(b: Branch): Branch {
    if b.Empty? then b
    else Then(KeptItem(b.item), if b.rep.Times? && b.rep.max == 0 then Once else b.rep, KeptBranch(b.rest))
  }

  function Kept(re: Regex): Regex {
    match re case Last(b) => Last(KeptBranch(b)) case Alt(b, more) => Alt(KeptBranch(b), Kept(more))
  }

  lemma {:induction false} KeptMeasure(re: Regex)
    requires RegexOk(re)
    ensures RegexOk(Kept(re)) && AllKept(Kept(re)) && Measure(Kept(re)) == Measure(re)
    decreases re, 1
  {
    KeptBranchMeasure(re.b);
    if re.Alt? {
      KeptMeasure(re.more);
    }
  }

  lemma {:induction false} KeptBranchMeasure(b: Branch)
    requires BranchOk(b)
    ensures BranchOk(KeptBranch(b)) && BranchKept(KeptBranch(b)) && MeasureBranch(KeptBranch(b)) == MeasureBranch(b)
    decreases b, 1
  {
    hide Multiple, NestedLength, RepeatSingle;
    if b.Then? {
      if b.item.Group? {
        KeptMeasure(b.item.re);
      }
      KeptBranchMeasure(b.rest);
    }
  }

  /** The measured length is exactly that of the code of the pattern in which what is repeated {0} stands
      once. */
  lemma MeasureExactly(re: Regex, n: nat)
    requires RegexOk(re)
    ensures RegexOk(Kept(re)) && Measure(re) == |OpBytes(Bra(NoZero, 0, Expand(Kept(re), n), Plain))|
  {
    KeptMeasure(re);
    MeasureEnough(Kept(re), n, 0);
  }

  lemma {:induction false} CopiesLength(g: Op, n: nat)
    ensures |OpsBytes(Copies(g, n))| == Multiple(n, |OpBytes(g)|)
  {
    MultipleStep(n, |OpBytes(g)|);
    if n > 0 {
      CopiesLength(g, n - 1);
      MultipleStep(n - 1, |OpBytes(g)|);
    }
  }

  lemma OneLength(op: Op)
    ensures |OpsBytes(Cons(op, Nil))| == |OpBytes(op)|
  {
    assert OpsBytes(Cons(op, Nil)) == OpBytes(op) + [];
  }

  /** BRAZERO in front is one byte; the kind of KET makes no difference. */
  lemma ZeroLength(g: Op, zero: Zero, ket: Ket)
    requires g.Bra? && g.zero.NoZero?
    ensures |OpBytes(g.(zero := zero, ket := ket))| == |OpBytes(g)| + if zero.NoZero? then 0 else 1
  {
  }

  lemma WrapLength(inner: Ops, lazy: bool)
    ensures |OpBytes(Bra(Zero(lazy), 0, Only(inner), Plain))| == |OpsBytes(inner)| + 7
  {
  }

  lemma {:induction false} NestedBytes(g: Op, k: nat, lazy: bool)
    requires g.Bra? && g.zero.NoZero? && g.ket.Plain? && k > 0
    ensures |OpsBytes(Nested(g, k, lazy))| == NestedLength(k, |OpBytes(g)|)
  {
    var x := |OpBytes(g)| + 7;
    MultipleStep(k - 1, x);
    if k == 1 {
      OneLength(g.(zero := Zero(lazy)));
      ZeroLength(g, Zero(lazy), Plain);
    } else {
      var inner := Cons(g, Nested(g, k - 1, lazy));
      NestedBytes(g, k - 1, lazy);
      WrapLength(inner, lazy);
      OneLength(Bra(Zero(lazy), 0, Only(inner), Plain));
      hide Multiple;
    }
  }

  /** The length of a repeated group in terms of the group's. */
  function RepeatedLength(rep: Repeat, g: nat): (d: int)
    requires RepeatOk(rep)
  {
    if rep.Once? then g
    else if rep.min == 0 then
      if rep.max == 0 then 0 else if rep.max == -1 then g + 1 else NestedLength(rep.max, g)
    else if rep.max <= rep.min then Multiple(rep.min, g)
    else Multiple(rep.min, g) + NestedLength(rep.max - rep.min, g)
  }

  lemma GroupLength(g: Op, rep: Repeat)
    requires g.Bra? && g.zero.NoZero? && g.ket.Plain? && RepeatOk(rep)
    ensures |OpsBytes(RepeatGroup(g, rep))| == RepeatedLength(rep, |OpBytes(g)|)
  {
    hide Multiple, NestedLength;
    var x := |OpBytes(g)|;
    if rep.Once? {
      OneLength(g);
    } else if rep.min == 0 {
      if rep.max == -1 {
        ZeroLength(g, Zero(rep.lazy), Repeats(rep.lazy));
        OneLength(g.(zero := Zero(rep.lazy), ket := Repeats(rep.lazy)));
      } else if rep.max > 0 {
        NestedBytes(g, rep.max, rep.lazy);
      }
    } else if rep.max == -1 {
      var last := g.(ket := Repeats(rep.lazy));
      CopiesLength(g, rep.min - 1);
      JoinBytes(Copies(g, rep.min - 1), Cons(last, Nil));
      ZeroLength(g, NoZero, Repeats(rep.lazy));
      OneLength(last);
      MultipleStep(rep.min - 1, x);
    } else {
      CopiesLength(g, rep.min);
      JoinBytes(Copies(g, rep.min), Nested(g, rep.max - rep.min, rep.lazy));
      if rep.max > rep.min {
        NestedBytes(g, rep.max - rep.min, rep.lazy);
      }
    }
  }

  lemma NestedGrows(k: nat, x: nat, y: nat)
    requires k > 0 && x <= y
    ensures NestedLength(k, x) <= NestedLength(k, y) && (NestedLength(k, x) == NestedLength(k, y) <==> x == y)
  {
    MultipleGrows(k, x + 7, y + 7);
  }

  /** Multiplying the measured length covers the copies, exactly if the measure was exact. */
  lemma DeltaCovers(rep: Repeat, g: nat, prev: nat)
    requires RepeatOk(rep) && g <= prev && prev > 0
    ensures var total := prev + if rep.Once? then 0 else GroupDelta(rep.min, rep.max, prev);
      && RepeatedLength(rep, g) <= total
      && (RepeatedLength(rep, g) == total <==> g == prev && (rep.Times? ==> rep.max != 0))
  {
    if rep.Times? {
      if rep.min == 0 {
        if rep.max > 0 {
          NestedGrows(rep.max, g, prev);
          MultipleStep(rep.max - 1, prev + 7);
          MultipleStep(rep.max - 1, g + 7);
        }
      } else {
        MultipleGrows(rep.min, g, prev);
        MultipleStep(rep.min - 1, prev);
        if rep.max > rep.min {
          NestedGrows(rep.max - rep.min, g, prev);
        }
      }
    }
  }

  lemma {:induction false} ItemFits(item: Item, rep: Repeat, n: nat)
    requires ItemOk(item) && RepeatOk(rep)
    ensures var emitted := |OpsBytes(ExpandItem(item, rep, n))|;
      && emitted <= MeasureItem(item, rep)
      && (emitted == MeasureItem(item, rep) <==> ItemKept(item) && (rep.Times? ==> rep.max != 0))
    decreases item
  {
    hide Multiple, NestedLength, GroupDelta, RepeatedLength, RepeatGroup, RepeatSingle;
    match item
    case One(s) => SingleFits(s, rep);
    case Group(capturing, re) =>
      var number := if capturing then n + 1 else n;
      var g := Bra(NoZero, if capturing then number else 0, Expand(re, number), Plain);
      MeasureEnough(re, number, if capturing then number else 0);
      GroupLength(g, rep);
      DeltaCovers(rep, |OpBytes(g)|, Measure(re) + if capturing then 2 else 0);
  }

  lemma SingleFits(s: Single, rep: Repeat)
    requires RepeatOk(rep)
    ensures var emitted := |OpsBytes(RepeatSingle(s, rep))|;
      && emitted <= MeasureItem(One(s), rep) && (emitted == MeasureItem(One(s), rep) <==> (rep.Times? ==> rep.max != 0))
  {
    if rep.Once? {
      OneLength(Char(s));
    }
  }

  lemma {:induction false} BranchFits(b: Branch, n: nat)
    requires BranchOk(b)
    ensures var emitted := |OpsBytes(ExpandBranch(b, n))|;
      emitted <= MeasureBranch(b) && (emitted == MeasureBranch(b) <==> BranchKept(b))
    decreases b
  {
    if b.Then? {
      var next := n + ItemCaptures(b.item);
      ItemFits(b.item, b.rep, n);
      BranchFits(b.rest, next);
      JoinBytes(ExpandItem(b.item, b.rep, n), ExpandBranch(b.rest, next));
    }
  }

  lemma {:induction false} AltsFit(re: Regex, n: nat, op: byte, skip: seq<byte>)
    requires RegexOk(re)
    ensures var emitted := |AltsBytes(op, skip, Expand(re, n))| + 3;
      emitted <= Measure(re) + |skip| && (emitted == Measure(re) + |skip| <==> AllKept(re))
    decreases re, 0
  {
    BranchFits(re.b, n);
    if re.Alt? {
      AltsFit(re.more, n + BranchCaptures(re.b), OP_ALT, []);
    }
  }

  /** The length measured for a group is enough for its bytes, and exact if and only if nothing in
      it is repeated {0}. */
  lemma MeasureEnough(re: Regex, n: nat, number: nat)
    requires RegexOk(re)
    ensures var emitted := |OpBytes(Bra(NoZero, number, Expand(re, n), Plain))|;
      var measured := Measure(re) + if number == 0 then 0 else 2;
      emitted <= measured && (emitted == measured <==> AllKept(re))
    decreases re, 1
  {
    AltsFit(re, n, BraByte(number), NumberBytes(number));
  }
}
