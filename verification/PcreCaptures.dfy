/** Which number a capturing group carries in the code: that of its opening bracket in the pattern, in every
    copy that a repeat makes of it. */
module PcreCaptures {
  import opened PcreCode
  import opened PcreLength
  import opened PcreMeaning

  // ---------------------------------------------------------------- what is true of all the code

  /** What does not depend on the BRAZERO and the KET of a bracket, and is true of brackets that repeats
      add. */
  ghost predicate Tame(p: Op -> bool) {
    && (forall op: Op, zero, ket :: op.Bra? && p(op) ==> p(op.(zero := zero, ket := ket)))
    && (forall zero, alts, ket :: p(Bra(zero, 0, alts, ket)))
    && forall s, rep :: RepeatOk(rep) ==> EveryOps(RepeatSingle(s, rep), p)
  }

  lemma {:induction false} EveryJoin(a: Ops, b: Ops, p: Op -> bool)
    requires EveryOps(a, p) && EveryOps(b, p)
    ensures EveryOps(Join(a, b), p)
  {
    if a.Cons? {
      EveryJoin(a.rest, b, p);
    }
  }

  lemma {:induction false} EveryCopy(g: Op, n: nat, p: Op -> bool)
    requires EveryOp(g, p)
    ensures EveryOps(Copies(g, n), p)
  {
    if n > 0 {
      EveryCopy(g, n - 1, p);
    }
  }

  lemma {:induction false} EveryNested(g: Op, k: nat, lazy: bool, p: Op -> bool)
    requires g.Bra? && EveryOp(g, p) && Tame(p)
    ensures EveryOps(Nested(g, k, lazy), p)
  {
    if k == 1 {
      assert p(g.(zero := Zero(lazy), ket := g.ket));
    } else if k > 1 {
      EveryNested(g, k - 1, lazy, p);
      var inner := Cons(g, Nested(g, k - 1, lazy));
      assert EveryOps(inner, p);
      assert EveryOp(Bra(Zero(lazy), 0, Only(inner), Plain), p);
    }
  }

  lemma EveryRepeat(g: Op, rep: Repeat, p: Op -> bool)
    requires g.Bra? && RepeatOk(rep) && EveryOp(g, p) && Tame(p)
    ensures EveryOps(RepeatGroup(g, rep), p)
  {
    if rep.Times? {
      if rep.min == 0 {
        EveryNested(g, if rep.max == -1 then 0 else rep.max, rep.lazy, p);
      } else if rep.max == -1 {
        EveryCopy(g, rep.min - 1, p);
        EveryJoin(Copies(g, rep.min - 1), Cons(g.(ket := Repeats(rep.lazy)), Nil), p);
      } else {
        EveryCopy(g, rep.min, p);
        EveryNested(g, rep.max - rep.min, rep.lazy, p);
        EveryJoin(Copies(g, rep.min), Nested(g, rep.max - rep.min, rep.lazy), p);
      }
    }
  }

  /** The i-th capturing group, numbered from `base` on. */
  ghost predicate TrueOfGroups(all: seq<Regex>, base: nat, p: Op -> bool) {
    forall i :: 0 <= i < |all| && RegexOk(all[i]) ==>
      p(Bra(NoZero, base + i + 1, Expand(all[i], base + i + 1), Plain))
  }

  /** Some groups are those that stand in `all` from the n-th number on. */
  ghost predicate StandAt(groups: seq<Regex>, all: seq<Regex>, base: nat, n: nat) {
    base <= n && n - base + |groups| <= |all| && groups == all[n - base..n - base + |groups|]
  }

  lemma StandApart(a: seq<Regex>, b: seq<Regex>, all: seq<Regex>, base: nat, n: nat)
    requires StandAt(a + b, all, base, n)
    ensures StandAt(a, all, base, n) && StandAt(b, all, base, n + |a|)
  {
    assert a == (a + b)[..|a|] && b == (a + b)[|a|..];
  }

  lemma {:induction false} EveryExpanded(re: Regex, n: nat, all: seq<Regex>, base: nat, p: Op -> bool)
    requires RegexOk(re) && Tame(p) && TrueOfGroups(all, base, p) && StandAt(Opening(re), all, base, n)
    ensures EveryAlts(Expand(re, n), p)
    decreases re, 1
  {
    hide Tame, TrueOfGroups, StandAt;
    var more := if re.Alt? then Opening(re.more) else [];
    StandApart(BranchOpening(re.b), more, all, base, n);
    EveryInBranch(re.b, n, all, base, p);
    BranchOpened(re.b);
    if re.Alt? {
      EveryExpanded(re.more, n + BranchCaptures(re.b), all, base, p);
    }
  }

  lemma {:induction false} EveryInBranch(b: Branch, n: nat, all: seq<Regex>, base: nat, p: Op -> bool)
    requires BranchOk(b) && Tame(p) && TrueOfGroups(all, base, p) && StandAt(BranchOpening(b), all, base, n)
    ensures EveryOps(ExpandBranch(b, n), p)
    decreases b, 1
  {
    hide Tame, TrueOfGroups, StandAt, ExpandItem;
    if b.Then? {
      StandApart(ItemOpening(b.item), BranchOpening(b.rest), all, base, n);
      EveryInItem(b.item, b.rep, n, all, base, p);
      ItemOpened(b.item);
      EveryInBranch(b.rest, n + ItemCaptures(b.item), all, base, p);
      EveryJoin(ExpandItem(b.item, b.rep, n), ExpandBranch(b.rest, n + ItemCaptures(b.item)), p);
    }
  }

  lemma {:induction false} EveryInItem(item: Item, rep: Repeat, n: nat, all: seq<Regex>, base: nat, p: Op -> bool)
    requires ItemOk(item) && RepeatOk(rep) && Tame(p) && TrueOfGroups(all, base, p)
    requires StandAt(ItemOpening(item), all, base, n)
    ensures EveryOps(ExpandItem(item, rep, n), p)
    decreases item, 1
  {
    hide RepeatGroup, RepeatSingle;
    match item
    case One(s) =>
    case Group(capturing, re) =>
      var own := if capturing then [re] else [];
      StandApart(own, Opening(re), all, base, n);
      EveryExpanded(re, n + |own|, all, base, p);
      if capturing {
        assert all[n - base] == own[0];
      }
      EveryRepeat(Bra(NoZero, if capturing then n + 1 else 0, Expand(re, n + |own|), Plain), rep, p);
  }

  // ---------------------------------------------------------------- the numbers

  /** A capturing bracket holds the code of the group whose opening bracket has its number. */
  ghost function Carries(all: seq<Regex>, base: nat): Op -> bool {
    (op: Op) => op.Bra? && op.number > 0 ==>
      && base < op.number <= base + |all|
      && RegexOk(all[op.number - base - 1]) && op.alts == Expand(all[op.number - base - 1], op.number)
  }

  /** Every capturing bracket in the code of a pattern, the copies made by repeats included, carries the
      number of the opening bracket of the group it holds: the i-th of the pattern has n + i. */
  lemma EveryNumber(re: Regex, n: nat)
    requires RegexOk(re)
    ensures EveryAlts(Expand(re, n), Carries(Opening(re), n))
  {
    hide Tame, Carries, Opening;
    CarriesTame(Opening(re), n);
    GroupsCarry(Opening(re), n);
    assert Opening(re)[0..|Opening(re)|] == Opening(re);
    EveryExpanded(re, n, Opening(re), n, Carries(Opening(re), n));
  }

  lemma CarriesTame(all: seq<Regex>, base: nat)
    ensures Tame(Carries(all, base))
  {
    var p := Carries(all, base);
    forall s, rep | RepeatOk(rep) ensures EveryOps(RepeatSingle(s, rep), p) {
      SinglesCarry(s, rep, p);
    }
    hide RepeatOk, EveryOps, RepeatSingle;
  }

  lemma SinglesCarry(s: Single, rep: Repeat, p: Op -> bool)
    requires RepeatOk(rep) && forall op: Op :: !op.Bra? ==> p(op)
    ensures EveryOps(RepeatSingle(s, rep), p)
  {
    var ops := RepeatSingle(s, rep);
    if ops.Cons? {
      assert EveryOp(ops.op, p);
      if ops.rest.Cons? {
        assert EveryOp(ops.rest.op, p) && EveryOps(ops.rest.rest, p);
      }
    }
  }

  lemma GroupsCarry(all: seq<Regex>, base: nat)
    ensures TrueOfGroups(all, base, Carries(all, base))
  {
  }

  /** What that comes to: between the marks of a bracket stand the words of its group. */
  lemma CarriesMeaning(all: seq<Regex>, base: nat, op: Op)
    requires Carries(all, base)(op) && op.Bra? && op.number > 0
    ensures base < op.number <= base + |all|
    ensures AltsLang(op.alts, true) == RegexLang(all[op.number - base - 1], op.number, true)
  {
    ExpansionKeepsMeaning(all[op.number - base - 1], op.number, true);
  }

  // ---------------------------------------------------------------- which numbers there are

  ghost function OpNumbers(op: Op): set<nat> {
    if op.Bra? then (if op.number > 0 then {op.number} else {}) + AltsNumbers(op.alts) else {}
  }

  ghost function OpsNumbers(ops: Ops): set<nat> {
    if ops.Cons? then OpNumbers(ops.op) + OpsNumbers(ops.rest) else {}
  }

  ghost function AltsNumbers(alts: Alts): set<nat> {
    OpsNumbers(alts.ops) + if alts.Or? then AltsNumbers(alts.more) else {}
  }

  /** from + 1, ..., from + count. */
  ghost function Span(from: nat, count: nat): (s: set<nat>)
    ensures forall k :: k in s <==> from < k <= from + count
  {
    if count == 0 then {} else Span(from, count - 1) + {from + count}
  }

  lemma {:induction false} JoinNumbers(a: Ops, b: Ops)
    ensures OpsNumbers(Join(a, b)) == OpsNumbers(a) + OpsNumbers(b)
  {
    if a.Cons? {
      JoinNumbers(a.rest, b);
    }
  }

  lemma {:induction false} CopiesNumbers(g: Op, n: nat)
    ensures OpsNumbers(Copies(g, n)) == if n == 0 then {} else OpNumbers(g)
  {
    if n > 0 {
      CopiesNumbers(g, n - 1);
    }
  }

  lemma {:induction false} NestedNumbers(g: Op, k: nat, lazy: bool)
    requires g.Bra?
    ensures OpsNumbers(Nested(g, k, lazy)) == if k == 0 then {} else OpNumbers(g)
  {
    if k > 1 {
      NestedNumbers(g, k - 1, lazy);
      var inner := Cons(g, Nested(g, k - 1, lazy));
      assert AltsNumbers(Only(inner)) == OpNumbers(g);
    }
  }

  lemma SingleNumbers(s: Single, rep: Repeat)
    requires RepeatOk(rep)
    ensures OpsNumbers(RepeatSingle(s, rep)) == {}
  {
    var ops := RepeatSingle(s, rep);
    if ops.Cons? && ops.rest.Cons? {
      assert OpsNumbers(ops.rest.rest) == {} && OpNumbers(ops.rest.op) == {};
      assert OpsNumbers(ops.rest) == {};
    } else if ops.Cons? {
      assert OpsNumbers(ops.rest) == {};
    }
  }

  /** A repeat adds no numbers, and loses them only if it repeats nothing. */
  lemma RepeatNumbers(g: Op, rep: Repeat)
    requires g.Bra? && RepeatOk(rep)
    ensures OpsNumbers(RepeatGroup(g, rep)) == if rep.Times? && rep.max == 0 then {} else OpNumbers(g)
  {
    if rep.Times? {
      if rep.min == 0 {
        if rep.max > 0 {
          NestedNumbers(g, rep.max, rep.lazy);
        }
      } else if rep.max == -1 {
        CopiesNumbers(g, rep.min - 1);
        JoinNumbers(Copies(g, rep.min - 1), Cons(g.(ket := Repeats(rep.lazy)), Nil));
      } else {
        CopiesNumbers(g, rep.min);
        NestedNumbers(g, rep.max - rep.min, rep.lazy);
        JoinNumbers(Copies(g, rep.min), Nested(g, rep.max - rep.min, rep.lazy));
      }
    }
  }

  /** Every number from n + 1 on, one for each opening bracket, stands in the code, unless something is
      repeated {0}; no other does. */
  lemma {:induction false} AllNumbers(re: Regex, n: nat)
    requires RegexOk(re)
    ensures AltsNumbers(Expand(re, n)) <= Span(n, |Opening(re)|)
    ensures AllKept(re) ==> AltsNumbers(Expand(re, n)) == Span(n, |Opening(re)|)
    decreases re, 1
  {
    hide Span, BranchOpening;
    BranchOpened(re.b);
    BranchNumbers(re.b, n);
    if re.Alt? {
      AllNumbers(re.more, n + BranchCaptures(re.b));
    }
  }

  lemma {:induction false} BranchNumbers(b: Branch, n: nat)
    requires BranchOk(b)
    ensures OpsNumbers(ExpandBranch(b, n)) <= Span(n, |BranchOpening(b)|)
    ensures BranchKept(b) ==> OpsNumbers(ExpandBranch(b, n)) == Span(n, |BranchOpening(b)|)
    decreases b, 1
  {
    hide Span, ExpandItem, ItemOpening;
    if b.Then? {
      var next := n + ItemCaptures(b.item);
      ItemOpened(b.item);
      ItemNumbers(b.item, b.rep, n);
      BranchNumbers(b.rest, next);
      JoinNumbers(ExpandItem(b.item, b.rep, n), ExpandBranch(b.rest, next));
    }
  }

  lemma {:induction false} ItemNumbers(item: Item, rep: Repeat, n: nat)
    requires ItemOk(item) && RepeatOk(rep)
    ensures OpsNumbers(ExpandItem(item, rep, n)) <= Span(n, |ItemOpening(item)|)
    ensures ItemKept(item) && (rep.Times? ==> rep.max != 0) ==>
      OpsNumbers(ExpandItem(item, rep, n)) == Span(n, |ItemOpening(item)|)
    decreases item, 1
  {
    hide RepeatGroup, Span;
    match item
    case One(s) => SingleNumbers(s, rep);
    case Group(capturing, re) =>
      var number := if capturing then n + 1 else n;
      AllNumbers(re, number);
      RepeatNumbers(Bra(NoZero, if capturing then number else 0, Expand(re, number), Plain), rep);
  }
}
