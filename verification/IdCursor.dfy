/** heap.c, the pure part of timer-id allocation: an index whose negative entries are free
    ids, a cursor that only moves forward, and the remembered minimum it jumps back to. */
module IdCursor {
  datatype IdState = IdState(ids: seq<int>, last: nat, minFree: nat)

  predicate IsFreeIn(ids: seq<int>, id: nat) {
    id < |ids| && ids[id] < 0
  }

  /** The first free position from i on, or the end of the index. */
  function Scan(ids: seq<int>, i: nat): (k: nat)
    ensures i <= k && (i <= |ids| ==> k <= |ids|) && (k < |ids| ==> ids[k] < 0)
    ensures forall j :: i <= j < k && j < |ids| ==> ids[j] >= 0
    decreases |ids| - i
  {
    if i < |ids| && ids[i] >= 0 then Scan(ids, i + 1) else i
  }

  /** heap_get_node_id: the new cursors and the id. */
  function Next(s: IdState): (r: (IdState, nat)) {
    var k := Scan(s.ids, s.last + 1);
    if k == |s.ids| && s.minFree < |s.ids| then (IdState(s.ids, s.minFree, |s.ids|), s.minFree)
    else (IdState(s.ids, k, s.minFree), k)
  }

  /** release_node_id. */
  function Release(s: IdState, id: nat): IdState
    requires id < |s.ids|
  {
    IdState(s.ids[id := -1], s.last, if id < s.minFree && id <= s.last then id else s.minFree)
  }

  /** heap_increase: the new ids are free, the cursors stay, and with them a sentinel that
      used to lie past the end of the index. */
  function Grow(s: IdState, step: nat): IdState {
    IdState(s.ids + seq(step, _ => -1), s.last, s.minFree)
  }

  /** Every free id is ahead of the cursor or not below the remembered minimum. */
  ghost predicate CursorIn(ids: seq<int>, last: nat, minFree: nat) {
    last < |ids| && forall id :: 0 <= id < |ids| && ids[id] < 0 ==> id > last || id >= minFree
  }

  /** CursorIn once `taken` is no longer free. */
  ghost predicate CursorButIn(ids: seq<int>, last: nat, minFree: nat, taken: nat) {
    last < |ids| && forall id :: 0 <= id < |ids| && ids[id] < 0 && id != taken ==> id > last || id >= minFree
  }

  /** The remembered minimum is a free id the cursor has passed, or says that there is none. */
  ghost predicate SteadyIn(ids: seq<int>, last: nat, minFree: nat) {
    minFree == |ids| || (minFree <= last && IsFreeIn(ids, minFree))
  }

  /** What a caller can check: a free id ahead of the cursor, or at the remembered minimum. */
  ghost predicate FreshIn(ids: seq<int>, last: nat, minFree: nat) {
    last < |ids| && ((exists id :: last < id < |ids| && ids[id] < 0) || IsFreeIn(ids, minFree))
  }

  /** The id handed out is free exactly when FreshIn; then the cursors stay consistent. */
  lemma NextIsFree(s: IdState)
    ensures var (t, id) := Next(s);
      && (IsFreeIn(s.ids, id) <==> FreshIn(s.ids, s.last, s.minFree))
      && (CursorIn(s.ids, s.last, s.minFree) && IsFreeIn(s.ids, id) ==> CursorButIn(t.ids, t.last, t.minFree, id))
      && (SteadyIn(s.ids, s.last, s.minFree) && IsFreeIn(s.ids, id) ==>
           SteadyIn(t.ids, t.last, t.minFree) && t.minFree != id)
  {
  }

  /** The id is the first free one ahead of the cursor; only if there is none it is the remembered minimum, and
      past the end of the index only if that is not in it. */
  lemma NextIsFirst(s: IdState, id: nat)
    ensures s.last < id && IsFreeIn(s.ids, id) && (forall j :: s.last < j < id ==> s.ids[j] >= 0) ==> Next(s).1 == id
    ensures s.last < |s.ids| && (forall j :: s.last < j < |s.ids| ==> s.ids[j] >= 0) ==>
      Next(s).1 == if s.minFree < |s.ids| then s.minFree else |s.ids|
  {
  }

  /** While the remembered minimum is sound, the answer is a free id, or one past the end of the index
      when there is none. */
  lemma IdFound(s: IdState)
    requires CursorIn(s.ids, s.last, s.minFree) && SteadyIn(s.ids, s.last, s.minFree)
    ensures var id := Next(s).1;
      && id <= |s.ids| && (id < |s.ids| ==> IsFreeIn(s.ids, id))
      && (id == |s.ids| <==> forall free: nat :: !IsFreeIn(s.ids, free))
  {
    var id := Next(s).1;
    assert id < |s.ids| ==> IsFreeIn(s.ids, id);
    forall free: nat | IsFreeIn(s.ids, free) ensures id < |s.ids| {
      assert s.ids[free] < 0;
    }
  }

  lemma ReleaseKeeps(s: IdState, id: nat)
    requires id < |s.ids| && CursorIn(s.ids, s.last, s.minFree)
    ensures var t := Release(s, id);
      && CursorIn(t.ids, t.last, t.minFree)
      && (SteadyIn(s.ids, s.last, s.minFree) ==> SteadyIn(t.ids, t.last, t.minFree))
  {
  }

  /** Without growth a single spare id is enough. */
  lemma SteadyIsFresh(s: IdState, spare: nat)
    requires CursorIn(s.ids, s.last, s.minFree) && SteadyIn(s.ids, s.last, s.minFree) && IsFreeIn(s.ids, spare)
    ensures FreshIn(s.ids, s.last, s.minFree)
  {
  }

  /** Growing gives a fresh id ahead of the cursor, whatever the remembered minimum says. */
  lemma GrowIsFresh(s: IdState, step: nat)
    requires CursorIn(s.ids, s.last, s.minFree) && step > 0
    ensures var t := Grow(s, step); CursorIn(t.ids, t.last, t.minFree) && FreshIn(t.ids, t.last, t.minFree)
  {
    var t := Grow(s, step);
    assert t.ids[|s.ids|] < 0;
  }

  // ---------------------------------------------------------------- whole histories

  datatype Op = Take(slot: nat) | GiveBack(id: nat) | Enlarge(step: nat)

  /** One operation; a taken id is marked with some slot. What an id outside the index
      overwrites is not modelled. */
  function Step(s: IdState, op: Op): IdState {
    match op
    case Take(slot) =>
      var (t, id) := Next(s);
      if id < |t.ids| then t.(ids := t.ids[id := slot]) else t
    case GiveBack(id) => if id < |s.ids| then Release(s, id) else s
    case Enlarge(step) => Grow(s, step)
  }

  function Start(size: nat): IdState {
    IdState(seq(size, _ => -1), 0, 0)
  }

  /** Histories in which ids are taken only while there is one to spare, and which never grow. */
  ghost predicate FixedSize(s: IdState, ops: seq<Op>)
    decreases |ops|
  {
    ops == [] ||
    (&& !ops[0].Enlarge?
     && (ops[0].Take? ==> exists id :: IsFreeIn(s.ids, id))
     && (ops[0].GiveBack? ==> ops[0].id < |s.ids|)
     && FixedSize(Step(s, ops[0]), ops[1..]))
  }

  /** No history of operations hands out an id that is in use. */
  ghost predicate NeverTwice(s: IdState, ops: seq<Op>)
    decreases |ops|
  {
    ops == [] ||
    (&& (ops[0].Take? ==> IsFreeIn(s.ids, Next(s).1))
     && NeverTwice(Step(s, ops[0]), ops[1..]))
  }

  lemma {:induction false} FixedSizeNeverTwiceFrom(s: IdState, ops: seq<Op>)
    requires CursorIn(s.ids, s.last, s.minFree) && SteadyIn(s.ids, s.last, s.minFree) && FixedSize(s, ops)
    ensures NeverTwice(s, ops)
    decreases |ops|
  {
    if ops != [] {
      match ops[0]
      case Take(slot) =>
        var spare :| IsFreeIn(s.ids, spare);
        SteadyIsFresh(s, spare);
        NextIsFree(s);
        FixedSizeNeverTwiceFrom(Step(s, ops[0]), ops[1..]);
      case GiveBack(id) =>
        ReleaseKeeps(s, id);
        FixedSizeNeverTwiceFrom(Step(s, ops[0]), ops[1..]);
      case Enlarge(_) =>
        assert false;
    }
  }

  /** Main result for a heap that does not grow: an id is never handed out twice. */
  lemma FixedSizeNeverTwice(size: nat, ops: seq<Op>)
    requires size > 0 && FixedSize(Start(size), ops)
    ensures NeverTwice(Start(size), ops)
  {
    FixedSizeNeverTwiceFrom(Start(size), ops);
  }

  /** Histories that may grow, every id being taken under the condition FreshIn. */
  ghost predicate Checked(s: IdState, ops: seq<Op>)
    decreases |ops|
  {
    ops == [] ||
    (&& (ops[0].Take? ==> FreshIn(s.ids, s.last, s.minFree))
     && Checked(Step(s, ops[0]), ops[1..]))
  }

  /** With growth, no id is handed out twice exactly when FreshIn holds at every allocation. */
  lemma {:induction false} CheckedIffNeverTwice(s: IdState, ops: seq<Op>)
    ensures Checked(s, ops) <==> NeverTwice(s, ops)
    decreases |ops|
  {
    if ops != [] {
      if ops[0].Take? {
        NextIsFree(s);
      }
      CheckedIffNeverTwice(Step(s, ops[0]), ops[1..]);
    }
  }

  function Run(s: IdState, ops: seq<Op>): IdState
    decreases |ops|
  {
    if ops == [] then s else Run(Step(s, ops[0]), ops[1..])
  }

  lemma RunOne(s: IdState, op: Op, rest: seq<Op>)
    ensures Run(s, [op] + rest) == Run(Step(s, op), rest)
  {
    assert ([op] + rest)[1..] == rest;
  }

  lemma GrowthSteps()
    ensures Step(Start(1), Take(0)) == IdState([0], 0, 1)
    ensures Step(IdState([0], 0, 1), Enlarge(2)) == IdState([0, -1, -1], 0, 1)
    ensures Step(IdState([0, -1, -1], 0, 1), Take(1)) == IdState([0, 1, -1], 1, 1)
    ensures Step(IdState([0, 1, -1], 1, 1), Take(2)) == IdState([0, 1, 2], 2, 1)
    ensures Step(IdState([0, 1, 2], 2, 1), GiveBack(2)) == IdState([0, 1, -1], 2, 1)
  {
    assert Scan(Start(1).ids, 1) == 1;
    assert Scan([0, -1, -1], 1) == 1 && Scan([0, 1, -1], 2) == 2;
  }

  /** Growth is what breaks it. An index of one id grows by two; after three allocations and
      the return of id 2 the next id handed out is 1, which is in use although 2 is free. */
  lemma GrowthCanRepeatAnId()
    ensures Run(Start(1), [Take(0), Enlarge(2), Take(1), Take(2), GiveBack(2)]) == IdState([0, 1, -1], 2, 1)
    ensures Next(IdState([0, 1, -1], 2, 1)).1 == 1
  {
    GrowthSteps();
    hide Step, Run;
    var rest1, rest2, rest3 := [GiveBack(2)], [Take(2), GiveBack(2)], [Take(1), Take(2), GiveBack(2)];
    assert [Take(0), Enlarge(2), Take(1), Take(2), GiveBack(2)] == [Take(0)] + ([Enlarge(2)] + rest3);
    assert rest3 == [Take(1)] + rest2 && rest2 == [Take(2)] + rest1 && rest1 == [GiveBack(2)] + [];
    RunOne(Start(1), Take(0), [Enlarge(2)] + rest3);
    RunOne(IdState([0], 0, 1), Enlarge(2), rest3);
    RunOne(IdState([0, -1, -1], 0, 1), Take(1), rest2);
    RunOne(IdState([0, 1, -1], 1, 1), Take(2), rest1);
    RunOne(IdState([0, 1, 2], 2, 1), GiveBack(2), []);
    RunNone(IdState([0, 1, -1], 2, 1));
    assert Scan([0, 1, -1], 3) == 3;
  }

  lemma RunNone(s: IdState)
    ensures Run(s, []) == s
  {
  }
}
