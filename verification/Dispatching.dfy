/** dispatch_expired_timers, the values: which timers are due and in what order they fire. */
module Dispatching {
  import opened BatchTimer

  ghost function Members(s: seq<nat>): set<nat> {
    set j | j in s
  }

  /** The timers that are due. */
  ghost function Due(v: seq<Timer>, now: nat): set<nat> {
    set j | 0 <= j < |v| && v[j].Armed? && v[j].next <= now
  }

  /** A due timer before which no other is due. */
  ghost predicate NextDue(v: seq<Timer>, i: nat, now: nat) {
    i in Due(v, now) && forall j :: j in Due(v, now) ==> v[i].next <= v[j].next
  }

  /** Due timers, each once, by non-decreasing time. */
  ghost predicate InOrder(v: seq<Timer>, fired: seq<nat>, now: nat) {
    && (forall x :: 0 <= x < |fired| ==> fired[x] in Due(v, now))
    && (forall x, y :: 0 <= x < y < |fired| ==> fired[x] != fired[y] && v[fired[x]].next <= v[fired[y]].next)
  }

  /** Nothing queued was touched, and what was added is due after `now`. */
  ghost predicate LaterOnly(v: seq<Timer>, w: seq<Timer>, now: nat) {
    && |w| == |v|
    && (forall j :: 0 <= j < |w| && !v[j].Off? ==> w[j] == v[j])
    && (forall j :: 0 <= j < |w| && v[j].Off? && !w[j].Off? ==> w[j].Armed? && w[j].next > now)
  }

  /** A timer's whole dispatch: it is gone or armed for later, and so is what was added. */
  ghost predicate Fired(v: seq<Timer>, w: seq<Timer>, i: nat, now: nat) {
    && |w| == |v| && i < |v| && v[i].Armed? && (w[i].Armed? ==> w[i].next > now)
    && (forall j :: 0 <= j < |w| && j != i && !v[j].Off? ==> w[j] == v[j])
    && (forall j :: 0 <= j < |w| && j != i && v[j].Off? && w[j].Armed? ==> w[j].next > now)
  }

  /** A dispatch in progress. */
  ghost predicate FiredSoFar(v0: seq<Timer>, v: seq<Timer>, fired: seq<nat>, now: nat) {
    && |v| == |v0| && InOrder(v0, fired, now)
    && Due(v, now) == Due(v0, now) - Members(fired)
    && (forall j :: j in Due(v, now) ==>
         v[j] == v0[j] && forall x :: 0 <= x < |fired| ==> v0[fired[x]].next <= v0[j].next)
  }

  lemma NothingFired(v: seq<Timer>, now: nat)
    ensures FiredSoFar(v, v, [], now) && Members([]) == {}
  {
  }

  lemma FiredView(v0: seq<Timer>, v1: seq<Timer>, v2: seq<Timer>, v3: seq<Timer>, i: nat, now: nat, rval: int)
    requires i < |v0| && v0[i].Armed? && v1 == v0[i := Popped(v0[i])] && LaterOnly(v1, v2, now)
    requires v3 == v2[i := Finished(v2[i], now, rval)]
    ensures Fired(v0, v3, i, now) && |v3| == |v0|
  {
  }

  lemma DueAfter(v: seq<Timer>, w: seq<Timer>, i: nat, now: nat)
    requires Fired(v, w, i, now) && i in Due(v, now)
    ensures |w| == |v| && Due(w, now) == Due(v, now) - {i}
    ensures forall j :: j in Due(w, now) ==> j < |v| && w[j] == v[j]
  {
  }

  lemma InOrderMore(v: seq<Timer>, fired: seq<nat>, i: nat, now: nat)
    requires InOrder(v, fired, now) && i in Due(v, now) && i !in fired
    requires forall x :: 0 <= x < |fired| ==> v[fired[x]].next <= v[i].next
    ensures InOrder(v, fired + [i], now)
  {
  }

  lemma FireOne(v0: seq<Timer>, v: seq<Timer>, w: seq<Timer>, fired: seq<nat>, i: nat, now: nat)
    requires FiredSoFar(v0, v, fired, now) && Fired(v, w, i, now) && NextDue(v, i, now)
    ensures FiredSoFar(v0, w, fired + [i], now) && |Due(w, now)| < |Due(v, now)|
  {
    hide Fired, InOrder, Due;
    DueAfter(v, w, i, now);
    InOrderMore(v0, fired, i, now);
    assert Members(fired + [i]) == Members(fired) + {i};
  }

  // ---------------------------------------------------------------- how a dispatch ends

  /** The end of a dispatch from view v to w, when the handlers of the timers in `failing` answer -1
      and no others: due timers fire in order until one fails or none is left. */
  ghost predicate Dispatched(v: seq<Timer>, w: seq<Timer>, fired: seq<nat>, failing: set<nat>, now: nat, r: int) {
    && InOrder(v, fired, now) && Due(w, now) == Due(v, now) - Members(fired)
    && (forall j, x :: j in Due(w, now) && 0 <= x < |fired| ==> v[fired[x]].next <= v[j].next)
    && (forall x :: 0 <= x < |fired| - 1 ==> fired[x] !in failing)
    && (r == -1 <==> fired != [] && fired[|fired| - 1] in failing)
    && (r != -1 ==> r == |fired| && Due(w, now) == {})
  }

  lemma FiredOneMore(fired: seq<nat>, i: nat)
    ensures Members(fired + [i]) == Members(fired) + {i} && Members([]) == {}
  {
  }

  lemma Concluded(v: seq<Timer>, w: seq<Timer>, fired: seq<nat>, failing: set<nat>, now: nat, r: int)
    requires FiredSoFar(v, w, fired, now)
    requires if r == -1 then fired != [] && fired[|fired| - 1] in failing && failing !! Members(fired[..|fired| - 1])
             else r == |fired| && Due(w, now) == {} && failing !! Members(fired)
    ensures Dispatched(v, w, fired, failing, now, r)
  {
  }

  lemma MembersOf(s: seq<nat>)
    ensures forall j :: j in Members(s) <==> exists x :: 0 <= x < |s| && s[x] == j
  {
  }

  lemma FiredWereDue(v: seq<Timer>, fired: seq<nat>, now: nat)
    requires InOrder(v, fired, now)
    ensures Members(fired) <= Due(v, now)
    ensures fired != [] ==> fired[|fired| - 1] in Due(v, now)
  {
    MembersOf(fired);
  }

  lemma NothingMissing(a: set<nat>, b: set<nat>)
    ensures a - b == {} <==> a <= b
  {
    if a - b == {} {
      forall j | j in a ensures j in b {
        assert j in a - b || j in b;
      }
    }
  }

  /** When no handler fails, every due timer fires and none is left. */
  lemma NoneFailsNoneLeft(v: seq<Timer>, w: seq<Timer>, fired: seq<nat>, failing: set<nat>, now: nat, r: int)
    requires Dispatched(v, w, fired, failing, now, r) && failing !! Due(v, now)
    ensures r == |fired| && Due(w, now) == {} && Members(fired) == Due(v, now)
  {
    hide Due;
    FiredWereDue(v, fired, now);
    NothingMissing(Due(v, now), Members(fired));
  }

  lemma LeftAreLater(v: seq<Timer>, w: seq<Timer>, fired: seq<nat>, failing: set<nat>, now: nat, r: int)
    requires Dispatched(v, w, fired, failing, now, r) && fired != []
    ensures var f := fired[|fired| - 1];
      forall j :: j in Due(w, now) ==> j in Due(v, now) && j != f && v[f].next <= v[j].next
  {
    var x := |fired| - 1;
    assert fired[x] in Members(fired);
    assert forall j :: j in Due(w, now) ==> v[fired[x]].next <= v[j].next;
  }

  lemma NoneAfterLast(v: seq<Timer>, w: seq<Timer>, fired: seq<nat>, failing: set<nat>, now: nat, r: int, f: nat)
    requires Dispatched(v, w, fired, failing, now, r) && fired != [] && f == fired[|fired| - 1]
    requires forall j :: j in Due(v, now) && j != f ==> v[j].next < v[f].next
    ensures Due(w, now) == {}
  {
    FiredWereDue(v, fired, now);
    LeftAreLater(v, w, fired, failing, now, r);
  }

  lemma FailingIsLast(v: seq<Timer>, w: seq<Timer>, fired: seq<nat>, failing: set<nat>, now: nat, r: int, f: nat,
                      j: nat)
    requires Dispatched(v, w, fired, failing, now, r) && Due(w, now) == {}
    requires f in failing * Due(v, now) && j in Due(v, now) && j != f
    ensures f < |v| && j < |v| && v[f].Armed? && v[j].Armed? && v[j].next <= v[f].next
  {
    MembersOf(fired);
    NothingMissing(Due(v, now), Members(fired));
    assert f in Due(v, now) && j in Due(v, now);
    var x :| 0 <= x < |fired| && fired[x] == f;
    var y :| 0 <= y < |fired| && fired[y] == j;
  }

  /** None is left if and only if no failing timer fires with others left behind it. Seen before the
      dispatch: none is left if every failing timer is due strictly after all others, and only if
      it is due no earlier than any. Timers due at the same time fire in the order of the heap. */
  lemma NoneLeftExactly(v: seq<Timer>, w: seq<Timer>, fired: seq<nat>, failing: set<nat>, now: nat, r: int)
    requires Dispatched(v, w, fired, failing, now, r)
    ensures Due(w, now) == {} <==> r != -1 || Members(fired) == Due(v, now)
    ensures (forall f, j :: f in failing * Due(v, now) && j in Due(v, now) && j != f ==> v[j].next < v[f].next)
      ==> Due(w, now) == {}
    ensures Due(w, now) == {} ==>
      forall f, j :: f in failing * Due(v, now) && j in Due(v, now) && j != f ==> v[j].next <= v[f].next
  {
    FiredWereDue(v, fired, now);
    NothingMissing(Due(v, now), Members(fired));
    if r == -1 {
      var f := fired[|fired| - 1];
      assert f in failing * Due(v, now);
      if forall g, j :: g in failing * Due(v, now) && j in Due(v, now) && j != g ==> v[j].next < v[g].next {
        NoneAfterLast(v, w, fired, failing, now, r, f);
      }
    }
    if Due(w, now) == {} {
      forall f, j | f in failing * Due(v, now) && j in Due(v, now) && j != f ensures v[j].next <= v[f].next {
        FailingIsLast(v, w, fired, failing, now, r, f, j);
      }
    }
  }

  /** Whether timer i fires, seen before the dispatch: it does if it is due and every failing timer is due
      strictly later, and only if it is due no later than any. */
  lemma FiresExactly(v: seq<Timer>, w: seq<Timer>, fired: seq<nat>, failing: set<nat>, now: nat, r: int, i: nat)
    requires Dispatched(v, w, fired, failing, now, r)
    ensures i in Due(v, now) && (forall f :: f in failing * Due(v, now) && f != i ==> v[i].next < v[f].next)
      ==> i in fired
    ensures i in fired ==>
      i in Due(v, now) && forall f :: f in failing * Due(v, now) && f != i ==> v[i].next <= v[f].next
  {
    FiredWereDue(v, fired, now);
    MembersOf(fired);
    if i in Due(v, now) && i !in fired {
      LeftIsLater(v, w, fired, failing, now, r, i);
    }
    if i in fired {
      forall f | f in failing * Due(v, now) && f != i ensures v[i].next <= v[f].next {
        FiredIsEarlier(v, w, fired, failing, now, r, i, f);
      }
    }
  }

  /** A due timer that does not fire is left behind one that fails. */
  lemma LeftIsLater(v: seq<Timer>, w: seq<Timer>, fired: seq<nat>, failing: set<nat>, now: nat, r: int, i: nat)
    requires Dispatched(v, w, fired, failing, now, r) && i in Due(v, now) && i !in fired
    ensures exists f :: f in failing * Due(v, now) && f != i && v[f].next <= v[i].next
  {
    MembersOf(fired);
    FiredWereDue(v, fired, now);
    assert i in Due(v, now) - Members(fired);
    assert i in Due(w, now);
    LeftAreLater(v, w, fired, failing, now, r);
    var f := fired[|fired| - 1];
    assert f in failing * Due(v, now);
  }

  lemma FiredIsEarlier(v: seq<Timer>, w: seq<Timer>, fired: seq<nat>, failing: set<nat>, now: nat, r: int, i: nat,
                       f: nat)
    requires Dispatched(v, w, fired, failing, now, r) && i in fired && f in failing * Due(v, now) && f != i
    ensures i in Due(v, now) && v[i].next <= v[f].next
  {
    MembersOf(fired);
    var x :| 0 <= x < |fired| && fired[x] == i;
    if f in fired {
      var y :| 0 <= y < |fired| && fired[y] == f;
      assert y == |fired| - 1;
    } else {
      assert f in Due(v, now) - Members(fired);
      assert f in Due(w, now);
    }
  }

  /** When all handlers fail, one timer fires and every other due timer is left. */
  lemma AllFailOneFires(v: seq<Timer>, w: seq<Timer>, fired: seq<nat>, failing: set<nat>, now: nat, r: int)
    requires Dispatched(v, w, fired, failing, now, r) && Due(v, now) <= failing && Due(v, now) != {}
    ensures r == -1 && |fired| == 1 && Due(w, now) == Due(v, now) - {fired[0]}
  {
    hide Due;
    FiredWereDue(v, fired, now);
    assert fired != [] ==> fired[0] in failing;
    assert fired == [] ==> Members(fired) == {};
    assert |fired| == 1 ==> Members(fired) == {fired[0]};
  }
}
