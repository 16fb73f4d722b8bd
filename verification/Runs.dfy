/** loader_smooth.c, the values: the runs of the main loop of a batch, when they end, and how long they
    can be. */
module Runs {
  import opened TimerNodes
  import opened ClientSteps
  import opened Dispatching
  import opened Turns

  /** The batch between two events, and its flag that cycling is over. */
  datatype Moment = Moment(snap: Snap, completed: bool)

  /** Nobody transfers or sleeps. */
  predicate AllRest(a: Snap) {
    forall i :: 0 <= i < |a.spots| ==> !a.spots[i].transfers && !a.spots[i].sleeps
  }

  /** Nothing is left to do: where the main loop ends. */
  predicate AtEnd(a: Snap) {
    !a.gradual && AllRest(a)
  }

  /** What happens between a moment and the next. */
  ghost predicate Follows(env: Env, m: Moment, e: Event, m': Moment) {
    && Sized(env, m.snap) && Sized(env, m'.snap) && |m'.snap.spots| == |m.snap.spots|
    && InView(m.snap) && InView(m'.snap)
    && EventTo(env, m.snap, m.completed, m'.snap, m'.completed, e)
  }

  /** The moments of a run so far: each event happens before which the loop has not ended. */
  ghost predicate RunSoFar(env: Env, events: seq<Event>, ms: seq<Moment>) {
    && 0 < |ms| <= |events| + 1 && Sized(env, ms[0].snap) && InView(ms[0].snap)
    && forall i :: 0 <= i < |ms| - 1 ==> !AtEnd(ms[i].snap) && Follows(env, ms[i], events[i], ms[i + 1])
  }

  /** A run of the main loop over some events: it ends at the first moment at which nothing is left to
      do, and otherwise all events happen. */
  ghost predicate RunOf(env: Env, events: seq<Event>, ms: seq<Moment>, ended: bool) {
    && RunSoFar(env, events, ms)
    && (ended <==> AtEnd(ms[|ms| - 1].snap)) && (!ended ==> |ms| == |events| + 1)
  }

  lemma RunStarts(env: Env, events: seq<Event>, m: Moment)
    requires Sized(env, m.snap) && InView(m.snap)
    ensures RunSoFar(env, events, [m])
  {
  }

  lemma RunLonger(env: Env, events: seq<Event>, ms: seq<Moment>, m: Moment)
    requires RunSoFar(env, events, ms) && |ms| <= |events|
    requires !AtEnd(ms[|ms| - 1].snap) && Follows(env, ms[|ms| - 1], events[|ms| - 1], m)
    ensures RunSoFar(env, events, ms + [m])
  {
    hide AtEnd, Follows;
    var longer := ms + [m];
    forall i | 0 <= i < |longer| - 1
      ensures !AtEnd(longer[i].snap) && Follows(env, longer[i], events[i], longer[i + 1])
    {
      assert longer[i] == ms[i] && longer[i + 1] == if i < |ms| - 1 then ms[i + 1] else m;
    }
  }

  lemma RunShorter(env: Env, events: seq<Event>, ms: seq<Moment>)
    requires RunSoFar(env, events, ms) && |ms| > 1
    ensures RunSoFar(env, events, ms[..|ms| - 1])
    ensures Follows(env, ms[|ms| - 2], events[|ms| - 2], ms[|ms| - 1])
  {
    hide AtEnd, Follows;
    assert forall i :: 0 <= i < |ms| - 1 ==> ms[..|ms| - 1][i] == ms[i];
  }

  // ---------------------------------------------------------------- when a run ends

  /** Once a ramp-up has failed it stays so. */
  lemma {:induction false} StuckForGood(env: Env, events: seq<Event>, ms: seq<Moment>, i: nat)
    requires RunSoFar(env, events, ms) && i < |ms| && Stuck(ms[i].snap)
    ensures Stuck(ms[|ms| - 1].snap) && !AtEnd(ms[|ms| - 1].snap)
  {
    hide EventTo, AllRest;
    if i < |ms| - 1 {
      RunShorter(env, events, ms);
      StuckForGood(env, events, ms[..|ms| - 1], i);
      var m, m' := ms[|ms| - 2], ms[|ms| - 1];
      EventLeavesStuck(env, m.snap, m.completed, m'.snap, m'.completed, events[|ms| - 2]);
    }
  }

  /** With all clients at rest and no ramp-up timer the loop ends, at once, if and only if no ramp-up
      has failed. */
  lemma RestEndsExactly(env: Env, events: seq<Event>, ms: seq<Moment>, ended: bool)
    requires RunOf(env, events, ms, ended) && AllRest(ms[0].snap) && ms[0].snap.view[|ms[0].snap.spots| + 2].Off?
    ensures ended <==> !Stuck(ms[0].snap)
    ensures ended ==> |ms| == 1
  {
    hide Follows;
    if Stuck(ms[0].snap) {
      StuckForGood(env, events, ms, 0);
    } else {
      assert AtEnd(ms[0].snap);
    }
  }

  // ---------------------------------------------------------------- how long a run can be

  function Sum(spots: seq<Spot>, w: Spot -> nat): nat {
    if spots == [] then 0 else Sum(spots[..|spots| - 1], w) + w(spots[|spots| - 1])
  }

  /** How many clients something is true of, before and after an event. */
  function Count(a: seq<Spot>, b: seq<Spot>, t: (Spot, Spot) -> bool): nat
    requires |a| == |b|
  {
    if a == [] then 0
    else Count(a[..|a| - 1], b[..|b| - 1], t) + if t(a[|a| - 1], b[|b| - 1]) then 1 else 0
  }

  lemma {:induction false} SumGrows(a: seq<Spot>, b: seq<Spot>, w: Spot -> nat, t: (Spot, Spot) -> bool)
    requires |a| == |b| && forall i :: 0 <= i < |a| ==> w(b[i]) >= w(a[i]) + if t(a[i], b[i]) then 1 else 0
    ensures Sum(b, w) >= Sum(a, w) + Count(a, b, t)
  {
    if a != [] {
      SumGrows(a[..|a| - 1], b[..|b| - 1], w, t);
    }
  }

  lemma {:induction false} SumBounded(a: seq<Spot>, w: Spot -> nat, m: nat)
    requires forall i :: 0 <= i < |a| ==> w(a[i]) <= m
    ensures Sum(a, w) <= |a| * m
  {
    if a != [] {
      SumBounded(a[..|a| - 1], w, m);
      assert |a| * m == (|a| - 1) * m + m;
    }
  }

  /** A client has made a load step: after a start, a timeout or the end of a transfer. */
  function Steps(): (Spot, Spot) -> bool {
    (s: Spot, t: Spot) => t.made != s.made
  }

  /** A client has made a load step or has woken up. */
  function Moves(): (Spot, Spot) -> bool {
    (s: Spot, t: Spot) => t.made != s.made || t.sleeps != s.sleeps
  }

  function Made(): Spot -> nat {
    (s: Spot) => s.made
  }

  /** Grows with every move: a client that falls asleep makes a step. */
  function MadeAndWoken(): Spot -> nat {
    (s: Spot) => 2 * s.made + if s.sleeps then 0 else 1
  }

  /** A spot after an event: as before, or one move further. */
  ghost predicate AtMostOneMove(s: Spot, t: Spot) {
    || (t.made == s.made && (t.sleeps == s.sleeps || !t.sleeps))
    || t.made == s.made + 1
  }

  lemma TurnIsMove(env: Env, handler: Handler, s: Spot, t: Spot, i: nat, input: Input)
    requires ClientTurn(env, handler, s, t, i, input)
    ensures AtMostOneMove(s, t) && (handler != Sleeping ==> t.made == s.made + 1)
    ensures handler == Sleeping && s.sleeps ==> Moves()(s, t)
  {
  }

  lemma StartIsMove(env: Env, s: Spot, t: Spot, tick: nat, choice: Choice)
    requires StartTo(env, s, t, tick, choice)
    ensures AtMostOneMove(s, t) && t.made == s.made + 1
  {
  }

  /** An event moves a client at most once. */
  lemma MovesOnce(env: Env, m: Moment, e: Event, m': Moment, i: nat)
    requires Follows(env, m, e, m') && i < |m.snap.spots|
    ensures AtMostOneMove(m.snap.spots[i], m'.snap.spots[i])
  {
    hide ClientTurn, StartTo, LoadEnd, Dispatched, After, Seated;
    var a, b := m.snap, m'.snap;
    match e
    case Dispatch(now, inputs) =>
      var fired, r :| Dispatched(a.view, b.view, fired, Failing(env, a, now, inputs), now, r)
        && TurnsTo(env, a, b, fired, now, inputs);
      assert ClientAfter(env, a, b, fired, inputs, i);
      var ramp := |a.spots| + 2;
      if i in fired {
        TurnIsMove(env, HandlerOf(a.view, i), a.spots[i], b.spots[i], i, inputs(i));
      } else if ramp in fired && a.sched <= i < LoadEnd(env, a, inputs(ramp).tick, inputs(ramp).choices) {
        StartIsMove(env, a.spots[i], b.spots[i], inputs(ramp).tick, inputs(ramp).choices(i));
      }
    case Done(k, failed, now, choice) =>
    case Failed(k) =>
  }

  /** Every client whose timer fires moves, and makes a load step unless the timer ends its sleep. */
  lemma FiredMove(env: Env, a: Snap, b: Snap, fired: seq<nat>, now: nat, inputs: nat -> Input, i: nat)
    requires Sized(env, a) && TurnsTo(env, a, b, fired, now, inputs) && i in fired && i < |a.spots|
    requires HandlerOf(a.view, i) == Sleeping ==> a.spots[i].sleeps
    ensures Moves()(a.spots[i], b.spots[i])
    ensures HandlerOf(a.view, i) != Sleeping ==> Steps()(a.spots[i], b.spots[i])
  {
    hide ClientTurn;
    assert ClientAfter(env, a, b, fired, inputs, i);
    TurnIsMove(env, HandlerOf(a.view, i), a.spots[i], b.spots[i], i, inputs(i));
  }

  /** A client whose transfer ends makes a load step. */
  lemma DoneSteps(env: Env, m: Moment, e: Event, m': Moment)
    requires Follows(env, m, e, m') && e.Done? && Transfers(m.snap, e.client)
    ensures Steps()(m.snap.spots[e.client], m'.snap.spots[e.client])
  {
    hide After, Seated;
  }

  /** What something is true of over a whole run, client by client and event by event. */
  function Total(ms: seq<Moment>, t: (Spot, Spot) -> bool): nat
    requires forall i :: 0 <= i < |ms| ==> |ms[i].snap.spots| == |ms[0].snap.spots|
  {
    if |ms| <= 1 then 0
    else Total(ms[..|ms| - 1], t) + Count(ms[|ms| - 2].snap.spots, ms[|ms| - 1].snap.spots, t)
  }

  lemma {:induction false} SameClients(env: Env, events: seq<Event>, ms: seq<Moment>)
    requires RunSoFar(env, events, ms)
    ensures forall i :: 0 <= i < |ms| ==> |ms[i].snap.spots| == |ms[0].snap.spots|
  {
    hide EventTo, AtEnd;
    if |ms| > 1 {
      RunShorter(env, events, ms);
      SameClients(env, events, ms[..|ms| - 1]);
      assert forall i :: 0 <= i < |ms| - 1 ==> ms[..|ms| - 1][i] == ms[i];
    }
  }

  /** What every event adds to, a run adds up. */
  lemma {:induction false} RunAddsUp(env: Env, events: seq<Event>, ms: seq<Moment>, w: Spot -> nat,
                                     t: (Spot, Spot) -> bool)
    requires RunSoFar(env, events, ms) && forall i :: 0 <= i < |ms| ==> |ms[i].snap.spots| == |ms[0].snap.spots|
    requires forall u, v :: AtMostOneMove(u, v) ==> w(v) >= w(u) + if t(u, v) then 1 else 0
    ensures Sum(ms[|ms| - 1].snap.spots, w) >= Sum(ms[0].snap.spots, w) + Total(ms, t)
  {
    hide Follows, AtEnd, AtMostOneMove;
    if |ms| > 1 {
      RunShorter(env, events, ms);
      var m, m' := ms[|ms| - 2], ms[|ms| - 1];
      RunAddsUp(env, events, ms[..|ms| - 1], w, t);
      forall i | 0 <= i < |m.snap.spots| ensures AtMostOneMove(m.snap.spots[i], m'.snap.spots[i]) {
        MovesOnce(env, m, events[|ms| - 2], m', i);
      }
      SumGrows(m.snap.spots, m'.snap.spots, w, t);
    }
  }

  predicate NoMore(spots: seq<Spot>, most: nat) {
    forall i :: 0 <= i < |spots| ==> spots[i].made <= most
  }

  /** When no client ever makes more than `most` load steps, no run has more load steps than clients
      times that, and no more moves than twice as many and one more for each client. */
  lemma RunBounded(env: Env, events: seq<Event>, ms: seq<Moment>, most: nat)
    requires RunSoFar(env, events, ms) && forall i :: 0 <= i < |ms| ==> |ms[i].snap.spots| == |ms[0].snap.spots|
    requires NoMore(ms[|ms| - 1].snap.spots, most)
    ensures Total(ms, Steps()) <= |ms[0].snap.spots| * most
    ensures Total(ms, Moves()) <= |ms[0].snap.spots| * (2 * most + 1)
  {
    hide Follows, AtEnd, Total, Sum;
    RunAddsUp(env, events, ms, Made(), Steps());
    RunAddsUp(env, events, ms, MadeAndWoken(), Moves());
    SumBounded(ms[|ms| - 1].snap.spots, Made(), most);
    SumBounded(ms[|ms| - 1].snap.spots, MadeAndWoken(), 2 * most + 1);
  }

  lemma {:induction false} EveryEventCounts(env: Env, events: seq<Event>, ms: seq<Moment>, t: (Spot, Spot) -> bool)
    requires RunSoFar(env, events, ms) && forall i :: 0 <= i < |ms| ==> |ms[i].snap.spots| == |ms[0].snap.spots|
    requires forall i :: 0 <= i < |ms| - 1 ==> Count(ms[i].snap.spots, ms[i + 1].snap.spots, t) > 0
    ensures Total(ms, t) >= |ms| - 1
  {
    hide Follows, AtEnd, Count;
    if |ms| > 1 {
      RunShorter(env, events, ms);
      var front := ms[..|ms| - 1];
      forall i | 0 <= i < |front| - 1 ensures Count(front[i].snap.spots, front[i + 1].snap.spots, t) > 0 {
        assert front[i] == ms[i] && front[i + 1] == ms[i + 1];
      }
      EveryEventCounts(env, events, front, t);
      assert Count(ms[|ms| - 2].snap.spots, ms[|ms| - 2 + 1].snap.spots, t) > 0;
    }
  }

  /** A run that has enough events, each of which moves some client, comes to its end. */
  lemma BusyRunEnds(env: Env, events: seq<Event>, ms: seq<Moment>, ended: bool, most: nat)
    requires RunOf(env, events, ms, ended) && NoMore(ms[|ms| - 1].snap.spots, most)
    requires forall i :: 0 <= i < |ms| ==> |ms[i].snap.spots| == |ms[0].snap.spots|
    requires forall i :: 0 <= i < |ms| - 1 ==> Count(ms[i].snap.spots, ms[i + 1].snap.spots, Moves()) > 0
    requires |events| > |ms[0].snap.spots| * (2 * most + 1)
    ensures ended
  {
    hide RunSoFar, Count, AtEnd, Total;
    EveryEventCounts(env, events, ms, Moves());
    RunBounded(env, events, ms, most);
  }
}
