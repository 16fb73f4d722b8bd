/** loader_fsm.c, the values: what the timer handlers do to the clients of a batch, one handler at a
    time and over a whole dispatch. */
module Turns {
  import opened TimerNodes
  import opened BatchTimer
  import opened Cycling
  import opened ClientSteps
  import opened Dispatching

  /** What stays the same while a batch runs. */
  datatype Env = Env(cfg: Config, recovery: bool, runTime: nat, startTime: nat, clientNumStart: nat, rampupInc: nat)

  /** What the handlers change: the timers, the clients' spots, how many clients have been started,
      and whether more are to be. The timers of the clients come first, then the periodic ones. */
  datatype Snap = Snap(view: seq<Timer>, spots: seq<Spot>, sched: nat, gradual: bool)

  /** The timers of the spots are those of the view. */
  ghost predicate InView(a: Snap) {
    |a.spots| <= |a.view| && forall i :: 0 <= i < |a.spots| ==> a.spots[i].timer == a.view[i]
  }

  /** The time the batch may run is over. */
  predicate Up(env: Env, tick: nat) {
    env.runTime != 0 && tick >= env.startTime + env.runTime
  }

  // ---------------------------------------------------------------- single clients

  /** What a first step answers. */
  function StartAnswer(env: Env, tick: nat, choice: Choice): CState {
    if Up(env, tick) then FinishedOk else if choice.setupOk then Urls else Error
  }

  /** A new client makes its first step. The flag that cycling is over plays no part. */
  ghost predicate StartTo(env: Env, s: Spot, t: Spot, tick: nat, choice: Choice) {
    && IsNew(s)
    && StepTo(env.cfg, env.recovery, Up(env, tick), s, true, t, true, tick, choice, StartAnswer(env, tick, choice))
  }

  /** What a step after a timeout answers. */
  function TimeoutAnswer(env: Env, cycleNum: nat, tick: nat, choice: Choice): CState {
    if Up(env, tick) then FinishedOk
    else if env.recovery && cycleNum + 1 < env.cfg.cyclesNum && choice.setupOk then Urls else Error
  }

  /** A client whose url takes too long fails and makes its next step. */
  ghost predicate TimeoutTo(env: Env, s: Spot, t: Spot, tick: nat, choice: Choice) {
    StepTo(env.cfg, env.recovery, Up(env, tick), FailedSpot(s), true, t, true, tick, choice,
           TimeoutAnswer(env, s.client.cycleNum, tick, choice))
  }

  /** What the handler of a client's own timer does to it. */
  ghost predicate ClientTurn(env: Env, handler: Handler, s: Spot, t: Spot, i: nat, input: Input) {
    if handler == Sleeping then WokeTo(s, t, input.tick, input.choices(i))
    else TimeoutTo(env, s, t, input.tick, input.choices(i))
  }

  /** Steps from CSTATE_INIT and CSTATE_ERROR do not depend on the flag, nor change it. */
  lemma FlagPlaysNoPart(cfg: Config, recovery: bool, up: bool, s: Spot, c: bool, t: Spot, d: bool, now: nat,
                        choice: Choice, r: CState)
    requires s.client.clientState == Init || s.client.clientState == Error
    requires StepTo(cfg, recovery, up, s, c, t, d, now, choice, r)
    ensures d == c && StepTo(cfg, recovery, up, s, true, t, true, now, choice, r)
  {
  }

  // ---------------------------------------------------------------- starting clients

  /** How many of n clients are in the load after the next start or ramp-up step. */
  function NextNum(env: Env, from: nat, n: nat): (next: nat)
    ensures from < n && env.clientNumStart <= n ==> from <= next <= n
  {
    if from == 0 && env.clientNumStart != 0 then env.clientNumStart
    else if env.rampupInc == 0 || from + env.rampupInc >= n then n
    else from + env.rampupInc
  }

  /** Where a range of starts stops: at the first whose setup fails before the time is up. */
  function StopAt(env: Env, tick: nat, choices: nat -> Choice, from: nat, end: nat): (f: nat)
    requires from <= end
    ensures from <= f <= end
    ensures f < end <==> !Up(env, tick) && exists j: nat :: from <= j < end && !choices(j).setupOk
  {
    if Up(env, tick) then end else FirstBad(choices, from, end)
  }

  /** The clients that make a step: up to and including the one that fails. */
  function StartedEnd(env: Env, tick: nat, choices: nat -> Choice, from: nat, end: nat): (e: nat)
    requires from <= end
    ensures from <= e <= end
  {
    var stop := StopAt(env, tick, choices, from, end);
    if stop < end then stop + 1 else end
  }

  /** Exactly the clients in a range have made their first step. */
  ghost predicate RangeStarted(env: Env, a: seq<Spot>, b: seq<Spot>, from: nat, end: nat, tick: nat,
                               choices: nat -> Choice) {
    && |b| == |a|
    && forall j :: 0 <= j < |b| ==> if from <= j < end then StartTo(env, a[j], b[j], tick, choices(j)) else b[j] == a[j]
  }

  lemma OneMoreStarted(env: Env, a: seq<Spot>, b: seq<Spot>, c: seq<Spot>, from: nat, j: nat, tick: nat,
                       choices: nat -> Choice)
    requires RangeStarted(env, a, b, from, j, tick, choices) && from <= j < |b|
    requires |c| == |b| && (forall i :: 0 <= i < |b| && i != j ==> c[i] == b[i])
    requires StartTo(env, b[j], c[j], tick, choices(j))
    ensures RangeStarted(env, a, c, from, j + 1, tick, choices)
  {
    hide StartTo;
  }

  /** Whether add_loading_clients answers -1: nobody is left to start, or a start fails. */
  ghost predicate LoadFails(env: Env, a: Snap, tick: nat, choices: nat -> Choice)
    requires a.sched <= |a.spots| && env.clientNumStart <= |a.spots|
  {
    var n := |a.spots|;
    a.sched == n || StopAt(env, tick, choices, a.sched, NextNum(env, a.sched, n)) < NextNum(env, a.sched, n)
  }

  /** The clients that add_loading_clients starts. */
  ghost function LoadEnd(env: Env, a: Snap, tick: nat, choices: nat -> Choice): (e: nat)
    requires a.sched <= |a.spots| && env.clientNumStart <= |a.spots|
    ensures a.sched <= e <= |a.spots|
  {
    var n := |a.spots|;
    if a.sched == n then n else StartedEnd(env, tick, choices, a.sched, NextNum(env, a.sched, n))
  }

  predicate Sized(env: Env, a: Snap) {
    a.sched <= |a.spots| && env.clientNumStart <= |a.spots| && |a.view| == |a.spots| + 3
  }

  ghost function SchedAfter(env: Env, a: Snap, tick: nat, choices: nat -> Choice): nat
    requires Sized(env, a)
  {
    if LoadFails(env, a, tick, choices) then a.sched else NextNum(env, a.sched, |a.spots|)
  }

  /** The flag that more clients are to be started: a failed start leaves it as it is. */
  ghost function GradualAfter(env: Env, a: Snap, tick: nat, choices: nat -> Choice): bool
    requires Sized(env, a)
  {
    if a.sched == |a.spots| then false
    else if LoadFails(env, a, tick, choices) then a.gradual
    else a.gradual || (env.rampupInc > 0 && NextNum(env, a.sched, |a.spots|) < |a.spots|)
  }

  /** add_loading_clients: which clients are started, the counter and the flag. */
  ghost predicate AddedTo(env: Env, a: Snap, b: Snap, tick: nat, choices: nat -> Choice, r: int)
    requires Sized(env, a)
  {
    var n := |a.spots|;
    && r == (if LoadFails(env, a, tick, choices) then -1 else 0)
    && RangeStarted(env, a.spots, b.spots, a.sched, LoadEnd(env, a, tick, choices), tick, choices)
    && b.sched == SchedAfter(env, a, tick, choices) && b.gradual == GradualAfter(env, a, tick, choices)
  }

  lemma StartsAdded(env: Env, a: Snap, b: Snap, tick: nat, choices: nat -> Choice, r: int)
    requires Sized(env, a) && a.sched < |a.spots|
    requires var next := NextNum(env, a.sched, |a.spots|);
      && r == (if StopAt(env, tick, choices, a.sched, next) < next then -1 else 0)
      && RangeStarted(env, a.spots, b.spots, a.sched, StartedEnd(env, tick, choices, a.sched, next), tick, choices)
      && b.sched == (if r == 0 then next else a.sched)
      && b.gradual == (a.gradual || (r == 0 && env.rampupInc > 0 && next < |a.spots|))
    ensures AddedTo(env, a, b, tick, choices, r)
  {
    hide RangeStarted, StopAt, StartedEnd, NextNum;
  }

  // ---------------------------------------------------------------- one handler

  /** Whether the handler of timer i answers -1: a client that times out cannot go on, a logfile
      cannot be rewound, or clients cannot be started. */
  ghost predicate FailsIn(env: Env, a: Snap, handler: Handler, i: nat, input: Input)
    requires Sized(env, a)
  {
    var n := |a.spots|;
    if i < n then
      handler != Sleeping && TimeoutAnswer(env, a.spots[i].client.cycleNum, input.tick, input.choices(i)) == Error
    else if i == n then !input.logfileOk
    else i == n + 2 && LoadFails(env, a, input.tick, input.choices)
  }

  /** The handler of timer i: its own client's turn, or the start of some, or nothing. */
  ghost predicate TurnTo(env: Env, a: Snap, b: Snap, handler: Handler, i: nat, input: Input, r: int)
    requires Sized(env, a)
  {
    var n := |a.spots|;
    && |b.spots| == n && (r == -1 <==> FailsIn(env, a, handler, i, input)) && (i >= n ==> r == 0 || r == -1)
    && (forall j :: n <= j < n + 3 && j != i && j < |b.view| ==> b.view[j] == a.view[j])
    && (if i == n + 2 then AddedTo(env, a, b, input.tick, input.choices, r)
        else
          && b.sched == a.sched && b.gradual == a.gradual
          && (forall j :: 0 <= j < n && j != i ==> b.spots[j] == a.spots[j])
          && (i < n ==> ClientTurn(env, handler, a.spots[i], b.spots[i], i, input)))
  }

  lemma SameLoad(env: Env, a: Snap, b: Snap, tick: nat, choices: nat -> Choice)
    requires Sized(env, a) && Sized(env, b) && b.sched == a.sched && b.gradual == a.gradual && |b.spots| == |a.spots|
    ensures LoadFails(env, b, tick, choices) == LoadFails(env, a, tick, choices)
    ensures LoadEnd(env, b, tick, choices) == LoadEnd(env, a, tick, choices)
    ensures SchedAfter(env, b, tick, choices) == SchedAfter(env, a, tick, choices)
    ensures GradualAfter(env, b, tick, choices) == GradualAfter(env, a, tick, choices)
  {
  }

  /** The turn of timer i, from before it is popped to after it is finished with. */
  lemma WholeTurn(env: Env, a: Snap, popped: Snap, b: Snap, c: Snap, handler: Handler, i: nat, input: Input, r: int)
    requires Sized(env, a) && Sized(env, popped) && i < |a.view| && popped.sched == a.sched
    requires popped.gradual == a.gradual
    requires |popped.spots| == |a.spots| && forall j :: 0 <= j < |a.spots| && j != i ==> popped.spots[j] == a.spots[j]
    requires i < |a.spots| ==> popped.spots[i] == a.spots[i].(timer := popped.spots[i].timer)
    requires |popped.view| == |a.view| && forall j :: 0 <= j < |a.view| && j != i ==> popped.view[j] == a.view[j]
    requires TurnTo(env, popped, b, handler, i, input, r)
    requires c.spots == b.spots && c.sched == b.sched && c.gradual == b.gradual
    requires |c.view| == |b.view| && forall j :: 0 <= j < |b.view| && j != i ==> c.view[j] == b.view[j]
    ensures TurnTo(env, a, c, handler, i, input, r)
  {
    hide LoadFails, RangeStarted, SchedAfter, GradualAfter, LoadEnd, After, Seated, TimeoutAnswer;
    if i == |a.spots| + 2 {
      assert popped.spots == a.spots;
      SameLoad(env, a, popped, input.tick, input.choices);
    }
  }

  // ---------------------------------------------------------------- a whole dispatch

  function HandlerOf(v: seq<Timer>, i: nat): Handler {
    if i < |v| && v[i].Armed? then v[i].handler else NoHandler
  }

  /** The timers whose handlers answer -1 when they fire. */
  ghost function Failing(env: Env, a: Snap, now: nat, inputs: nat -> Input): set<nat>
    requires Sized(env, a)
  {
    set i | i in Due(a.view, now) && FailsIn(env, a, HandlerOf(a.view, i), i, inputs(i))
  }

  /** What client i has become once the timers in `fired` have. */
  ghost predicate ClientAfter(env: Env, a: Snap, b: Snap, fired: seq<nat>, inputs: nat -> Input, i: nat)
    requires Sized(env, a) && i < |a.spots| == |b.spots|
  {
    var ramp := |a.spots| + 2;
    if i in fired then ClientTurn(env, HandlerOf(a.view, i), a.spots[i], b.spots[i], i, inputs(i))
    else if ramp in fired && a.sched <= i < LoadEnd(env, a, inputs(ramp).tick, inputs(ramp).choices) then
      StartTo(env, a.spots[i], b.spots[i], inputs(ramp).tick, inputs(ramp).choices(i))
    else b.spots[i] == a.spots[i]
  }

  /** A periodic timer that has fired: it runs again one period from now, unless its handler failed. */
  ghost function PeriodicAfter(env: Env, a: Snap, now: nat, inputs: nat -> Input, j: nat): Timer
    requires Sized(env, a) && j < |a.view|
  {
    Finished(Popped(a.view[j]), now, if FailsIn(env, a, HandlerOf(a.view, j), j, inputs(j)) then -1 else 0)
  }

  /** All the timers in `fired` have had their turn, each from where it stood before the dispatch:
      every client is accounted for, and so are the counter, the flag and the periodic timers. */
  ghost predicate TurnsTo(env: Env, a: Snap, b: Snap, fired: seq<nat>, now: nat, inputs: nat -> Input)
    requires Sized(env, a)
  {
    var n := |a.spots|;
    && |b.spots| == n && |b.view| == |a.view|
    && (forall i :: 0 <= i < n ==> ClientAfter(env, a, b, fired, inputs, i))
    && (forall j :: n <= j < n + 3 ==>
         b.view[j] == if j in fired then PeriodicAfter(env, a, now, inputs, j) else a.view[j])
    && (if n + 2 in fired then
          && b.sched == SchedAfter(env, a, inputs(n + 2).tick, inputs(n + 2).choices)
          && b.gradual == GradualAfter(env, a, inputs(n + 2).tick, inputs(n + 2).choices)
        else b.sched == a.sched && b.gradual == a.gradual)
  }

  lemma NoTurns(env: Env, a: Snap, now: nat, inputs: nat -> Input)
    requires Sized(env, a)
    ensures TurnsTo(env, a, a, [], now, inputs)
  {
  }

  /** A client that has had its turn is not new any more. */
  lemma NotNew(env: Env, handler: Handler, s: Spot, t: Spot, i: nat, input: Input)
    requires ClientTurn(env, handler, s, t, i, input)
    ensures !IsNew(t)
  {
  }

  /** While a timer is due its client stands where it stood before the dispatch. */
  lemma DueUntouched(env: Env, a: Snap, b: Snap, fired: seq<nat>, now: nat, inputs: nat -> Input, i: nat)
    requires Sized(env, a) && TurnsTo(env, a, b, fired, now, inputs) && i !in fired && i < |a.view| && a.view[i].Armed?
    requires InView(a)
    ensures i < |a.spots| ==> b.spots[i] == a.spots[i]
    ensures i == |a.spots| + 2 ==> b.sched == a.sched && b.gradual == a.gradual
  {
    hide StepTo, LoadEnd;
    if i < |a.spots| {
      assert ClientAfter(env, a, b, fired, inputs, i);
    }
  }

  /** The ramp-up step starts clients that are new, so none that has had its turn. */
  lemma RampTurn(env: Env, a: Snap, b: Snap, c: Snap, fired: seq<nat>, inputs: nat -> Input, r: int, j: nat)
    requires Sized(env, a) && Sized(env, b) && |a.spots| == |b.spots| && |a.spots| + 2 !in fired && j < |a.spots|
    requires b.sched == a.sched && b.gradual == a.gradual && ClientAfter(env, a, b, fired, inputs, j)
    requires AddedTo(env, b, c, inputs(|a.spots| + 2).tick, inputs(|a.spots| + 2).choices, r)
    ensures |c.spots| == |a.spots| && ClientAfter(env, a, c, fired + [|a.spots| + 2], inputs, j)
  {
    hide ClientTurn, LoadEnd, LoadFails, SchedAfter, GradualAfter, StepTo;
    var input := inputs(|a.spots| + 2);
    SameLoad(env, a, b, input.tick, input.choices);
    if j in fired {
      NotNew(env, HandlerOf(a.view, j), a.spots[j], b.spots[j], j, inputs(j));
    }
  }

  /** Whether a due timer fails does not change while others have their turns. */
  lemma StillFails(env: Env, a: Snap, b: Snap, fired: seq<nat>, now: nat, inputs: nat -> Input, i: nat)
    requires Sized(env, a) && Sized(env, b) && TurnsTo(env, a, b, fired, now, inputs) && i !in fired
    requires i < |a.view| && a.view[i].Armed?
    requires InView(a)
    ensures |b.spots| == |a.spots|
    ensures forall handler :: FailsIn(env, b, handler, i, inputs(i)) == FailsIn(env, a, handler, i, inputs(i))
  {
    DueUntouched(env, a, b, fired, now, inputs, i);
    if i == |a.spots| + 2 {
      SameLoad(env, a, b, inputs(i).tick, inputs(i).choices);
    }
    hide LoadFails, TimeoutAnswer;
  }

  /** One more timer has its turn, and nothing that the others did is undone. */
  lemma TurnMore(env: Env, a: Snap, b: Snap, c: Snap, fired: seq<nat>, now: nat, inputs: nat -> Input, i: nat, r: int)
    requires Sized(env, a) && Sized(env, b) && TurnsTo(env, a, b, fired, now, inputs) && i !in fired
    requires i < |a.view| && a.view[i].Armed? && |c.view| == |b.view|
    requires InView(a)
    requires TurnTo(env, b, c, HandlerOf(a.view, i), i, inputs(i), r)
    requires i >= |a.spots| ==> c.view[i] == Finished(Popped(b.view[i]), now, r)
    ensures TurnsTo(env, a, c, fired + [i], now, inputs)
  {
    hide ClientTurn, StartTo, LoadEnd, LoadFails, SchedAfter, GradualAfter, FailsIn, RangeStarted;
    hide Popped, Finished;
    DueUntouched(env, a, b, fired, now, inputs, i);
    StillFails(env, a, b, fired, now, inputs, i);
    var n := |a.spots|;
    forall j | 0 <= j < n ensures ClientAfter(env, a, c, fired + [i], inputs, j) {
      assert ClientAfter(env, a, b, fired, inputs, j);
      if i == n + 2 {
        RampTurn(env, a, b, c, fired, inputs, r, j);
      }
    }
    if i == n + 2 {
      SameLoad(env, a, b, inputs(i).tick, inputs(i).choices);
    }
    forall j | n <= j < n + 3
      ensures c.view[j] == if j in fired + [i] then PeriodicAfter(env, a, now, inputs, j) else a.view[j]
    {
    }
  }

  lemma SameHandler(v0: seq<Timer>, v: seq<Timer>, fired: seq<nat>, i: nat, now: nat)
    requires FiredSoFar(v0, v, fired, now) && NextDue(v, i, now)
    ensures HandlerOf(v0, i) == HandlerOf(v, i) && i in Due(v0, now) && i !in fired && i < |v0| && v0[i].Armed?
  {
  }

  // ---------------------------------------------------------------- a ramp-up that has failed

  /** More clients are to be started, but the ramp-up timer is gone. */
  predicate Stuck(a: Snap) {
    a.gradual && |a.view| == |a.spots| + 3 && a.view[|a.spots| + 2].Off?
  }

  /** A dispatch leaves a batch in that state exactly when a ramp-up step in it could not start a
      client. */
  lemma StuckExactly(env: Env, a: Snap, b: Snap, fired: seq<nat>, now: nat, inputs: nat -> Input)
    requires Sized(env, a) && TurnsTo(env, a, b, fired, now, inputs) && a.gradual
    requires a.view[|a.spots| + 2].Armed? && a.view[|a.spots| + 2].period > 0
    ensures var ramp := |a.spots| + 2;
      Stuck(b) <==>
        ramp in fired && a.sched < |a.spots| && LoadFails(env, a, inputs(ramp).tick, inputs(ramp).choices)
  {
  }

  /** Timer i is due before all other timers in a set. */
  ghost predicate Before(v: seq<Timer>, i: nat, others: set<nat>)
    requires i < |v| && v[i].Armed? && forall f :: f in others ==> f < |v| && v[f].Armed?
  {
    forall f :: f in others && f != i ==> v[i].next < v[f].next
  }

  ghost predicate NotAfter(v: seq<Timer>, i: nat, others: set<nat>)
    requires i < |v| && v[i].Armed? && forall f :: f in others ==> f < |v| && v[f].Armed?
  {
    forall f :: f in others && f != i ==> v[i].next <= v[f].next
  }

  /** The same, seen before the dispatch, up to the order among equal times: if a client cannot be
      started, the ramp-up timer is due and all other failing timers are due later; and only if a
      client cannot be started and the ramp-up timer is due no later than any other that fails. */
  lemma StuckBefore(env: Env, a: Snap, b: Snap, fired: seq<nat>, now: nat, inputs: nat -> Input, r: int)
    requires Sized(env, a) && TurnsTo(env, a, b, fired, now, inputs) && a.gradual
    requires Dispatched(a.view, b.view, fired, Failing(env, a, now, inputs), now, r)
    requires a.view[|a.spots| + 2].Armed? && a.view[|a.spots| + 2].period > 0
    ensures var ramp, failing := |a.spots| + 2, Failing(env, a, now, inputs);
      var unstarted := a.sched < |a.spots| && LoadFails(env, a, inputs(ramp).tick, inputs(ramp).choices);
      && (unstarted && ramp in Due(a.view, now) && Before(a.view, ramp, failing) ==> Stuck(b))
      && (Stuck(b) ==> unstarted && ramp in Due(a.view, now) && NotAfter(a.view, ramp, failing))
  {
    hide LoadFails, FailsIn, TurnsTo, Stuck;
    StuckExactly(env, a, b, fired, now, inputs);
    FiresExactly(a.view, b.view, fired, Failing(env, a, now, inputs), now, r, |a.spots| + 2);
  }

  /** No dispatch ends it. */
  lemma StaysStuck(env: Env, a: Snap, b: Snap, fired: seq<nat>, now: nat, inputs: nat -> Input)
    requires Sized(env, a) && Stuck(a) && TurnsTo(env, a, b, fired, now, inputs) && InOrder(a.view, fired, now)
    ensures Stuck(b)
  {
    hide LoadEnd, LoadFails, SchedAfter, GradualAfter;
    var ramp := |a.spots| + 2;
    assert ramp !in Due(a.view, now);
    assert forall x :: 0 <= x < |fired| ==> fired[x] != ramp;
    assert ramp !in fired;
  }

  // ---------------------------------------------------------------- reports from libcurl

  /** The reported end of client k's transfer: the client makes its next step, from CSTATE_ERROR if
      the transfer failed, and nothing else changes. */
  ghost predicate DoneTo(env: Env, a: Snap, c: bool, b: Snap, d: bool, k: nat, failed: bool, now: nat, choice: Choice,
                         r: CState) {
    var n := |a.spots|;
    && |b.spots| == n && |b.view| == |a.view| && k < n && b.sched == a.sched && b.gradual == a.gradual
    && (forall j :: 0 <= j < n && j != k ==> b.spots[j] == a.spots[j])
    && (forall j :: n <= j < |a.view| ==> b.view[j] == a.view[j])
    && StepTo(env.cfg, env.recovery, Up(env, now), if failed then FailedSpot(a.spots[k]) else a.spots[k], c,
              b.spots[k], d, now, choice, r)
  }

  /** Client k is marked as failed, and nothing else changes. */
  function Marked(a: Snap, k: nat): Snap
    requires k < |a.spots|
  {
    a.(spots := a.spots[k := FailedSpot(a.spots[k])])
  }

  // ---------------------------------------------------------------- events

  /** Whether client k is transferring. */
  predicate Transfers(a: Snap, k: nat) {
    k < |a.spots| && a.spots[k].transfers
  }

  /** What one event changes; c and d are the batch's flag that cycling is over, before and after. */
  ghost predicate EventTo(env: Env, a: Snap, c: bool, b: Snap, d: bool, e: Event)
    requires Sized(env, a)
  {
    match e
    case Dispatch(now, inputs) =>
      d == c && exists fired, r ::
        && Dispatched(a.view, b.view, fired, Failing(env, a, now, inputs), now, r)
        && TurnsTo(env, a, b, fired, now, inputs)
    case Done(k, failed, now, choice) =>
      if Transfers(a, k) then exists r :: DoneTo(env, a, c, b, d, k, failed, now, choice, r) else b == a && d == c
    case Failed(k) => d == c && b == if Transfers(a, k) then Marked(a, k) else a
  }

  /** No event ends a ramp-up that has failed. */
  lemma EventLeavesStuck(env: Env, a: Snap, c: bool, b: Snap, d: bool, e: Event)
    requires Sized(env, a) && EventTo(env, a, c, b, d, e) && Stuck(a)
    ensures Stuck(b)
  {
    hide TurnsTo, StepTo, Due, Failing;
    match e
    case Dispatch(now, inputs) =>
      var fired, r :| Dispatched(a.view, b.view, fired, Failing(env, a, now, inputs), now, r)
        && TurnsTo(env, a, b, fired, now, inputs);
      StaysStuck(env, a, b, fired, now, inputs);
    case _ =>
  }
}
