/** loader_fsm.c, the same in plain numbers: what a load step and a start of clients come to, stated by
    the clock, the run time and the counts alone. */
module Plainly {
  import opened TimerNodes
  import opened BatchTimer
  import opened Cycling
  import opened ClientSteps
  import opened Dispatching
  import opened Turns
  import opened Runs

  /** A load step before and after the run time is over. */
  lemma StepInTime(env: Env, s: Spot, c: bool, t: Spot, d: bool, now: nat, choice: Choice, r: CState)
    requires StepTo(env.cfg, env.recovery, Up(env, now), s, c, t, d, now, choice, r)
    ensures var over := env.runTime != 0 && now - env.startTime >= env.runTime;
      && (over ==> r == FinishedOk && Position(t.client, d) == Position(s.client, c)
                   && t.client.clientState == s.client.clientState)
      && (!over && s.client.clientState == Init ==> r == if choice.setupOk then Urls else Error)
      && (!over && s.client.clientState == Error ==>
            var again := env.recovery && s.client.cycleNum + 1 < env.cfg.cyclesNum;
            && r == (if again && choice.setupOk then Urls else Error)
            && (again ==> t.client.urlCurrIndex == 0 && t.client.cycleNum == s.client.cycleNum + 1))
      && (!over && s.client.clientState == Urls && ConfigOk(env.cfg) && ProgressOk(env.cfg, Position(s.client, c)) ==>
            var (q, url) := NextFetched(env.cfg, Position(s.client, c), choice.fetch, 0);
            Position(t.client, d) == q && r == if url == -1 then FinishedOk else Urls)
  {
  }

  /** When the timer is due that a load step leaves behind. */
  lemma StepArms(env: Env, s: Spot, c: bool, t: Spot, d: bool, now: nat, choice: Choice, r: CState)
    requires StepTo(env.cfg, env.recovery, Up(env, now), s, c, t, d, now, choice, r)
    ensures t.sleeps <==> r == Urls && s.client.clientState == Urls && choice.sleepMsec > 0
    ensures t.timer.Armed? <==> r == Urls && (t.sleeps || choice.completionMsec > 0)
    ensures !t.timer.Armed? ==> t.timer.Off?
    ensures t.timer.Armed? ==>
      && t.timer.next == now + (if t.sleeps then choice.sleepMsec else choice.completionMsec) && t.timer.period == 0
      && t.timer.handler == if t.sleeps then Sleeping else UrlCompletion
  {
    hide After;
  }

  lemma WakeArms(s: Spot, t: Spot, now: nat, choice: Choice)
    requires WokeTo(s, t, now, choice)
    ensures t.timer.Armed? <==> choice.completionMsec > 0
    ensures t.timer.Armed? ==>
      t.timer.next == now + choice.completionMsec && t.timer.period == 0 && t.timer.handler == UrlCompletion
  {
  }

  // ---------------------------------------------------------------- how many clients are started

  /** A start of clients that succeeds: the first one starts as many as are to start at once, every other
      the increase or as many as are left. Each of them makes one step, and transfers unless the run time
      is over. */
  lemma StartsInNumbers(env: Env, a: Snap, b: Snap, tick: nat, choices: nat -> Choice, r: int)
    requires Sized(env, a) && AddedTo(env, a, b, tick, choices, r) && r == 0
    ensures var n, left := |a.spots|, |a.spots| - a.sched;
      && left > 0
      && b.sched == (if a.sched == 0 && env.clientNumStart != 0 then env.clientNumStart
                     else if env.rampupInc == 0 || env.rampupInc > left then n
                     else a.sched + env.rampupInc)
      && forall j :: 0 <= j < n ==> Started(env, a.spots[j], b.spots[j], a.sched <= j < b.sched, tick)
  {
    hide NextNum;
    forall j | 0 <= j < |a.spots| ensures Started(env, a.spots[j], b.spots[j], a.sched <= j < b.sched, tick) {
      if a.sched <= j < b.sched {
        assert StartTo(env, a.spots[j], b.spots[j], tick, choices(j));
        StepInTime(env, a.spots[j], true, b.spots[j], true, tick, choices(j), StartAnswer(env, tick, choices(j)));
      }
    }
    NextInNumbers(env, a.sched, |a.spots|);
  }

  /** A client whose turn to start it was, or was not. */
  ghost predicate Started(env: Env, s: Spot, t: Spot, turn: bool, tick: nat) {
    if turn then
      && t.made == s.made + 1 && !t.sleeps
      && (t.transfers <==> env.runTime == 0 || tick - env.startTime < env.runTime)
    else t == s
  }

  lemma NextInNumbers(env: Env, from: nat, n: nat)
    requires from < n
    ensures NextNum(env, from, n) ==
      if from == 0 && env.clientNumStart != 0 then env.clientNumStart
      else if env.rampupInc == 0 || env.rampupInc > n - from then n
      else from + env.rampupInc
  {
  }

  /** One that fails starts none for good: the count stays. */
  lemma FailedStart(env: Env, a: Snap, b: Snap, tick: nat, choices: nat -> Choice, r: int)
    requires Sized(env, a) && AddedTo(env, a, b, tick, choices, r) && r != 0
    ensures b.sched == a.sched
    ensures a.sched == |a.spots| || (env.runTime == 0 || tick - env.startTime < env.runTime)
  {
  }

  // ---------------------------------------------------------------- a ramp-up over a whole run

  /** How many events of a run have added to the clients that are started. */
  function RampSteps(ms: seq<Moment>): nat {
    if |ms| <= 1 then 0
    else RampSteps(ms[..|ms| - 1]) + if ms[|ms| - 1].snap.sched != ms[|ms| - 2].snap.sched then 1 else 0
  }

  /** An event starts no clients, or one step's worth. */
  lemma EventStarts(env: Env, m: Moment, e: Event, m': Moment)
    requires Follows(env, m, e, m') && (m.snap.sched > 0 || env.clientNumStart == 0) && env.rampupInc > 0
    ensures var left := |m.snap.spots| - m.snap.sched;
      || m'.snap.sched == m.snap.sched
      || (left > 0 && m'.snap.sched == m.snap.sched + if env.rampupInc < left then env.rampupInc else left)
  {
    hide FailsIn, StopAt, StepTo, Dispatched, ClientAfter;
    if m.snap.sched < |m.snap.spots| {
      NextInNumbers(env, m.snap.sched, |m.snap.spots|);
    }
  }

  /** Without an increase a batch whose ramp-up timer is off starts no more clients. */
  lemma EventStartsNone(env: Env, m: Moment, e: Event, m': Moment)
    requires Follows(env, m, e, m') && m.snap.view[|m.snap.spots| + 2].Off?
    ensures m'.snap.sched == m.snap.sched && m'.snap.view[|m.snap.spots| + 2].Off?
  {
    hide FailsIn, StopAt, StepTo, ClientAfter, LoadFails, NextNum;
    var a, ramp := m.snap, |m.snap.spots| + 2;
    match e
    case Dispatch(now, inputs) =>
      var fired, r :| Dispatched(a.view, m'.snap.view, fired, Failing(env, a, now, inputs), now, r)
        && TurnsTo(env, a, m'.snap, fired, now, inputs);
      assert ramp !in Due(a.view, now);
      assert ramp !in fired;
    case _ =>
  }

  /** After k steps of the ramp-up that many increases have been added, up to the number of clients. */
  lemma {:induction false} RampUpCounts(env: Env, events: seq<Event>, ms: seq<Moment>)
    requires RunSoFar(env, events, ms) && (ms[0].snap.sched > 0 || env.clientNumStart == 0)
    requires env.rampupInc > 0 || ms[0].snap.view[|ms[0].snap.spots| + 2].Off?
    ensures var first, last, n := ms[0].snap, ms[|ms| - 1].snap, |ms[0].snap.spots|;
      var wanted := first.sched + RampSteps(ms) * env.rampupInc;
      && |last.spots| == n && last.sched >= first.sched && last.sched == (if wanted < n then wanted else n)
      && (first.view[n + 2].Off? ==> RampSteps(ms) == 0 && last.view[n + 2].Off?)
  {
    hide EventTo, AtEnd, InView;
    if |ms| > 1 {
      RunShorter(env, events, ms);
      var front, m, m' := ms[..|ms| - 1], ms[|ms| - 2], ms[|ms| - 1];
      RampUpCounts(env, events, front);
      if ms[0].snap.view[|ms[0].snap.spots| + 2].Off? {
        EventStartsNone(env, m, events[|ms| - 2], m');
      } else {
        EventStarts(env, m, events[|ms| - 2], m');
        assert (RampSteps(front) + 1) * env.rampupInc == RampSteps(front) * env.rampupInc + env.rampupInc;
      }
    }
  }
}
