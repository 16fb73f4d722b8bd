/** Whole runs of small batches, from their allocation on: one in which every url is fetched, and two
    in which dispatch_expired_timers falls short. */
module BatchRuns {
  import opened TimerNodes
  import opened BatchTimer
  import opened Cycling
  import opened ClientSteps
  import opened Dispatching
  import opened Turns
  import opened Runs
  import opened OneClient
  import opened Plainly
  import opened Loader

  /** One url, fetched once. */
  const ONE_URL := Config(1, -1, -1, 1)

  /** Setting up a client succeeds for clients before `end`; a url may take `msec`. */
  function Choices(msec: nat, end: nat): nat -> Choice {
    (i: nat) => Choice(0, msec, i < end, _ => true)
  }

  /** An empty batch of two clients. */
  predicate Empty(a: Snap) {
    |a.spots| == 2 && |a.view| == 5 && a.sched == 0 && !a.gradual && IsNew(a.spots[0]) && IsNew(a.spots[1])
  }

  /** A batch of two clients after the start of its first ones at time 0. */
  ghost predicate BegunAs(env: Env, b: Snap, msec: nat, r: int) {
    && env.cfg == ONE_URL && env.runTime == 0 && !env.recovery
    && |b.spots| == 2 && |b.view| == 5 && (forall i :: 0 <= i < 2 ==> b.spots[i].timer == b.view[i])
    && (exists a :: Empty(a) && env.clientNumStart <= 2 && AddedTo(env, a, b, 0, Choices(msec, 2), r))
    && ArmedAs(b.view[2], 10000, 10000, LogfileRewinding) && ArmedAs(b.view[3], 3000, 1000, ScreenInput)
    && (if r == 0 && b.gradual then ArmedAs(b.view[4], 1000, 1000, RampUp) else b.view[4].Off?)
  }

  method Begun(start: nat, rampup: nat, msec: nat) returns (b: Batch, r: int)
    requires start <= 2
    ensures fresh(b) && fresh(b.timers.Own()) && b.Sound() && b.clientNumStart == start && b.rampupInc == rampup
    ensures BegunAs(b.EnvNow(), b.Now(), msec, r)
  {
    hide Batch.Sound, BatchTimers.Own, AddedTo, ArmedAs, Batch.Spots;
    var c := Batch.NewBatch(2, ONE_URL, [false], 0, false, start, rampup, 8, 4096);
    b := c;
    b.SizedSound();
    ghost var a := b.Now();
    assert Empty(a);
    r := b.InitTimersAndAddInitialClients(0, 0, Choices(msec, 2));
    b.SizedSound();
  }

  // ---------------------------------------------------------------- due timers that are left

  /** Both clients have started, and are due at the same time. */
  lemma BothDue(env: Env, b: Snap, r: int)
    requires BegunAs(env, b, 100, r) && env.clientNumStart == 2 && env.rampupInc == 0
    ensures r == 0 && Sized(env, b) && Due(b.view, 100) == {0, 1}
    ensures forall inputs :: Failing(env, b, 100, inputs) == {0, 1}
  {
    var a :| Empty(a) && AddedTo(env, a, b, 0, Choices(100, 2), r);
    assert StartTo(env, a.spots[0], b.spots[0], 0, Choices(100, 2)(0));
    assert StartTo(env, a.spots[1], b.spots[1], 0, Choices(100, 2)(1));
  }

  /** The clock at a dispatch, and the setups that succeed then. */
  function At(tick: nat, end: nat): nat -> Input {
    _ => Input(tick, Choices(100, end), true)
  }

  /** Two clients of a new batch time out at the same time: the dispatch fires one of them and leaves the
      other due. */
  method OneLeftDue() returns (b: Batch, r: int, ghost begun: Snap, ghost fired: seq<nat>)
    ensures fresh(b) && fresh(b.timers.Own()) && b.Sound() && BegunAs(b.EnvNow(), begun, 100, 0)
    ensures Dispatched(begun.view, b.timers.view, fired, Failing(b.EnvNow(), begun, 100, At(100, 2)), 100, r)
    ensures TurnsTo(b.EnvNow(), begun, b.Now(), fired, 100, At(100, 2))
    ensures r == -1 && |fired| == 1 && Due(begun.view, 100) == {0, 1}
    ensures Due(b.timers.view, 100) == {0, 1} - {fired[0]} != {}
  {
    hide Batch.Sound, BatchTimers.Own, AddedTo, ArmedAs, Batch.Spots, BegunAs, Dispatched, TurnsTo, Due, Failing;
    var batch, started := Begun(2, 0, 100);
    b := batch;
    begun := b.Now();
    b.SizedSound();
    BothDue(b.EnvNow(), begun, started);
    r, fired := b.DispatchExpiredTimers(100, At(100, 2));
    AllFailOneFires(begun.view, b.timers.view, fired, Failing(b.EnvNow(), begun, 100, At(100, 2)), 100, r);
    assert {0, 1} - {fired[0]} != {} by {
      assert fired[0] != 0 ==> 0 in {0, 1} - {fired[0]};
      assert fired[0] != 1 ==> 1 in {0, 1} - {fired[0]};
    }
  }

  // ---------------------------------------------------------------- a loop that does not end

  /** One client has started and the other waits for the ramp-up timer. */
  lemma OneWaits(env: Env, b: Snap, r: int)
    requires BegunAs(env, b, 0, r) && env.clientNumStart == 1 && env.rampupInc == 1
    ensures r == 0 && Sized(env, b) && Due(b.view, 1000) == {4} && b.gradual && b.sched == 1 && b.view[4].Armed?
    ensures b.view[4].period > 0
    ensures |b.spots| == 2 && LoadFails(env, b, 1000, Choices(100, 1))
    ensures Failing(env, b, 1000, At(1000, 1)) == {4}
  {
    var a :| Empty(a) && AddedTo(env, a, b, 0, Choices(0, 2), r);
    assert StartTo(env, a.spots[0], b.spots[0], 0, Choices(0, 2)(0));
  }

  /** Its start fails. However the batch runs from there, its loop does not end. */
  method NeverEnds(events: seq<Event>)
    returns (b: Batch, r: int, ended: bool, ghost begun: Snap, ghost fired: seq<nat>, ghost ms: seq<Moment>)
    requires forall e :: e in events && e.Dispatch? ==> forall n :: e.now <= e.inputs(n).tick
    ensures fresh(b) && fresh(b.timers.Own()) && b.Sound() && BegunAs(b.EnvNow(), begun, 0, 0)
    ensures RunOf(b.EnvNow(), events, ms, ended) && ms[|ms| - 1] == b.MomentNow()
    ensures Dispatched(begun.view, ms[0].snap.view, fired, Failing(b.EnvNow(), begun, 1000, At(1000, 1)), 1000, r)
    ensures TurnsTo(b.EnvNow(), begun, ms[0].snap, fired, 1000, At(1000, 1))
    ensures r == -1 && Stuck(ms[0].snap) && !ended
  {
    hide Batch.Sound, BatchTimers.Own, AddedTo, ArmedAs, Batch.Spots, BegunAs, TurnsTo, Due, Failing;
    hide LoadFails, RunOf, Runs.Total;
    var batch, started := Begun(1, 1, 0);
    b := batch;
    begun := b.Now();
    b.SizedSound();
    OneWaits(b.EnvNow(), begun, started);
    r, fired := b.DispatchExpiredTimers(1000, At(1000, 1));
    AllFailOneFires(begun.view, b.timers.view, fired, Failing(b.EnvNow(), begun, 1000, At(1000, 1)), 1000, r);
    StuckExactly(b.EnvNow(), begun, b.Now(), fired, 1000, At(1000, 1));
    var n;
    ended, n, ms := b.Run(events);
  }

  // ---------------------------------------------------------------- one client, all transfers successful

  /** A client that fetches what is offered and does not sleep. */
  function AtOnce(): Choice {
    Choice(0, 0, true, _ => true)
  }

  /** The rest of a client's run, while its transfers succeed and nothing else happens: it fetches the urls
      of its trace, in order, and then finishes. */
  method FetchAll(b: Batch, k: nat, now: nat)
    requires b.Sound() && k in b.multi && k < |b.clients| && b.clients[k].clientState == Urls && !b.TimeIsUp(now)
    modifies b`clients, b`multi, b`asleep, b`fetched, b`activeClientsCount, b`sleepingClientsCount, b.timers.Own()
    modifies b`cyclingCompleted, b`requestsCompleted, b`steps
    ensures b.Sound() && ConfigOk(b.cfg) && old(ProgressOk(b.cfg, b.ProgressOf(k))) && |b.clients| == |old(b.clients)|
    ensures b.SpotOf(k).fetched == old(b.SpotOf(k).fetched + Trace(b.cfg, b.ProgressOf(k)))
    ensures k !in b.multi && b.clients[k].clientState == FinishedOk
  {
    hide Batch.Sound, BatchTimers.Own, Trace, Rank, ProgressOk, WholeTrace, Loading, Batch.TimeIsUp;
    hide ConfigOk;
    b.SizedSound();
    StillLoading(b, k);
    ghost var whole := WholeTrace(b.cfg, b.SpotOf(k), b.cyclingCompleted);
    while true
      invariant b.Sound() && b.timers.OwnsOnlyNew() && k < |b.clients| == |old(b.clients)| && k in b.multi
      invariant Loading(b.cfg, b.SpotOf(k), b.cyclingCompleted) && ConfigOk(b.cfg) && ProgressOk(b.cfg, b.ProgressOf(k))
      invariant whole == WholeTrace(b.cfg, b.SpotOf(k), b.cyclingCompleted)
      decreases Rank(b.cfg, b.ProgressOf(k))
    {
      b.SizedSound();
      var r := OneTransfer(b, k, now);
      if r != Urls {
        break;
      }
    }
  }

  /** One transfer of the client ends well. */
  method OneTransfer(b: Batch, k: nat, now: nat) returns (r: CState)
    requires b.Sound() && k in b.multi && k < |b.clients| && !b.TimeIsUp(now)
    requires Loading(b.cfg, b.SpotOf(k), b.cyclingCompleted)
    modifies b`clients, b`multi, b`asleep, b`fetched, b`activeClientsCount, b`sleepingClientsCount, b.timers.Own()
    modifies b`cyclingCompleted, b`requestsCompleted, b`steps
    ensures b.Sound() && b.timers.OwnsOnlyNew() && k < |b.clients| == |old(b.clients)|
    ensures ConfigOk(b.cfg) && old(ProgressOk(b.cfg, b.ProgressOf(k))) && ProgressOk(b.cfg, b.ProgressOf(k))
    ensures WholeTrace(b.cfg, b.SpotOf(k), b.cyclingCompleted) ==
            old(WholeTrace(b.cfg, b.SpotOf(k), b.cyclingCompleted))
    ensures r == Urls ==>
      && k in b.multi && Loading(b.cfg, b.SpotOf(k), b.cyclingCompleted)
      && Rank(b.cfg, b.ProgressOf(k)) < old(Rank(b.cfg, b.ProgressOf(k)))
    ensures r != Urls ==>
      && k !in b.multi && b.clients[k].clientState == FinishedOk
      && b.SpotOf(k).fetched == WholeTrace(b.cfg, b.SpotOf(k), b.cyclingCompleted)
  {
    hide Batch.Sound, BatchTimers.Own, StepTo, Trace, Rank, ProgressOk, WholeTrace, Loading, Going;
    b.SizedSound();
    StillLoading(b, k);
    ghost var s, c := b.SpotOf(k), b.cyclingCompleted;
    r := b.TransferDone(k, false, now, AtOnce());
    StepKeepsTrace(b.cfg, b.errorRecovery, s, c, b.SpotOf(k), b.cyclingCompleted, now, AtOnce(), r);
    AtOnceSeats(b.cfg, b.errorRecovery, s, c, b.SpotOf(k), b.cyclingCompleted, now, r);
  }

  lemma AtOnceSeats(cfg: Config, recovery: bool, s: Spot, c: bool, t: Spot, d: bool, now: nat, r: CState)
    requires Loading(cfg, s, c) && StepTo(cfg, recovery, false, s, c, t, d, now, AtOnce(), r) && Going(cfg, t, d)
    requires r == Urls || r == FinishedOk
    ensures ProgressOk(cfg, Position(t.client, d))
    ensures if r == Urls then t.transfers && Loading(cfg, t, d)
            else !t.transfers && t.client.clientState == FinishedOk && t.fetched == WholeTrace(cfg, t, d)
  {
    hide Trace;
  }

  lemma StillLoading(b: Batch, k: nat)
    requires b.Sound() && k in b.multi && k < |b.clients|
    ensures ConfigOk(b.cfg) && ProgressOk(b.cfg, b.ProgressOf(k))
    ensures b.clients[k].clientState == Urls ==> Loading(b.cfg, b.SpotOf(k), b.cyclingCompleted)
    ensures WholeTrace(b.cfg, b.SpotOf(k), b.cyclingCompleted) ==
      b.SpotOf(k).fetched + (if k in b.asleep then [b.clients[k].urlCurrIndex] else []) + Trace(b.cfg, b.ProgressOf(k))
    ensures k !in b.asleep
  {
    assert b.ClientOk(k);
  }

  /** The first step of the only client. */
  lemma FirstFetch(env: Env, a: Snap, b: Snap, r: int)
    requires Sized(env, a) && AddedTo(env, a, b, 0, _ => AtOnce(), r) && env.clientNumStart == 1 && env.runTime == 0
    requires |a.spots| == 1 && a.sched == 0 && a.spots[0].client == NEW_CLIENT && a.spots[0].fetched == []
    ensures |b.spots| == 1 && b.sched == 1 && b.spots[0].transfers && !b.spots[0].sleeps && b.spots[0].timer.Off?
    ensures b.spots[0].client.clientState == Urls && b.spots[0].fetched == [0]
    ensures Position(b.spots[0].client, true) == Progress(0, 0, true)
  {
    hide After, Seated;
    assert StartTo(env, a.spots[0], b.spots[0], 0, AtOnce());
    StartsAtFirst(env, a.spots[0], b.spots[0]);
  }

  lemma StartsAtFirst(env: Env, s: Spot, t: Spot)
    requires StartTo(env, s, t, 0, AtOnce()) && env.runTime == 0 && s.client == NEW_CLIENT && s.fetched == []
    ensures t.transfers && !t.sleeps && t.timer.Off? && t.client.clientState == Urls && t.fetched == [0]
    ensures Position(t.client, true) == Progress(0, 0, true)
  {
  }

  /** The circumstances of a batch of one client that may run for ever. */
  function Alone(cfg: Config): Env {
    Env(cfg, false, 0, 0, 1, 0)
  }

  /** A batch of one client, built and started. */
  method Started(cfg: Config) returns (b: Batch)
    requires ConfigOk(cfg)
    ensures fresh(b) && fresh(b.timers.Own()) && b.Sound() && b.EnvNow() == Alone(cfg)
    ensures OneGoing(b.EnvNow(), b.MomentNow())
    ensures 0 in b.multi && |b.clients| == 1 && b.clients[0].clientState == Urls && b.SpotOf(0).fetched == [0]
    ensures b.ProgressOf(0) == Progress(0, 0, cfg.first < 0) == Progress(0, 0, b.cyclingCompleted)
    ensures WholeTrace(cfg, b.SpotOf(0), b.cyclingCompleted) == FullTrace(cfg)
  {
    hide Batch.Sound, BatchTimers.Own, AddedTo, Trace, FullTrace, WholeTrace, Going;
    var freshConnect := seq(cfg.urlsNum, _ => false);
    var c := Batch.NewBatch(1, cfg, freshConnect, 0, false, 1, 0, 8, 4096);
    b := c;
    b.SizedSound();
    ghost var a := b.Now();
    assert a.spots[0] == b.SpotOf(0);
    var r := b.InitTimersAndAddInitialClients(0, 0, _ => AtOnce());
    b.SizedSound();
    FirstFetch(b.EnvNow(), a, b.Now(), r);
    assert b.Now().spots[0] == b.SpotOf(0);
    StartsFullTrace(cfg, b.SpotOf(0));
  }

  /** The whole run of a batch of one client whose transfers all succeed. */
  method WholeRun(cfg: Config) returns (b: Batch)
    requires ConfigOk(cfg)
    ensures fresh(b) && b.Sound() && b.EnvNow() == Alone(cfg) && |b.clients| == 1
    ensures b.clients[0].clientState == FinishedOk && 0 !in b.multi
    ensures b.SpotOf(0).fetched == FullTrace(cfg)
  {
    hide Batch.Sound, BatchTimers.Own, Trace, FullTrace, Going, OneGoing;
    b := Started(cfg);
    b.SizedSound();
    StillLoading(b, 0);
    FetchAll(b, 0, 0);
  }

  /** Any run of a batch of one client in which nothing fails, with sleeps and dispatches anywhere: what has
      been fetched is always a prefix of the full trace, and is all of it when the run ends. */
  method QuietRun(cfg: Config, events: seq<Event>) returns (b: Batch, ended: bool, ghost ms: seq<Moment>)
    requires ConfigOk(cfg) && forall e :: e in events && e.Dispatch? ==> forall n :: e.now <= e.inputs(n).tick
    requires forall i :: 0 <= i < |events| ==> Quiet(Alone(cfg), events[i])
    ensures fresh(b) && b.Sound() && b.EnvNow() == Alone(cfg) && |b.clients| == 1
    ensures RunOf(b.EnvNow(), events, ms, ended) && OneGoing(b.EnvNow(), ms[0]) && ms[|ms| - 1] == b.MomentNow()
    ensures b.SpotOf(0).fetched <= FullTrace(cfg)
    ensures ended ==> b.SpotOf(0).fetched == FullTrace(cfg)
  {
    hide Batch.Sound, BatchTimers.Own, RunSoFar, Quiet, FullTrace, Trace, Runs.Total, Going, Stuck;
    b := Started(cfg);
    b.SizedSound();
    ghost var m := b.MomentNow();
    assert m.snap.spots[0] == b.SpotOf(0);
    var n;
    ended, n, ms := b.Run(events);
    RunFetchesTrace(Alone(cfg), events, ms);
    assert b.MomentNow().snap.spots[0] == b.SpotOf(0);
    Prefix(cfg, b.SpotOf(0), b.cyclingCompleted);
  }

  lemma Prefix(cfg: Config, s: Spot, c: bool)
    requires Going(cfg, s, c)
    ensures ConfigOk(cfg) && ProgressOk(cfg, Position(s.client, c)) && s.fetched <= WholeTrace(cfg, s, c)
  {
  }

  // ---------------------------------------------------------------- the run time

  /** A batch of one client that may run for `runTime`, begun at `now` and started when the clock says
      `tick`. */
  method Begin(runTime: nat, now: nat, tick: nat) returns (b: Batch)
    ensures fresh(b) && fresh(b.timers.Own()) && b.Sound() && b.runTime == runTime && b.startTime == now
    ensures |b.clients| == 1 && (0 in b.multi <==> runTime == 0 || tick - now < runTime)
  {
    hide Batch.Sound, BatchTimers.Own, AddedTo, Batch.Spots;
    var c := Batch.NewBatch(1, ONE_URL, [false], runTime, false, 1, 0, 8, 4096);
    b := c;
    b.SizedSound();
    ghost var a := b.Now();
    var r := b.InitTimersAndAddInitialClients(now, tick, _ => AtOnce());
    AllSetUp(b.EnvNow(), a, b.Now(), tick, r);
    b.SizedSound();
  }

  lemma AllSetUp(env: Env, a: Snap, b: Snap, tick: nat, r: int)
    requires Sized(env, a) && AddedTo(env, a, b, tick, _ => AtOnce(), r) && |a.spots| > a.sched
    ensures r == 0
  {
  }

  /** Both sides of the limit: one millisecond before it a client loads, at the limit none does any more; and
      a transfer that ends then is the last. */
  method RunTimeLimit(runTime: nat, now: nat) returns (early: Batch, late: Batch, r: CState)
    requires runTime > 0
    ensures fresh(early) && early.Sound() && fresh(late) && late.Sound()
    ensures early.runTime == late.runTime == runTime && early.startTime == late.startTime == now
    ensures 0 !in late.multi
    ensures r == FinishedOk && early.requestsCompleted && |early.clients| == 1 && 0 !in early.multi
  {
    hide Batch.Sound, BatchTimers.Own;
    late := Begin(runTime, now, now + runTime);
    early := Begin(runTime, now, now + runTime - 1);
    early.SizedSound();
    ghost var a := early.Now();
    assert 0 in early.multi;
    r := early.TransferDone(0, false, now + runTime, AtOnce());
    EndedThere(early, a, now + runTime, r);
  }

  lemma EndedThere(b: Batch, a: Snap, now: nat, r: CState)
    requires exists c, d :: DoneTo(b.EnvNow(), a, c, b.Now(), d, 0, false, now, AtOnce(), r)
    requires r == FinishedOk && |b.clients| > 0
    ensures 0 !in b.multi
  {
    assert b.Now().spots[0] == b.SpotOf(0);
  }

  // ---------------------------------------------------------------- the ramp-up

  /** Any run of a batch of n clients that has been started well: after k steps of the ramp-up as many have
      been started as at first, and k increases more, up to all of them. */
  method RampedRun(n: nat, start: nat, inc: nat,
                   events: seq<Event>) returns (b: Batch, ended: bool, ghost ms: seq<Moment>)
    requires 0 < n && start <= n && forall e :: e in events && e.Dispatch? ==> forall n :: e.now <= e.inputs(n).tick
    ensures fresh(b) && b.Sound() && |b.clients| == n && b.clientNumStart == start && b.rampupInc == inc
    ensures RunOf(b.EnvNow(), events, ms, ended) && ms[|ms| - 1] == b.MomentNow()
    ensures var first := if start != 0 then start else if inc == 0 || inc > n then n else inc;
      var wanted := first + RampSteps(ms) * inc;
      ms[0].snap.sched == first && b.clientsCurrentSchedNum == if wanted < n then wanted else n
  {
    hide Batch.Sound, BatchTimers.Own, AddedTo, RunSoFar, Batch.Spots, Runs.Total, RampSteps, Stuck, AtEnd;
    var c := Batch.NewBatch(n, ONE_URL, [false], 0, false, start, inc, 8, 4096);
    b := c;
    b.SizedSound();
    ghost var a := b.Now();
    var r := b.InitTimersAndAddInitialClients(0, 0, _ => AtOnce());
    AllSetUp(b.EnvNow(), a, b.Now(), 0, r);
    RampTimer(b);
    b.SizedSound();
    var m;
    ended, m, ms := b.Run(events);
    RampUpCounts(b.EnvNow(), events, ms);
  }

  lemma RampTimer(b: Batch)
    requires b.Sound()
    ensures b.rampupInc > 0 || b.timers.view[|b.clients| + 2].Off?
  {
  }
}
