/** The runs of a batch of one client in which nothing fails: what it has fetched and what is ahead of
    it make up its whole trace at every moment. */
module OneClient {
  import opened TimerNodes
  import opened Cycling
  import opened ClientSteps
  import opened Dispatching
  import opened Turns
  import opened Runs

  /** Every url is fetched that is asked about, and none times out. */
  ghost predicate Eager(choice: Choice) {
    choice.completionMsec == 0 && forall n: nat :: choice.fetch(n)
  }

  /** What a client has fetched, the url it sleeps before, and the urls that come after. */
  ghost function WholeTrace(cfg: Config, s: Spot, completed: bool): seq<int>
    requires ConfigOk(cfg) && ProgressOk(cfg, Position(s.client, completed))
  {
    s.fetched + (if s.sleeps then [s.client.urlCurrIndex] else []) + Trace(cfg, Position(s.client, completed))
  }

  /** A client that is loading or has finished, with no completion timer. */
  ghost predicate Going(cfg: Config, s: Spot, completed: bool) {
    && ConfigOk(cfg) && ProgressOk(cfg, Position(s.client, completed)) && !(s.transfers && s.sleeps)
    && (s.timer.Armed? ==> s.timer.handler == Sleeping && s.sleeps)
    && (if s.transfers || s.sleeps then s.client.clientState == Urls
        else s.client.clientState == FinishedOk && Trace(cfg, Position(s.client, completed)) == [])
  }

  /** A client that transfers a url. */
  ghost predicate Loading(cfg: Config, s: Spot, completed: bool) {
    && ConfigOk(cfg) && ProgressOk(cfg, Position(s.client, completed))
    && s.transfers && !s.sleeps && s.client.clientState == Urls
  }

  /** A load step from a transfer goes one url along the trace. */
  lemma StepKeepsTrace(cfg: Config, recovery: bool, s: Spot, c: bool, t: Spot, d: bool, now: nat, choice: Choice,
                       r: CState)
    requires Loading(cfg, s, c) && Eager(choice)
    requires StepTo(cfg, recovery, false, s, c, t, d, now, choice, r)
    ensures Going(cfg, t, d) && WholeTrace(cfg, t, d) == WholeTrace(cfg, s, c)
    ensures r == Urls || r == FinishedOk
    ensures r == Urls ==> Rank(cfg, Position(t.client, d)) < Rank(cfg, Position(s.client, c))
  {
    hide Rank;
    PickUpProgress(cfg, Position(s.client, c));
    assert choice.fetch(0);
    if r != Urls {
      assert Trace(cfg, Position(t.client, d)) == [];
    }
  }

  /** The end of a sleep takes up the url slept before. */
  lemma WakeKeepsTrace(cfg: Config, s: Spot, c: bool, t: Spot, now: nat, choice: Choice)
    requires Going(cfg, s, c) && s.sleeps && Eager(choice) && WokeTo(s, t, now, choice)
    ensures Going(cfg, t, c) && WholeTrace(cfg, t, c) == WholeTrace(cfg, s, c)
  {
    assert Position(t.client, c) == Position(s.client, c);
  }

  /** All that one client fetches: 0..last, then first..last again and again, then the rest; or every url
      once when nothing cycles. */
  ghost function FullTrace(cfg: Config): seq<int>
    requires ConfigOk(cfg)
  {
    if cfg.first < 0 then Span(0, cfg.urlsNum)
    else Span(0, cfg.last + 1) + Repeat(Span(cfg.first, cfg.last + 1), cfg.cyclesNum - 1)
         + Span(cfg.last + 1, cfg.urlsNum)
  }

  /** A client that has just taken up the first url. */
  lemma StartsFullTrace(cfg: Config, s: Spot)
    requires ConfigOk(cfg) && s.transfers && !s.sleeps && s.timer.Off? && s.client.clientState == Urls
    requires Position(s.client, cfg.first < 0) == Progress(0, 0, cfg.first < 0) && s.fetched == [0]
    ensures Going(cfg, s, cfg.first < 0) && WholeTrace(cfg, s, cfg.first < 0) == FullTrace(cfg)
  {
    hide Span, Repeat, Trace;
    ExactTrace(cfg);
  }

  /** An event of a run in which nothing fails and the run time is not over. */
  ghost predicate Quiet(env: Env, e: Event) {
    match e
    case Dispatch(now, inputs) => Eager(inputs(0).choices(0))
    case Done(_, failed, now, choice) => !failed && !Up(env, now) && Eager(choice)
    case Failed(_) => false
  }

  /** The batch of one client, once that has been started. */
  ghost predicate OneGoing(env: Env, m: Moment) {
    |m.snap.spots| == 1 && m.snap.sched == 1 && Going(env.cfg, m.snap.spots[0], m.completed)
  }

  lemma QuietDispatch(env: Env, a: Snap, b: Snap, c: bool, fired: seq<nat>, now: nat, inputs: nat -> Input)
    requires Sized(env, a) && InView(a) && |a.spots| == 1 && a.sched == 1 && Going(env.cfg, a.spots[0], c)
    requires Eager(inputs(0).choices(0)) && InOrder(a.view, fired, now) && TurnsTo(env, a, b, fired, now, inputs)
    ensures |b.spots| == 1 && b.sched == 1 && Going(env.cfg, b.spots[0], c)
    ensures WholeTrace(env.cfg, b.spots[0], c) == WholeTrace(env.cfg, a.spots[0], c)
  {
    hide Going, Loading, WholeTrace, StopAt;
    assert ClientAfter(env, a, b, fired, inputs, 0);
    if 0 in fired {
      OnlySleeps(env.cfg, a.spots[0], c);
      assert 0 in Due(a.view, now);
      WakeKeepsTrace(env.cfg, a.spots[0], c, b.spots[0], inputs(0).tick, inputs(0).choices(0));
    }
  }

  lemma OnlySleeps(cfg: Config, s: Spot, c: bool)
    requires Going(cfg, s, c)
    ensures ConfigOk(cfg) && ProgressOk(cfg, Position(s.client, c)) && (s.transfers ==> Loading(cfg, s, c))
    ensures s.timer.Armed? ==> s.timer.handler == Sleeping && s.sleeps
  {
  }

  /** No such event changes the whole trace. */
  lemma EventKeepsTrace(env: Env, m: Moment, e: Event, m': Moment)
    requires OneGoing(env, m) && Quiet(env, e) && Follows(env, m, e, m')
    ensures OneGoing(env, m') && ConfigOk(env.cfg)
    ensures WholeTrace(env.cfg, m'.snap.spots[0], m'.completed) == WholeTrace(env.cfg, m.snap.spots[0], m.completed)
  {
    hide TurnsTo, StepTo, Eager, Going, Loading, WholeTrace, InOrder;
    var a, b := m.snap, m'.snap;
    OnlySleeps(env.cfg, a.spots[0], m.completed);
    match e
    case Dispatch(now, inputs) =>
      var fired, r :| Dispatched(a.view, b.view, fired, Failing(env, a, now, inputs), now, r)
        && TurnsTo(env, a, b, fired, now, inputs);
      QuietDispatch(env, a, b, m.completed, fired, now, inputs);
    case Done(k, failed, now, choice) =>
      if Transfers(a, k) {
        var r :| DoneTo(env, a, m.completed, b, m'.completed, k, failed, now, choice, r);
        StepKeepsTrace(env.cfg, env.recovery, a.spots[0], m.completed, b.spots[0], m'.completed, now, choice, r);
      }
    case Failed(_) =>
  }

  /** At every moment of such a run the whole trace is the one of its beginning; and when the run ends,
      all of it has been fetched. */
  lemma {:induction false} RunFetchesTrace(env: Env, events: seq<Event>, ms: seq<Moment>)
    requires RunSoFar(env, events, ms) && OneGoing(env, ms[0])
    requires forall i :: 0 <= i < |ms| - 1 ==> Quiet(env, events[i])
    ensures var m := ms[|ms| - 1];
      && OneGoing(env, m)
      && WholeTrace(env.cfg, m.snap.spots[0], m.completed) ==
         WholeTrace(env.cfg, ms[0].snap.spots[0], ms[0].completed)
      && (AtEnd(m.snap) ==> m.snap.spots[0].fetched == WholeTrace(env.cfg, ms[0].snap.spots[0], ms[0].completed))
  {
    hide Follows, Quiet;
    if |ms| > 1 {
      RunShorter(env, events, ms);
      RunFetchesTrace(env, events, ms[..|ms| - 1]);
      EventKeepsTrace(env, ms[|ms| - 2], events[|ms| - 2], ms[|ms| - 1]);
    }
  }
}
