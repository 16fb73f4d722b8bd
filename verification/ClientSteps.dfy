/** loader_fsm.c, the values: the states of a virtual client, what its steps depend on, and where one
    step leads. */
module ClientSteps {
  import opened TimerNodes
  import opened BatchTimer
  import opened Cycling

  datatype CState = Error | Init | Urls | FinishedOk

  /** The number that stands for a state: CSTATE_ERROR is -1, as is a failure. */
  function Code(s: CState): int {
    match s case Error => -1 case Init => 0 case Urls => 1 case FinishedOk => 2
  }

  /** What one load step depends on besides the state: the timeouts drawn for the url, whether
      setting up the handle succeeds, and the fetch decisions asked for in turn. */
  datatype Choice = Choice(sleepMsec: nat, completionMsec: nat, setupOk: bool, fetch: nat -> bool)

  /** What one timer handler depends on: the clock when it runs, the choices of the clients it
      moves, and whether rewinding the logfile succeeds. */
  datatype Input = Input(tick: nat, choices: nat -> Choice, logfileOk: bool)

  /** What happens to a running batch: expired timers are dispatched, libcurl reports the end of a
      transfer, or a callback marks a client that is transferring as failed. In a dispatch every
      timer has an input of its own, for it fires at most once. */
  datatype Event =
    | Dispatch(now: nat, inputs: nat -> Input)
    | Done(client: nat, failed: bool, now: nat, choice: Choice)
    | Failed(client: nat)

  /** client_context, an element of the batch's array; its timer is the one of the same index. */
  datatype Client = Client(
    tidSleeping: int, tidUrlCompletion: int, clientState: CState, urlCurrIndex: nat, cycleNum: nat,
    preloadState: CState, preloadUrlCurrIndex: nat, reqSentTimestamp: nat)

  const NEW_CLIENT := Client(-1, -1, Init, 0, 0, Init, 0, 0)

  /** All that concerns one client: its context, its timer, whether it is in the multi handle or
      counted as sleeping, the load steps it has made, and the urls it has been added to the load with. */
  datatype Spot = Spot(client: Client, timer: Timer, transfers: bool, sleeps: bool, made: nat, fetched: seq<int>)

  function Position(c: Client, completed: bool): Progress {
    Progress(c.urlCurrIndex, c.cycleNum, completed)
  }

  /** Client c at another position. */
  function Moved(c: Client, p: Progress): Client {
    c.(urlCurrIndex := p.url, cycleNum := p.cycle)
  }

  /** The one-shot timer t of a client armed for `msec` from now on, if at all. */
  function NextTimer(t: Timer, nowTime: nat, msec: nat, handler: Handler): Timer {
    if msec == 0 then Off else Armed(if t.Off? then 0 else t.id, nowTime + msec, 0, handler)
  }

  // ---------------------------------------------------------------- one load step

  /** The position a step leads to and its answer, from a state and a position. `up` says that the
      time the batch may run is over. */
  ghost function After(cfg: Config, recovery: bool, up: bool, was: CState, p: Progress,
                       choice: Choice): (Progress, CState) {
    if up then (p, FinishedOk)
    else match was
    case Init => (p.(url := 0), if choice.setupOk then Urls else Error)
    case Urls =>
      if ConfigOk(cfg) && ProgressOk(cfg, p) then
        var (q, url) := NextFetched(cfg, p, choice.fetch, 0);
        (q, if url == -1 then FinishedOk else Urls)
      else (p, FinishedOk)
    case Error =>
      var again := recovery && p.cycle + 1 < cfg.cyclesNum;
      (Progress(if again then 0 else p.url, if recovery then p.cycle + 1 else p.cycle, p.completed),
       if again && choice.setupOk then Urls else Error)
    case FinishedOk => (p, FinishedOk)
  }

  /** The state a client is left in. A new client whose setup fails stays new. */
  function StateAfter(was: CState, up: bool, r: CState): CState {
    if r == FinishedOk && up then was else if r == Error && was == Init then Init else r
  }

  /** The client's place after a step that answered r: it transfers, or sleeps first, or rests. */
  ghost predicate Seated(t: Spot, sleeps: bool, now: nat, choice: Choice, r: CState) {
    && t.transfers == (r == Urls && !sleeps) && t.sleeps == (r == Urls && sleeps)
    && t.timer == (if r != Urls then Off
                   else if sleeps then NextTimer(t.timer, now, choice.sleepMsec, Sleeping)
                   else NextTimer(t.timer, now, choice.completionMsec, UrlCompletion))
  }

  /** load_next_step: from s to t, while the batch's flag that cycling is over goes from c to d. */
  ghost predicate StepTo(cfg: Config, recovery: bool, up: bool, s: Spot, c: bool, t: Spot, d: bool,
                         now: nat, choice: Choice, r: CState)
  {
    var was := s.client.clientState;
    && (Position(t.client, d), r) == After(cfg, recovery, up, was, Position(s.client, c), choice)
    && t.client.clientState == StateAfter(was, up, r)
    && t.made == s.made + 1 && t.fetched == s.fetched + (if t.transfers then [t.client.urlCurrIndex] else [])
    && Seated(t, was == Urls && choice.sleepMsec > 0, now, choice, r)
  }

  /** The end of a sleep: the client transfers the url it stands at. */
  ghost predicate WokeTo(s: Spot, t: Spot, now: nat, choice: Choice) {
    && t.transfers && !t.sleeps && t.made == s.made && t.fetched == s.fetched + [t.client.urlCurrIndex]
    && t.client.clientState == s.client.clientState == Urls && Position(t.client, true) == Position(s.client, true)
    && t.timer == NextTimer(t.timer, now, choice.completionMsec, UrlCompletion)
  }

  /** A client marked as failed. */
  function FailedSpot(s: Spot): Spot {
    s.(client := s.client.(clientState := Error))
  }

  /** A new client. */
  predicate IsNew(s: Spot) {
    s.client.clientState == Init && s.made == 0 && s.timer.Off?
  }

  /** The first number in a range whose setup fails, or the end of the range. */
  function FirstBad(choices: nat -> Choice, from: nat, end: nat): (f: nat)
    requires from <= end
    ensures from <= f <= end && (f < end ==> !choices(f).setupOk)
    ensures forall j: nat :: from <= j < f ==> choices(j).setupOk
    decreases end - from
  {
    if from == end || !choices(from).setupOk then from else FirstBad(choices, from + 1, end)
  }
}
