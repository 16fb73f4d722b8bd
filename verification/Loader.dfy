/** loader_fsm.c: virtual clients move between a transfer in libcurl's multi handle, a sleep
    in the timer queue and rest. The accounting invariant ties the batch's counters, the
    multi handle and the queue together. Request-rate mode is in RequestRate. */
module Loader {
  import opened Arith
  import opened TimerNodes
  import opened BatchTimer
  import opened TimerQueues
  import MemoryPool
  import opened Cycling
  import opened ClientSteps
  import opened Dispatching
  import opened Turns
  import opened Runs
  import opened Plainly

  ghost predicate ArmedAs(t: Timer, next: nat, period: nat, handler: Handler) {
    t.Armed? && t.next == next && t.period == period && t.handler == handler
  }

  /** The handlers of the batch's periodic timers, in their order. */
  ghost function PeriodicHandler(i: int): Handler {
    if i == 0 then LogfileRewinding else if i == 1 then ScreenInput else RampUp
  }

  ghost function LogOf(fetched: map<nat, seq<nat>>, i: nat): seq<nat> {
    if i in fetched then fetched[i] else []
  }

  ghost function SpotIn(clients: seq<Client>, view: seq<Timer>, multi: set<nat>, asleep: set<nat>, steps: seq<nat>,
                        fetched: map<nat, seq<nat>>, i: nat): Spot {
    Spot(if i < |clients| then clients[i] else NEW_CLIENT, if i < |view| then view[i] else Off,
         i in multi, i in asleep, if i < |steps| then steps[i] else 0, LogOf(fetched, i))
  }

  /** Nothing queued was touched, what was added is due later, and the timers from n on are the same. */
  ghost predicate ViewGrown(v: seq<Timer>, w: seq<Timer>, n: nat, now: nat) {
    LaterOnly(v, w, now) && forall j :: n <= j < |w| ==> w[j] == v[j]
  }

  lemma GrownIsLater(v: seq<Timer>, w: seq<Timer>, n: nat, now: nat)
    requires ViewGrown(v, w, n, now)
    ensures LaterOnly(v, w, now) && |w| == |v|
  {
  }

  lemma ViewGrownTwice(u: seq<Timer>, v: seq<Timer>, w: seq<Timer>, n: nat, now: nat)
    requires ViewGrown(u, v, n, now) && ViewGrown(v, w, n, now)
    ensures ViewGrown(u, w, n, now)
  {
  }

  predicate PeriodicTimer(t: Timer, handler: Handler) {
    !t.Off? ==> t.handler == handler && t.period >= 1000
  }

  function Pred(n: nat): nat {
    if n > 0 then n - 1 else 0
  }

  /** batch_context, with libcurl's multi handle as the set of the clients added to it. */
  class Batch {
    const timers: BatchTimers
    const cfg: Config
    const freshConnect: seq<bool>
    const runTime: nat
    const errorRecovery: bool
    const clientNumStart: nat
    const rampupInc: nat
    var clients: seq<Client>
    var startTime: nat
    var multi: set<nat>
    var activeClientsCount: nat
    var sleepingClientsCount: nat
    var cyclingCompleted: bool
    var requestsCompleted: bool
    var clientsCurrentSchedNum: nat
    var doGradualIncrease: bool

    /** The clients counted as sleeping, the number of load steps of each client, and the urls each has
        been added to the load with. */
    ghost var asleep: set<nat>
    ghost var steps: seq<nat>
    ghost var fetched: map<nat, seq<nat>>

    constructor (timers: BatchTimers, clientNumMax: nat, cfg: Config, freshConnect: seq<bool>,
                 runTime: nat, errorRecovery: bool, clientNumStart: nat, rampupInc: nat)
      requires timers.Ok() && |timers.view| == clientNumMax + 3 && forall i :: 0 <= i < |timers.view| ==>
        timers.view[i].Off?
      requires ConfigOk(cfg) && |freshConnect| == cfg.urlsNum && clientNumStart <= clientNumMax
      ensures this.timers == timers && this.clientNumStart == clientNumStart && this.rampupInc == rampupInc
      ensures this.runTime == runTime && this.errorRecovery == errorRecovery && cyclingCompleted == (cfg.first < 0)
      ensures fetched == map[]
      ensures forall i :: 0 <= i < |clients| ==> clients[i] == NEW_CLIENT
      ensures this.cfg == cfg && |clients| == clientNumMax && QueueOk() && Books() && PeriodicOk() && RampOk()
      ensures timers.view == old(timers.view)
      ensures NewFrom(0) && multi == {} && asleep == {} && clientsCurrentSchedNum == 0 && !doGradualIncrease
    {
      this.timers, this.cfg, this.freshConnect := timers, cfg, freshConnect;
      this.runTime, this.errorRecovery := runTime, errorRecovery;
      this.clientNumStart, this.rampupInc := clientNumStart, rampupInc;
      clients := seq(clientNumMax, _ => NEW_CLIENT);
      startTime, multi, activeClientsCount, sleepingClientsCount := 0, {}, 0, 0;
      cyclingCompleted, requestsCompleted, clientsCurrentSchedNum, doGradualIncrease := cfg.first < 0, false, 0, false;
      asleep, steps, fetched := {}, seq(clientNumMax, _ => 0), map[];
      hide BatchTimers.Ok, BatchTimers.Own, Batch.ClientOk, Batch.Books, Batch.Counted, Batch.PeriodicOk, Batch.NewFrom;
      new;
      AllNew();
    }

    function ProgressOf(i: nat): Progress
      requires i < |clients|
      reads this`clients, this`cyclingCompleted
    {
      Progress(clients[i].urlCurrIndex, clients[i].cycleNum, cyclingCompleted)
    }

    /** All that concerns client i. */
    ghost function SpotOf(i: nat): Spot
      reads this`clients, this`multi, this`asleep, this`steps, this`fetched, timers`view
    {
      SpotIn(clients, timers.view, multi, asleep, steps, fetched, i)
    }

    ghost function Spots(): (s: seq<Spot>)
      reads this`clients, this`multi, this`asleep, this`steps, this`fetched, timers`view
      ensures |s| == |clients| && forall i :: 0 <= i < |s| ==> s[i] == SpotOf(i)
    {
      var c, v, m, a, n, f := clients, timers.view, multi, asleep, steps, fetched;
      seq(|c|, i requires 0 <= i < |c| => SpotIn(c, v, m, a, n, f, i))
    }

    function EnvNow(): Env
      reads this`startTime
    {
      Env(cfg, errorRecovery, runTime, startTime, clientNumStart, rampupInc)
    }

    /** What the timer handlers change. */
    ghost function Now(): Snap
      reads this`clients, this`multi, this`asleep, this`steps, this`fetched, timers`view
      reads this`clientsCurrentSchedNum, this`doGradualIncrease
    {
      Snap(timers.view, Spots(), clientsCurrentSchedNum, doGradualIncrease)
    }

    /** Load steps that client i may still make while it transfers or sleeps. */
    ghost function StepsLeft(i: nat): nat
      requires i < |clients| && ConfigOk(cfg)
      reads this`clients, this`cyclingCompleted, this`multi, this`asleep
    {
      if (i in multi || i in asleep) && ProgressOk(cfg, ProgressOf(i)) then Rank(cfg, ProgressOf(i)) + 1 else 0
    }

    /** No client makes more load steps than this. */
    ghost function MaxSteps(): nat
      requires ConfigOk(cfg)
    {
      cfg.cyclesNum * cfg.urlsNum + cfg.urlsNum + 1
    }

    ghost predicate QueueOk()
      reads timers, timers.nodes, timers.held, timers.tq, timers.tq.heap, timers.tq.idsArr, timers.tq.nodesMpool
      reads timers.tq.nodesMpool.Nodes, timers.tq.nodesMpool.Taken, timers.tq.timers.Values
    {
      timers.Ok() && this !in timers.Own()
    }

    /** Sizes, counters and the clients that are counted. */
    ghost predicate Counted()
      reads this`clients, this`multi, this`asleep, this`steps, this`activeClientsCount, this`sleepingClientsCount
      reads this`cyclingCompleted
      reads timers`view
    {
      && ConfigOk(cfg) && |freshConnect| == cfg.urlsNum
      && |steps| == |clients| && |timers.view| == |clients| + 3
      && activeClientsCount == |multi| && sleepingClientsCount == |asleep|
      && (forall i :: i in multi || i in asleep ==> i < |clients|)
      && (!cyclingCompleted ==> cfg.last >= 0)
    }

    /** One client's books: it sleeps exactly while its sleep timer is queued, transfers while
        its completion timer is, and knows that timer's id exactly then. */
    ghost predicate ClientOk(i: nat)
      requires i < |clients| == |steps| && |timers.view| == |clients| + 3 && ConfigOk(cfg)
      reads this`clients, this`multi, this`asleep, this`steps, this`cyclingCompleted, timers`view
    {
      var c, t := clients[i], timers.view[i];
      && (t.Armed? ==> t.period == 0 && (t.handler == Sleeping || t.handler == UrlCompletion)) && !t.Running?
      && (i in asleep <==> t.Armed? && t.handler == Sleeping)
      && (i in asleep ==> i !in multi && c.clientState == Urls)
      && (t.Armed? && t.handler == UrlCompletion <==> c.tidUrlCompletion != -1)
      && (c.tidUrlCompletion != -1 ==> c.tidUrlCompletion == t.id && i in multi)
      && (i in multi ==> c.clientState != Init)
      && (i in multi || i in asleep ==> ProgressOk(cfg, ProgressOf(i)))
      && (c.clientState == Init ==> c.urlCurrIndex == c.cycleNum == 0)
      && steps[i] + StepsLeft(i) <= MaxSteps()
    }

    /** The books of all clients but one. */
    ghost predicate BooksBut(k: int)
      reads this`clients, this`multi, this`asleep, this`steps, this`activeClientsCount, this`sleepingClientsCount
      reads this`cyclingCompleted
      reads timers`view
    {
      Counted() && forall i :: 0 <= i < |clients| && i != k ==> ClientOk(i)
    }

    /** The accounting invariant. */
    ghost predicate Books()
      reads this`clients, this`multi, this`asleep, this`steps, this`activeClientsCount, this`sleepingClientsCount
      reads this`cyclingCompleted
      reads timers`view
    {
      BooksBut(-1)
    }

    /** Nothing but client k and its timer has changed; cycling does not resume. */
    twostate predicate OnlyClient(k: nat)
      reads this`clients, this`multi, this`asleep, this`steps, this`fetched, this`cyclingCompleted, timers`view
    {
      && |clients| == |old(clients)| && |steps| == |old(steps)| && |timers.view| == |old(timers.view)|
      && (forall i :: 0 <= i < |clients| && i != k ==> clients[i] == old(clients)[i])
      && (forall i :: 0 <= i < |steps| && i != k ==> steps[i] == old(steps)[i])
      && (forall i :: 0 <= i < |timers.view| && i != k ==> timers.view[i] == old(timers.view)[i])
      && (forall i :: i != k ==> (i in multi <==> i in old(multi)) && (i in asleep <==> i in old(asleep)))
      && (forall i :: i != k ==> LogOf(fetched, i) == LogOf(old(fetched), i))
      && (old(cyclingCompleted) ==> cyclingCompleted)
    }

    /** The other clients' books are kept when nothing but client k has changed. */
    twostate lemma OthersKept(new k: nat)
      requires old(BooksBut(k)) && OnlyClient(k)
      requires activeClientsCount == |multi| && sleepingClientsCount == |asleep|
      requires forall i :: i in multi || i in asleep ==> i < |clients|
      ensures BooksBut(k)
    {
      forall i | 0 <= i < |clients| && i != k ensures ClientOk(i) {
        assert old(ClientOk(i));
        assert ProgressOf(i).(completed := old(cyclingCompleted)) == old(ProgressOf(i));
      }
    }

    /** The clients from number n on have not been loaded yet. */
    ghost predicate NewFrom(n: nat)
      reads this`clients, this`steps
    {
      |steps| == |clients| && forall j :: n <= j < |clients| ==> clients[j].clientState == Init && steps[j] == 0
    }

    lemma AllNew()
      requires ConfigOk(cfg) && |freshConnect| == cfg.urlsNum && cyclingCompleted == (cfg.first < 0)
      requires |clients| == |steps| && |timers.view| == |clients| + 3
      requires forall i :: 0 <= i < |clients| ==> clients[i] == NEW_CLIENT && steps[i] == 0
      requires forall i :: 0 <= i < |timers.view| ==> timers.view[i].Off?
      requires multi == asleep == {} && activeClientsCount == sleepingClientsCount == 0
      ensures Books() && PeriodicOk() && (clientsCurrentSchedNum == 0 && clientNumStart <= |clients| ==> RampOk())
      ensures NewFrom(0) && this !in timers.Own()
    {
    }

    /** The batch's own periodic timers follow those of the clients. */
    ghost predicate PeriodicOk()
      reads this`clients, timers`view
    {
      && |timers.view| == |clients| + 3
      && PeriodicTimer(timers.view[|clients|], LogfileRewinding)
      && PeriodicTimer(timers.view[|clients| + 1], ScreenInput)
      && PeriodicTimer(timers.view[|clients| + 2], RampUp)
    }

    /** While the ramp-up timer lives, the clients still to be started are new. */
    ghost predicate RampOk()
      reads this`clients, this`steps, this`clientsCurrentSchedNum, timers`view
    {
      && clientNumStart <= |clients| && clientsCurrentSchedNum <= |clients| < |timers.view| - 2
      && (!timers.view[|clients| + 2].Off? ==> rampupInc > 0 && NewFrom(clientsCurrentSchedNum))
    }

    lemma NotOwned()
      requires QueueOk()
      ensures this !in timers.Own()
    {
    }

    /** A client between two steps: counted nowhere, no timer queued. */
    ghost predicate Resting(k: nat)
      reads this`clients, this`multi, this`asleep, timers`view
    {
      && k < |clients| <= |timers.view| && k !in multi && k !in asleep
      && timers.view[k].Off? && clients[k].tidUrlCompletion == -1
    }

    /** A resting client with a url to fetch. */
    ghost predicate Loadable(k: nat)
      reads this`clients, this`multi, this`asleep, this`steps, this`cyclingCompleted, timers`view
    {
      && Resting(k) && |steps| == |clients| && clients[k].clientState == Urls && ConfigOk(cfg)
      && ProgressOk(cfg, ProgressOf(k))
      && steps[k] + Rank(cfg, ProgressOf(k)) + 1 <= MaxSteps()
    }

    twostate lemma AddedKeeps(new k: nat)
      requires old(BooksBut(k) && Loadable(k)) && OnlyClient(k) && cyclingCompleted == old(cyclingCompleted)
      requires multi == old(multi) + {k} && asleep == old(asleep) && steps == old(steps)
      requires activeClientsCount == old(activeClientsCount) + 1 && sleepingClientsCount == old(sleepingClientsCount)
      requires ProgressOf(k) == old(ProgressOf(k)) && clients[k].clientState == Urls
      requires var t := timers.view[k];
        if t.Off? then clients[k].tidUrlCompletion == -1
        else t.Armed? && t.period == 0 && t.handler == UrlCompletion && clients[k].tidUrlCompletion == t.id
      ensures Books()
    {
      OthersKept(k);
      assert ClientOk(k);
    }

    twostate lemma Joined(new k: nat, new url: nat)
      requires k < |clients| == |old(clients)| <= |timers.view| == |old(timers.view)|
      requires clients == old(clients)[k := clients[k]]
      requires multi == old(multi) + {k} && asleep == old(asleep) && steps == old(steps)
      requires fetched == old(fetched)[k := LogOf(old(fetched), k) + [url]]
      requires timers.view == old(timers.view)[k := timers.view[k]] && cyclingCompleted == old(cyclingCompleted)
      ensures OnlyClient(k) && LogOf(fetched, k) == LogOf(old(fetched), k) + [url]
    {
    }

    /** client_add_to_load. */
    method ClientAddToLoad(k: nat, nowTime: nat, completionMsec: nat)
      requires QueueOk() && BooksBut(k) && Loadable(k)
      modifies `clients, `multi, `fetched, `activeClientsCount, timers.Own()
      ensures QueueOk() && Books() && OnlyClient(k) && timers.OwnsOnlyNew()
      ensures timers.current == old(timers.current) && timers.held == old(timers.held)
      ensures multi == old(multi) + {k} && clients[k].clientState == Urls && ProgressOf(k) == old(ProgressOf(k))
      ensures clients[k] == old(clients[k]).(
        preloadState := old(clients[k].clientState), preloadUrlCurrIndex := old(clients[k].urlCurrIndex),
        reqSentTimestamp := nowTime, tidUrlCompletion := clients[k].tidUrlCompletion)
      ensures timers.view[k] == NextTimer(timers.view[k], nowTime, completionMsec, UrlCompletion)
      ensures LogOf(fetched, k) == LogOf(old(fetched), k) + [clients[k].urlCurrIndex]
    {
      hide BatchTimers.Ok, BatchTimers.Own, Batch.BooksBut, Batch.Books, Batch.ClientOk, ProgressOk, Rank;
      hide Batch.MaxSteps, Batch.OnlyClient, LogOf;
      clients := clients[k := clients[k].(
        preloadState := clients[k].clientState, preloadUrlCurrIndex := clients[k].urlCurrIndex,
        reqSentTimestamp := nowTime)];
      multi := multi + {k};
      fetched := fetched[k := LogOf(fetched, k) + [clients[k].urlCurrIndex]];
      assert timers.Own() == old(timers.Own());
      if completionMsec != 0 {
        var id := timers.Arm(k, nowTime + completionMsec, 0, UrlCompletion);
        clients := clients[k := clients[k].(tidUrlCompletion := id)];
      }
      activeClientsCount := activeClientsCount + 1;
      Joined(k, clients[k].urlCurrIndex);
      AddedKeeps(k);
    }

    // ---------------------------------------------------------------- the load states

    /** pick_up_next_url. */
    method PickUpNextUrl(k: nat) returns (url: int)
      requires k < |clients| && ConfigOk(cfg)
      modifies `clients, `cyclingCompleted
      ensures var (q, u) := PickUp(cfg, old(ProgressOf(k)));
        url == u && cyclingCompleted == q.completed && clients == old(clients)[k := Moved(old(clients[k]), q)]
    {
      var c := clients[k];
      if cyclingCompleted {
        if c.urlCurrIndex == cfg.urlsNum - 1 {
          return -1;
        }
        clients := clients[k := c.(urlCurrIndex := c.urlCurrIndex + 1)];
        return c.urlCurrIndex + 1;
      }
      if c.urlCurrIndex < cfg.last {
        clients := clients[k := c.(urlCurrIndex := c.urlCurrIndex + 1)];
        return c.urlCurrIndex + 1;
      }
      if c.urlCurrIndex == cfg.last {
        c := c.(cycleNum := c.cycleNum + 1);
        clients := clients[k := c];
        if cfg.cyclesNum != 0 && c.cycleNum == cfg.cyclesNum {
          cyclingCompleted := true;
          if c.urlCurrIndex == cfg.urlsNum - 1 {
            return -1;
          }
          clients := clients[k := c.(urlCurrIndex := c.urlCurrIndex + 1)];
          return c.urlCurrIndex + 1;
        } else {
          clients := clients[k := c.(urlCurrIndex := cfg.first)];
          return cfg.first;
        }
      }
      return -1;
    }

    /** setup_url. */
    method SetupUrl(k: nat, ok: bool) returns (r: CState)
      requires k < |clients|
      modifies `clients
      ensures r == if ok then Urls else Error
      ensures clients == if ok then old(clients)[k := old(clients[k]).(clientState := Urls)] else old(clients)
    {
      if !ok {
        return Error;
      }
      clients := clients[k := clients[k].(clientState := Urls)];
      return Urls;
    }

    /** load_urls_state: from CSTATE_URLS on to the next url decided for, or to the end; from
        any other state to the first url. */
    method LoadUrlsState(k: nat, choice: Choice) returns (r: CState, wait: nat)
      requires k < |clients| && ConfigOk(cfg) && |freshConnect| == cfg.urlsNum
      requires clients[k].clientState == Urls ==> ProgressOk(cfg, ProgressOf(k))
      modifies `clients, `cyclingCompleted
      ensures old(clients[k].clientState) == Urls ==>
        var (q, u) := old(NextFetched(cfg, ProgressOf(k), choice.fetch, 0));
        && wait == choice.sleepMsec && r == (if u == -1 then FinishedOk else Urls) && cyclingCompleted == q.completed
        && clients == old(clients)[k := Moved(old(clients[k]), q).(clientState := r)]
      ensures old(clients[k].clientState) != Urls ==>
        && wait == 0 && r == (if choice.setupOk then Urls else Error) && cyclingCompleted == old(cyclingCompleted)
        && clients == old(clients)[k := old(clients[k]).(urlCurrIndex := 0,
                                        clientState := if choice.setupOk then Urls else old(clients[k].clientState))]
    {
      wait := 0;
      if clients[k].clientState == Urls {
        wait := choice.sleepMsec;
        var found := FetchNext(k, choice.fetch);
        if !found {
          clients := clients[k := clients[k].(clientState := FinishedOk)];
          return FinishedOk, wait;
        }
        if !(freshConnect[clients[k].urlCurrIndex] && wait != 0) {
          var setup := SetupUrl(k, choice.setupOk);
        }
        return clients[k].clientState, wait;
      }
      clients := clients[k := clients[k].(urlCurrIndex := 0)];
      r := SetupUrl(k, choice.setupOk);
    }

    /** The do-while loop of load_urls_state. */
    method FetchNext(k: nat, fetch: nat -> bool) returns (found: bool)
      requires k < |clients| && ConfigOk(cfg) && ProgressOk(cfg, ProgressOf(k))
      modifies `clients, `cyclingCompleted
      ensures var (q, u) := old(NextFetched(cfg, ProgressOf(k), fetch, 0));
        && (found <==> u != -1) && cyclingCompleted == q.completed
        && clients == old(clients)[k := Moved(old(clients[k]), q)] && q.url < cfg.urlsNum
    {
      ghost var goal := NextFetched(cfg, ProgressOf(k), fetch, 0);
      NextFetchedProgress(cfg, ProgressOf(k), fetch, 0);
      var n := 0;
      while true
        invariant |clients| == |old(clients)| && ProgressOk(cfg, ProgressOf(k))
        invariant goal == NextFetched(cfg, ProgressOf(k), fetch, n)
        invariant clients == old(clients)[k := Moved(old(clients[k]), ProgressOf(k))]
        decreases Rank(cfg, ProgressOf(k))
      {
        PickUpProgress(cfg, ProgressOf(k));
        var url := PickUpNextUrl(k);
        if url < 0 {
          return false;
        }
        if fetch(n) {
          return true;
        }
        n := n + 1;
      }
    }

    /** load_error_state: another cycle from the first url on, while cycles are left. */
    method LoadErrorState(k: nat, choice: Choice) returns (r: CState, wait: nat)
      requires k < |clients| && ConfigOk(cfg) && |freshConnect| == cfg.urlsNum && clients[k].clientState == Error
      modifies `clients, `cyclingCompleted
      ensures var c := old(clients[k]);
        var again := errorRecovery && c.cycleNum + 1 < cfg.cyclesNum;
        && r == (if again && choice.setupOk then Urls else Error) && wait == 0
        && cyclingCompleted == old(cyclingCompleted)
        && clients == old(clients)[k := c.(clientState := r, urlCurrIndex := if again then 0 else c.urlCurrIndex,
                                            cycleNum := if errorRecovery then c.cycleNum + 1 else c.cycleNum)]
    {
      wait := 0;
      if errorRecovery {
        clients := clients[k := clients[k].(cycleNum := clients[k].cycleNum + 1)];
        if cfg.cyclesNum != 0 && clients[k].cycleNum >= cfg.cyclesNum {
          clients := clients[k := clients[k].(clientState := Error)];
          return Error, 0;
        }
        r, wait := LoadUrlsState(k, choice);
        return;
      }
      clients := clients[k := clients[k].(clientState := Error)];
      return Error, 0;
    }

    /** What every load state guarantees: a client that goes on stands at a legal position,
        at the first url when it was new, and closer to its end when it was not. */
    twostate predicate Stepped(k: nat, r: CState)
      requires k < |old(clients)| && ConfigOk(cfg)
      reads this`clients, this`cyclingCompleted
    {
      var was := old(clients)[k];
      && |clients| == |old(clients)| && clients == old(clients)[k := clients[k]]
      && (old(cyclingCompleted) ==> cyclingCompleted)
      && clients[k].tidUrlCompletion == was.tidUrlCompletion && r != Init
      && (clients[k].clientState == Init ==>
           was.clientState == Init && clients[k].urlCurrIndex == clients[k].cycleNum == 0)
      && (r == Urls ==>
           && clients[k].clientState == Urls && ProgressOk(cfg, ProgressOf(k))
           && (if was.clientState == Init then ProgressOf(k) == Progress(0, 0, cyclingCompleted)
               else ProgressOk(cfg, old(ProgressOf(k))) && Rank(cfg, ProgressOf(k)) < Rank(cfg, old(ProgressOf(k)))))
    }

    /** Where a client stands before a load step. */
    ghost predicate Standing(k: nat)
      reads this`clients, this`cyclingCompleted
    {
      && k < |clients| && ConfigOk(cfg) && |freshConnect| == cfg.urlsNum && (!cyclingCompleted ==> cfg.last >= 0)
      && (if clients[k].clientState == Init then clients[k].urlCurrIndex == clients[k].cycleNum == 0
          else ProgressOk(cfg, ProgressOf(k)))
    }

    /** The time the batch may run is over. */
    predicate TimeIsUp(nowTime: nat)
      reads this`startTime
    {
      Up(EnvNow(), nowTime)
    }

    /** The entry of load_state_func_table for the client's state. */
    method LoadState(k: nat, choice: Choice) returns (r: CState, wait: nat)
      requires Standing(k)
      modifies `clients, `cyclingCompleted
      ensures Stepped(k, r)
      ensures clients[k].clientState == StateAfter(old(clients[k].clientState), false, r)
      ensures (ProgressOf(k), r) ==
        After(cfg, errorRecovery, false, old(clients[k].clientState), old(ProgressOf(k)), choice)
      ensures r == Urls ==> wait == if old(clients[k].clientState) == Urls then choice.sleepMsec else 0
    {
      match clients[k].clientState {
        case Error =>
          if clients[k].cycleNum + 1 < cfg.cyclesNum {
            RestartProgress(cfg, ProgressOf(k));
          }
          r, wait := LoadErrorState(k, choice);
        case Init =>
          r, wait := LoadUrlsState(k, choice);
        case Urls =>
          NextFetchedProgress(cfg, ProgressOf(k), choice.fetch, 0);
          r, wait := LoadUrlsState(k, choice);
        case FinishedOk =>
          r, wait := FinishedOk, 0;
      }
    }

    // ---------------------------------------------------------------- load_next_step

    /** client_remove_from_load. The count follows the multi handle unless it held no such client. */
    method ClientRemoveFromLoad(k: nat)
      modifies `multi, `activeClientsCount
      ensures multi == old(multi) - {k} && activeClientsCount == Pred(old(activeClientsCount))
      ensures old(activeClientsCount == |multi|) ==>
        (activeClientsCount == |multi| <==> k in old(multi) || old(multi) == {})
    {
      multi := multi - {k};
      if activeClientsCount > 0 {
        activeClientsCount := activeClientsCount - 1;
      }
    }

    /** The completion timer of a client is cancelled if it was scheduled. */
    method CancelCompletion(k: nat)
      requires QueueOk() && Books() && k < |clients|
      modifies `clients, timers.Own()
      ensures QueueOk() && Books() && OnlyClient(k) && timers.OwnsOnlyNew()
      ensures timers.current == old(timers.current) && timers.held == old(timers.held)
      ensures clients == old(clients)[k := old(clients[k]).(tidUrlCompletion := -1)]
      ensures timers.view == old(timers.view)[k := if k in asleep then old(timers.view[k]) else Off]
    {
      hide BatchTimers.Ok, BatchTimers.Own, Batch.Books, Batch.BooksBut, Batch.ClientOk;
      CompletionTimer(k);
      if clients[k].tidUrlCompletion != -1 {
        var r := timers.Disarm(k, clients[k].tidUrlCompletion);
        clients := clients[k := clients[k].(tidUrlCompletion := -1)];
      }
      DisarmedBooks(k);
    }

    lemma CompletionTimer(k: nat)
      requires Books() && k < |clients|
      ensures |timers.view| == |clients| + 3 && |steps| == |clients| && ConfigOk(cfg) && ClientOk(k)
      ensures clients[k].tidUrlCompletion != -1 ==>
        timers.view[k].Armed? && timers.view[k].id == clients[k].tidUrlCompletion && k in multi && k !in asleep
      ensures clients[k].tidUrlCompletion == -1 && k !in asleep ==> timers.view[k].Off?
    {
    }

    twostate lemma DisarmedBooks(new k: nat)
      requires old(Books()) && k < |clients| && OnlyClient(k) && multi == old(multi) && asleep == old(asleep)
      requires steps == old(steps)
      requires activeClientsCount == old(activeClientsCount) && sleepingClientsCount == old(sleepingClientsCount)
      requires cyclingCompleted == old(cyclingCompleted) && clients[k] == old(clients)[k].(tidUrlCompletion := -1)
      requires timers.view[k] == if k in asleep then old(timers.view)[k] else Off
      ensures Books()
    {
      assert old(BooksBut(k) && ClientOk(k));
      OthersKept(k);
      assert ProgressOf(k) == old(ProgressOf(k));
    }

    /** Load steps and steps left stay within the bound. */
    ghost predicate Budget(k: nat, made: nat)
      requires k < |clients| && ConfigOk(cfg)
      reads this`clients, this`cyclingCompleted
    {
      if clients[k].clientState == Init then made == 0
      else ProgressOk(cfg, ProgressOf(k)) ==> made + Rank(cfg, ProgressOf(k)) + 1 <= MaxSteps()
    }

    /** When a load step may be made: a new client, or one that is transferring. */
    ghost predicate MayStep(k: nat)
      reads this`clients, this`multi, this`asleep, this`steps
    {
      k < |clients| == |steps| && k !in asleep && (if clients[k].clientState == Init then steps[k] == 0 else k in multi)
    }

    /** The client leaves the multi handle and loses its completion timer. */
    method Detach(k: nat)
      requires QueueOk() && Books() && MayStep(k)
      modifies `clients, `multi, `activeClientsCount, timers.Own()
      ensures QueueOk() && BooksBut(k) && Resting(k) && Standing(k) && OnlyClient(k) && timers.OwnsOnlyNew()
      ensures timers.current == old(timers.current) && timers.held == old(timers.held)
      ensures clients == old(clients)[k := old(clients[k]).(tidUrlCompletion := -1)] && multi == old(multi) - {k}
      ensures |clients| < |timers.view|
      ensures Budget(k, steps[k])
    {
      hide BatchTimers.Ok, BatchTimers.Own, Batch.Books, Batch.BooksBut, Batch.ClientOk, ProgressOk, Rank;
      hide Batch.MaxSteps;
      StandingNow(k);
      CancelCompletion(k);
      StandingNow(k);
      if clients[k].clientState != Init {
        ClientRemoveFromLoad(k);
      }
      RemovedBooks(k);
    }

    lemma StandingNow(k: nat)
      requires Books() && MayStep(k)
      ensures Standing(k) && Budget(k, steps[k]) && activeClientsCount == |multi| && |timers.view| == |clients| + 3
      ensures k in multi <==> clients[k].clientState != Init
    {
      assert ClientOk(k);
    }

    twostate lemma RemovedBooks(new k: nat)
      requires old(Books()) && OnlyClient(k) && k < |clients| && k !in multi && k !in asleep
      requires asleep == old(asleep) && activeClientsCount == |multi|
      requires sleepingClientsCount == old(sleepingClientsCount)
      requires multi <= old(multi)
      ensures BooksBut(k)
    {
      OthersKept(k);
    }

    /** The body of load_next_step that decides how the client goes on. */
    method Decide(k: nat, nowTime: nat, choice: Choice) returns (r: CState, wait: nat)
      requires Standing(k)
      modifies `clients, `cyclingCompleted, `requestsCompleted
      ensures Stepped(k, r)
      ensures clients[k].clientState == StateAfter(old(clients[k].clientState), TimeIsUp(nowTime), r)
      ensures (ProgressOf(k), r) ==
        After(cfg, errorRecovery, TimeIsUp(nowTime), old(clients[k].clientState), old(ProgressOf(k)), choice)
      ensures r == Urls ==> wait == if old(clients[k].clientState) == Urls then choice.sleepMsec else 0
      ensures requestsCompleted == (old(requestsCompleted) || TimeIsUp(nowTime))
      ensures old(TimeIsUp(nowTime)) ==>
        r == FinishedOk && clients == old(clients) && cyclingCompleted == old(cyclingCompleted)
    {
      if TimeIsUp(nowTime) {
        requestsCompleted := true;
        r, wait := FinishedOk, 0;
      } else {
        r, wait := LoadState(k, choice);
      }
    }

    twostate lemma SleptKeeps(new k: nat)
      requires old(BooksBut(k) && Loadable(k)) && OnlyClient(k) && cyclingCompleted == old(cyclingCompleted)
      requires multi == old(multi) && asleep == old(asleep) + {k} && steps == old(steps)
      requires activeClientsCount == old(activeClientsCount) && sleepingClientsCount == old(sleepingClientsCount) + 1
      requires clients == old(clients)[k := clients[k]]
      requires clients[k].(tidSleeping := -1) == old(clients)[k].(tidSleeping := -1)
      requires timers.view[k].Armed? && timers.view[k].period == 0 && timers.view[k].handler == Sleeping
      ensures Books()
    {
      OthersKept(k);
      assert ProgressOf(k) == old(ProgressOf(k));
      assert ClientOk(k);
    }

    /** The client is put into the timer queue until its sleep is over. */
    method Sleep(k: nat, nowTime: nat, wait: nat)
      requires QueueOk() && BooksBut(k) && Loadable(k) && wait > 0
      modifies `clients, `asleep, `sleepingClientsCount, timers.Own()
      ensures QueueOk() && Books() && OnlyClient(k) && timers.OwnsOnlyNew()
      ensures timers.current == old(timers.current) && timers.held == old(timers.held)
      ensures asleep == old(asleep) + {k} && clients[k].clientState == Urls && ProgressOf(k) == old(ProgressOf(k))
      ensures timers.view[k] == NextTimer(timers.view[k], nowTime, wait, Sleeping)
      ensures clients[k] == old(clients[k]).(tidSleeping := timers.view[k].id)
    {
      hide BatchTimers.Ok, BatchTimers.Own, Batch.BooksBut, Batch.Books, Batch.ClientOk, ProgressOk, Rank;
      hide Batch.MaxSteps;
      var id := timers.Arm(k, nowTime + wait, 0, Sleeping);
      clients := clients[k := clients[k].(tidSleeping := id)];
      sleepingClientsCount := sleepingClientsCount + 1;
      asleep := asleep + {k};
      SleptKeeps(k);
    }

    /** A decided step leaves the others alone; the client is at rest or has a url to load. */
    twostate lemma DecidedKeeps(new k: nat, new r: CState)
      requires old(BooksBut(k) && Resting(k) && Standing(k) && Budget(k, steps[k])) && Stepped(k, r)
      requires steps == old(steps)[k := old(steps)[k] + 1] && multi == old(multi) && asleep == old(asleep)
      requires activeClientsCount == old(activeClientsCount) && sleepingClientsCount == old(sleepingClientsCount)
      requires timers.view == old(timers.view)
      requires fetched == old(fetched)
      ensures OnlyClient(k) && BooksBut(k)
      ensures if r == Urls then Loadable(k) else Resting(k) && Books()
    {
      OthersKept(k);
      if r == Urls && old(clients)[k].clientState == Init {
        assert Rank(cfg, ProgressOf(k)) == cfg.cyclesNum * cfg.urlsNum + cfg.urlsNum - 1;
      }
      if r != Urls {
        assert ClientOk(k);
      }
    }

    /** Where a step leads, before the client has its place. */
    twostate predicate Decided(k: nat, nowTime: nat, choice: Choice, r: CState, wait: nat)
      requires k < |old(clients)| && k < |clients|
      reads this`clients, this`cyclingCompleted, this`startTime
    {
      var was := old(clients)[k].clientState;
      && clients[k].clientState == StateAfter(was, TimeIsUp(nowTime), r)
      && (Position(clients[k], cyclingCompleted), r) ==
         After(cfg, errorRecovery, TimeIsUp(nowTime), was, Position(old(clients)[k], old(cyclingCompleted)), choice)
      && (r == Urls ==> wait == if was == Urls then choice.sleepMsec else 0)
    }

    /** The step itself, of a client at rest. */
    method MakeStep(k: nat, nowTime: nat, choice: Choice) returns (r: CState, wait: nat)
      requires BooksBut(k) && Resting(k) && Standing(k) && |steps| == |clients| && Budget(k, steps[k])
      modifies `clients, `cyclingCompleted, `requestsCompleted, `steps
      ensures OnlyClient(k) && BooksBut(k) && steps == old(steps)[k := old(steps[k]) + 1]
      ensures r != Init && (if r == Urls then Loadable(k) else Resting(k) && Books())
      ensures k < |clients| && Decided(k, nowTime, choice, r, wait)
      ensures requestsCompleted == (old(requestsCompleted) || TimeIsUp(nowTime))
    {
      hide Batch.Books, Batch.BooksBut, Batch.ClientOk, ProgressOk, Rank, Batch.MaxSteps, After;
      hide Batch.Budget, Batch.Standing, Batch.TimeIsUp, LogOf;
      steps := steps[k := steps[k] + 1];
      r, wait := Decide(k, nowTime, choice);
      DecidedKeeps(k, r);
    }

    /** load_next_step up to where the client is put into its new place: it is at rest, and its new
        position and the answer are known. */
    method Leave(k: nat, nowTime: nat, choice: Choice) returns (r: CState, wait: nat)
      requires QueueOk() && Books() && MayStep(k)
      modifies `clients, `multi, `activeClientsCount, timers.Own()
      modifies `cyclingCompleted, `requestsCompleted, `steps
      ensures QueueOk() && BooksBut(k) && OnlyClient(k) && timers.OwnsOnlyNew()
      ensures timers.current == old(timers.current) && timers.held == old(timers.held)
      ensures r != Init && (if r == Urls then Loadable(k) else Resting(k) && Books())
      ensures multi == old(multi) - {k} && k < |clients| < |timers.view|
      ensures steps == old(steps)[k := old(steps[k]) + 1]
      ensures Decided(k, nowTime, choice, r, wait)
      ensures requestsCompleted == (old(requestsCompleted) || TimeIsUp(nowTime))
    {
      hide Batch.QueueOk, BatchTimers.Own, Batch.Books, Batch.BooksBut, Batch.ClientOk, ProgressOk, Rank;
      hide Batch.MaxSteps, After, Batch.Loadable, LogOf, Batch.Budget, Batch.Standing, Batch.TimeIsUp;
      NotOwned();
      Detach(k);
      r, wait := MakeStep(k, nowTime, choice);
    }

    /** The rest of load_next_step: the client transfers now, or sleeps first. */
    method Seat(k: nat, nowTime: nat, wait: nat, completionMsec: nat) returns (schedNow: bool)
      requires QueueOk() && BooksBut(k) && Loadable(k)
      modifies `clients, `multi, `asleep, `fetched, `activeClientsCount, `sleepingClientsCount, timers.Own()
      ensures QueueOk() && Books() && OnlyClient(k) && timers.OwnsOnlyNew() && schedNow == (wait == 0)
      ensures timers.current == old(timers.current) && timers.held == old(timers.held)
      ensures clients[k].clientState == Urls && ProgressOf(k) == old(ProgressOf(k))
      ensures k < |timers.view| && SpotOf(k).transfers == schedNow && SpotOf(k).sleeps == !schedNow
      ensures timers.view[k] ==
        if schedNow then NextTimer(timers.view[k], nowTime, completionMsec, UrlCompletion)
        else NextTimer(timers.view[k], nowTime, wait, Sleeping)
      ensures timers.view[k].Armed? ==> timers.view[k].next > nowTime
      ensures LogOf(fetched, k) == LogOf(old(fetched), k) + if schedNow then [clients[k].urlCurrIndex] else []
    {
      hide Batch.QueueOk, BatchTimers.Own, Batch.Books, Batch.BooksBut, Batch.ClientOk, ProgressOk, Rank;
      hide Batch.MaxSteps, LogOf;
      NotOwned();
      schedNow := wait == 0;
      if schedNow {
        ClientAddToLoad(k, nowTime, completionMsec);
      } else {
        Sleep(k, nowTime, wait);
      }
    }

    /** What the step has come to, by the clock. */
    lemma InPlainTerms(s: Spot, c: bool, k: nat, now: nat, choice: Choice, r: CState)
      requires k < |clients| < |timers.view|
      requires StepTo(cfg, errorRecovery, TimeIsUp(now), s, c, SpotOf(k), cyclingCompleted, now, choice, r)
      ensures TimeIsUp(now) <==> runTime != 0 && now - startTime >= runTime
      ensures var over := runTime != 0 && now - startTime >= runTime;
        && (over ==> r == FinishedOk && ProgressOf(k) == Position(s.client, c)
                     && clients[k].clientState == s.client.clientState)
        && (!over && s.client.clientState == Init ==> r == if choice.setupOk then Urls else Error)
        && (!over && s.client.clientState == Error ==>
              var again := errorRecovery && s.client.cycleNum + 1 < cfg.cyclesNum;
              && r == (if again && choice.setupOk then Urls else Error)
              && (again ==> clients[k].urlCurrIndex == 0 && clients[k].cycleNum == s.client.cycleNum + 1))
      ensures r == Urls ==> (k in multi <==> k !in asleep)
      ensures timers.view[k].Armed? <==> r == Urls && (k in asleep || choice.completionMsec > 0)
      ensures timers.view[k].Armed? ==>
        timers.view[k].next == now + if k in asleep then choice.sleepMsec else choice.completionMsec
    {
      StepInTime(EnvNow(), s, c, SpotOf(k), cyclingCompleted, now, choice, r);
      StepArms(EnvNow(), s, c, SpotOf(k), cyclingCompleted, now, choice, r);
    }

    /** load_next_step, without what the clock says. */
    method NextStep(k: nat, nowTime: nat, choice: Choice) returns (r: CState, schedNow: bool)
      requires QueueOk() && Books() && MayStep(k)
      modifies `clients, `multi, `asleep, `fetched, `activeClientsCount, `sleepingClientsCount, timers.Own()
      modifies `cyclingCompleted, `requestsCompleted, `steps
      ensures QueueOk() && Books() && OnlyClient(k) && timers.OwnsOnlyNew()
      ensures timers.current == old(timers.current) && timers.held == old(timers.held)
      ensures r != Init && steps == old(steps)[k := old(steps[k]) + 1]
      ensures if r == Urls then clients[k].clientState == Urls && (if schedNow then k in multi else k in asleep)
              else Resting(k)
      ensures k < |clients| < |timers.view|
      ensures StepTo(cfg, errorRecovery, TimeIsUp(nowTime), old(SpotOf(k)), old(cyclingCompleted),
                     SpotOf(k), cyclingCompleted, nowTime, choice, r)
      ensures timers.view[k].Armed? ==> timers.view[k].next > nowTime
      ensures requestsCompleted == (old(requestsCompleted) || TimeIsUp(nowTime))
    {
      hide Batch.QueueOk, BatchTimers.Own, Batch.Books, Batch.BooksBut, Batch.ClientOk, ProgressOk, Rank;
      hide Batch.MaxSteps, After, Batch.Loadable, LogOf, NextTimer;
      NotOwned();
      schedNow := false;
      var wait;
      r, wait := Leave(k, nowTime, choice);
      NotOwned();
      if r == Error || r == FinishedOk {
        return;
      }
      schedNow := Seat(k, nowTime, wait, choice.completionMsec);
    }

    /** load_next_step. */
    method LoadNextStep(k: nat, nowTime: nat, choice: Choice) returns (r: CState, schedNow: bool)
      requires QueueOk() && Books() && MayStep(k)
      modifies `clients, `multi, `asleep, `fetched, `activeClientsCount, `sleepingClientsCount, timers.Own()
      modifies `cyclingCompleted, `requestsCompleted, `steps
      ensures QueueOk() && Books() && OnlyClient(k) && timers.OwnsOnlyNew()
      ensures timers.current == old(timers.current) && timers.held == old(timers.held)
      ensures r != Init && steps == old(steps)[k := old(steps[k]) + 1]
      ensures if r == Urls then clients[k].clientState == Urls && (if schedNow then k in multi else k in asleep)
              else Resting(k)
      ensures k < |clients| < |timers.view|
      ensures StepTo(cfg, errorRecovery, TimeIsUp(nowTime), old(SpotOf(k)), old(cyclingCompleted),
                     SpotOf(k), cyclingCompleted, nowTime, choice, r)
      ensures requestsCompleted == (old(requestsCompleted) || (runTime != 0 && nowTime - startTime >= runTime))
      ensures var over := runTime != 0 && nowTime - startTime >= runTime;
        && (over ==> r == FinishedOk && ProgressOf(k) == old(ProgressOf(k))
                     && clients[k].clientState == old(clients[k].clientState))
        && (!over && old(clients[k].clientState) == Init ==> r == if choice.setupOk then Urls else Error)
        && (!over && old(clients[k].clientState) == Error ==>
              var again := errorRecovery && old(clients[k].cycleNum) + 1 < cfg.cyclesNum;
              && r == (if again && choice.setupOk then Urls else Error)
              && (again ==> clients[k].urlCurrIndex == 0 && clients[k].cycleNum == old(clients[k].cycleNum) + 1))
      ensures timers.view[k].Armed? <==> r == Urls && (!schedNow || choice.completionMsec > 0)
      ensures timers.view[k].Armed? ==>
        timers.view[k].next == nowTime + if schedNow then choice.completionMsec else choice.sleepMsec
      ensures timers.view[k].Armed? ==> timers.view[k].next > nowTime
    {
      hide Batch.QueueOk, BatchTimers.Own, BatchTimers.OwnsOnlyNew, Batch.Books, Batch.OnlyClient, StepTo;
      NotOwned();
      r, schedNow := NextStep(k, nowTime, choice);
      InPlainTerms(old(SpotOf(k)), old(cyclingCompleted), k, nowTime, choice, r);
    }

    // ---------------------------------------------------------------- the timer handlers

    /** A client whose sleep timer has just been taken from the queue. */
    ghost predicate Woken(k: nat)
      reads this`clients, this`multi, this`asleep, this`steps, this`activeClientsCount, this`sleepingClientsCount
      reads this`cyclingCompleted
      reads timers`view
    {
      && BooksBut(k) && k < |clients| && k in asleep && k !in multi && timers.view[k].Off?
      && clients[k].tidUrlCompletion == -1 && clients[k].clientState == Urls
      && ProgressOk(cfg, ProgressOf(k)) && Budget(k, steps[k])
    }

    /** A client whose completion timer has just been taken from the queue. */
    ghost predicate TimedOut(k: nat)
      reads this`clients, this`multi, this`asleep, this`steps, this`activeClientsCount, this`sleepingClientsCount
      reads this`cyclingCompleted
      reads timers`view
    {
      && BooksBut(k) && k < |clients| && k in multi && k !in asleep && timers.view[k].Off?
      && clients[k].clientState != Init && ProgressOk(cfg, ProgressOf(k)) && Budget(k, steps[k])
    }

    lemma WakeUp(k: nat)
      requires Woken(k)
      ensures k < |clients| < |timers.view| && clients[k].clientState == Urls
      ensures sleepingClientsCount > 0 && |asleep - {k}| == sleepingClientsCount - 1
      ensures clients[k].urlCurrIndex < |freshConnect|
    {
    }

    twostate lemma Awake(new k: nat)
      requires old(Woken(k)) && clients == old(clients) && multi == old(multi) && asleep == old(asleep) - {k}
      requires steps == old(steps)
      requires activeClientsCount == old(activeClientsCount) && sleepingClientsCount == |asleep|
      requires timers.view == old(timers.view) && cyclingCompleted == old(cyclingCompleted)
      requires fetched == old(fetched)
      ensures BooksBut(k) && Loadable(k)
    {
      OthersKept(k);
      assert ProgressOf(k) == old(ProgressOf(k));
    }

    /** setup_url of a client that is in CSTATE_URLS already, its result ignored. */
    method SetupAgain(k: nat, ok: bool)
      requires k < |clients| && clients[k].clientState == Urls
      modifies `clients
      ensures clients == old(clients)
    {
      var setup := SetupUrl(k, ok);
      assert clients == old(clients);
    }

    /** The client is counted out of the sleepers, its url set up if that was put off. */
    method Wake(k: nat, setupOk: bool)
      requires QueueOk() && Woken(k)
      modifies `clients, `asleep, `sleepingClientsCount
      ensures QueueOk() && BooksBut(k) && Loadable(k)
      ensures clients == old(clients) && asleep == old(asleep) - {k}
    {
      hide Batch.QueueOk, Batch.BooksBut, Batch.ClientOk, ProgressOk, Rank, Batch.MaxSteps, Batch.Woken, Batch.Loadable;
      WakeUp(k);
      sleepingClientsCount := sleepingClientsCount - 1;
      asleep := asleep - {k};
      if freshConnect[clients[k].urlCurrIndex] {
        SetupAgain(k, setupOk);
      }
      Awake(k);
    }

    /** handle_cctx_sleeping_timer. */
    method HandleSleepingTimer(k: nat, tick: nat, choice: Choice) returns (rval: int)
      requires QueueOk() && Woken(k)
      modifies `clients, `multi, `asleep, `fetched, `activeClientsCount, `sleepingClientsCount, timers.Own()
      ensures QueueOk() && Books() && OnlyClient(k) && timers.OwnsOnlyNew() && rval == 0
      ensures timers.current == old(timers.current) && timers.held == old(timers.held)
      ensures k < |clients| < |timers.view| && WokeTo(old(SpotOf(k)), SpotOf(k), tick, choice)
      ensures k in multi && k !in asleep && (timers.view[k].Armed? <==> choice.completionMsec > 0)
      ensures timers.view[k].Armed? ==> timers.view[k].next == tick + choice.completionMsec
    {
      hide Batch.QueueOk, BatchTimers.Own, Batch.Books, Batch.BooksBut, Batch.Woken, Batch.Loadable, Rank;
      WakeUp(k);
      NotOwned();
      Wake(k, choice.setupOk);
      ClientAddToLoad(k, tick, choice.completionMsec);
      rval := 0;
    }

    twostate lemma FailedBooks(new k: nat)
      requires old(TimedOut(k))
      requires clients == old(clients)[k := old(clients)[k].(tidUrlCompletion := -1, clientState := Error)]
      requires multi == old(multi) && asleep == old(asleep) && steps == old(steps)
      requires activeClientsCount == old(activeClientsCount) && sleepingClientsCount == old(sleepingClientsCount)
      requires timers.view == old(timers.view) && cyclingCompleted == old(cyclingCompleted)
      requires fetched == old(fetched)
      ensures Books() && MayStep(k) && OnlyClient(k)
    {
      OthersKept(k);
      assert ProgressOf(k) == old(ProgressOf(k));
      assert ClientOk(k);
    }

    /** handle_cctx_url_completion_timer: a timeout counts as an error. */
    method HandleUrlCompletionTimer(k: nat, tick: nat, choice: Choice) returns (rval: int)
      requires QueueOk() && TimedOut(k)
      modifies `clients, `multi, `asleep, `fetched, `activeClientsCount, `sleepingClientsCount, timers.Own()
      modifies `cyclingCompleted, `requestsCompleted, `steps
      ensures QueueOk() && Books() && OnlyClient(k) && timers.OwnsOnlyNew()
      ensures timers.current == old(timers.current) && timers.held == old(timers.held)
      ensures k < |clients| && (timers.view[k].Armed? ==> timers.view[k].next > tick)
      ensures cyclingCompleted == old(cyclingCompleted) && TimeoutTo(EnvNow(), old(SpotOf(k)), SpotOf(k), tick, choice)
      ensures rval == Code(TimeoutAnswer(EnvNow(), old(SpotOf(k)).client.cycleNum, tick, choice))
    {
      hide Batch.QueueOk, BatchTimers.Own, Batch.Books, Batch.BooksBut, Batch.ClientOk, ProgressOk, Rank;
      hide Batch.MaxSteps;
      NotOwned();
      assert k < |clients|;
      clients := clients[k := clients[k].(tidUrlCompletion := -1)];
      clients := clients[k := clients[k].(clientState := Error)];
      FailedBooks(k);
      ghost var s := SpotOf(k);
      var r, schedNow := LoadNextStep(k, tick, choice);
      TimeoutStep(old(SpotOf(k)), s, old(cyclingCompleted), SpotOf(k), cyclingCompleted, tick, choice, r);
      rval := Code(r);
    }

    lemma TimeoutStep(was: Spot, s: Spot, c: bool, t: Spot, d: bool, tick: nat, choice: Choice, r: CState)
      requires s == FailedSpot(was).(client := s.client) && s.client == FailedSpot(was).client.(tidUrlCompletion := -1)
      requires StepTo(cfg, errorRecovery, TimeIsUp(tick), s, c, t, d, tick, choice, r)
      ensures d == c && r == TimeoutAnswer(EnvNow(), was.client.cycleNum, tick, choice)
      ensures TimeoutTo(EnvNow(), was, t, tick, choice)
    {
      FlagPlaysNoPart(cfg, errorRecovery, TimeIsUp(tick), s, c, t, d, tick, choice, r);
    }

    // ---------------------------------------------------------------- starting clients

    lemma MayStart(j: nat)
      requires Books() && NewFrom(j) && j < |clients|
      ensures |steps| == |clients| && MayStep(j) && |timers.view| == |clients| + 3 && IsNew(SpotOf(j))
    {
      assert ClientOk(j);
    }

    /** What is kept while the clients before n are being started. */
    twostate predicate StartedUpTo(n: nat, now: nat)
      reads this`clients, this`steps, timers`view
    {
      |clients| == |old(clients)| && NewFrom(n) && ViewGrown(old(timers.view), timers.view, |clients|, now)
    }

    twostate lemma StartedOne(new n: nat, new now: nat)
      requires old(Books() && NewFrom(n)) && n < |old(clients)| && OnlyClient(n)
      requires timers.view[n].Armed? ==> timers.view[n].next > now
      requires Books()
      ensures StartedUpTo(n + 1, now)
      ensures forall i :: 0 <= i < |clients| && i != n ==> SpotOf(i) == old(SpotOf(i))
    {
      CouldStart(n);
      assert ClientOk(n);
    }

    twostate lemma CouldStart(new n: nat)
      requires old(Books() && NewFrom(n)) && n < |old(clients)|
      ensures |old(timers.view)| == |old(clients)| + 3 && old(timers.view)[n].Off?
    {
      assert old(ClientOk(n));
    }

    /** load_next_step of a client that is new. */
    method StartClient(j: nat, tick: nat, choice: Choice) returns (r: CState)
      requires QueueOk() && Books() && NewFrom(j) && j < |clients|
      modifies `clients, `multi, `asleep, `fetched, `activeClientsCount, `sleepingClientsCount, timers.Own()
      modifies `cyclingCompleted, `requestsCompleted, `steps
      ensures QueueOk() && Books() && timers.OwnsOnlyNew() && StartedUpTo(j + 1, tick)
      ensures timers.current == old(timers.current) && timers.held == old(timers.held)
      ensures cyclingCompleted == old(cyclingCompleted) && r == StartAnswer(EnvNow(), tick, choice)
      ensures |clients| == |old(clients)| && StartTo(EnvNow(), old(SpotOf(j)), SpotOf(j), tick, choice)
      ensures forall i :: 0 <= i < |clients| && i != j ==> SpotOf(i) == old(SpotOf(i))
    {
      hide Batch.QueueOk, BatchTimers.OwnsOnlyNew, BatchTimers.Own, Batch.Books, Batch.NewFrom, Batch.OnlyClient;
      hide Batch.StartedUpTo;
      hide Batch.MayStep, Batch.Resting, Batch.SpotOf, StepTo, Batch.TimeIsUp;
      NotOwned();
      MayStart(j);
      var schedNow;
      r, schedNow := LoadNextStep(j, tick, choice);
      StartedOne(j, tick);
      FirstStep(old(SpotOf(j)), old(cyclingCompleted), SpotOf(j), cyclingCompleted, tick, choice, r);
    }

    lemma FirstStep(s: Spot, c: bool, t: Spot, d: bool, tick: nat, choice: Choice, r: CState)
      requires IsNew(s) && StepTo(cfg, errorRecovery, TimeIsUp(tick), s, c, t, d, tick, choice, r)
      ensures d == c && r == StartAnswer(EnvNow(), tick, choice) && StartTo(EnvNow(), s, t, tick, choice)
    {
      FlagPlaysNoPart(cfg, errorRecovery, TimeIsUp(tick), s, c, t, d, tick, choice, r);
    }

    /** One round of the loop below, which has come from `spots` and `view`. */
    method StartNext(j: nat, tick: nat, choices: nat -> Choice, ghost spots: seq<Spot>, ghost view: seq<Timer>,
                     ghost from: nat) returns (r: CState)
      requires QueueOk() && Books() && NewFrom(j) && from <= j < |clients|
      requires ViewGrown(view, timers.view, |clients|, tick)
      requires RangeStarted(EnvNow(), spots, Spots(), from, j, tick, choices)
      modifies `clients, `multi, `asleep, `fetched, `activeClientsCount, `sleepingClientsCount, timers.Own()
      modifies `cyclingCompleted, `requestsCompleted, `steps
      ensures QueueOk() && Books() && timers.OwnsOnlyNew() && NewFrom(j + 1) && |clients| == |old(clients)|
      ensures timers.current == old(timers.current) && timers.held == old(timers.held)
      ensures cyclingCompleted == old(cyclingCompleted) && r == StartAnswer(EnvNow(), tick, choices(j))
      ensures ViewGrown(view, timers.view, |clients|, tick)
      ensures RangeStarted(EnvNow(), spots, Spots(), from, j + 1, tick, choices)
    {
      hide Batch.QueueOk, BatchTimers.Own, BatchTimers.OwnsOnlyNew, Batch.Books, Batch.NewFrom, Batch.SpotOf;
      hide StartTo, RangeStarted, ViewGrown;
      NotOwned();
      ghost var before, now := Spots(), timers.view;
      r := StartClient(j, tick, choices(j));
      ViewGrownTwice(view, now, timers.view, |clients|, tick);
      OneMoreStarted(EnvNow(), spots, before, Spots(), from, j, tick, choices);
    }

    /** orderly_sched_clients: the clients start in order, until a first step fails. */
    method OrderlySchedClients(clientsToSched: nat, tick: nat, choices: nat -> Choice) returns (r: int)
      requires QueueOk() && Books() && NewFrom(clientsCurrentSchedNum)
      requires clientsCurrentSchedNum + clientsToSched <= |clients|
      modifies `clients, `multi, `asleep, `fetched, `activeClientsCount, `sleepingClientsCount, timers.Own()
      modifies `cyclingCompleted, `requestsCompleted, `steps
      ensures QueueOk() && Books() && timers.OwnsOnlyNew() && cyclingCompleted == old(cyclingCompleted)
      ensures timers.current == old(timers.current) && timers.held == old(timers.held)
      ensures var from, end := clientsCurrentSchedNum, clientsCurrentSchedNum + clientsToSched;
        var started := StartedEnd(EnvNow(), tick, choices, from, end);
        && r == (if StopAt(EnvNow(), tick, choices, from, end) < end then -1 else 0) && StartedUpTo(started, tick)
        && RangeStarted(EnvNow(), old(Spots()), Spots(), from, started, tick, choices)
    {
      hide Batch.QueueOk, BatchTimers.Own, Batch.Books, Batch.NewFrom, Batch.SpotOf, StartTo, RangeStarted, ViewGrown;
      hide StartedEnd, StopAt, Batch.Spots, StartAnswer;
      NotOwned();
      var j := clientsCurrentSchedNum;
      ghost var end := clientsCurrentSchedNum + clientsToSched;
      NothingStarted(old(Spots()), j, tick, choices);
      StartedNone(j, tick);
      while j < clientsCurrentSchedNum + clientsToSched
        invariant clientsCurrentSchedNum <= j <= end
        invariant j <= StopAt(EnvNow(), tick, choices, clientsCurrentSchedNum, end)
        invariant QueueOk() && Books() && timers.OwnsOnlyNew() && StartedUpTo(j, tick)
        invariant cyclingCompleted == old(cyclingCompleted)
        invariant RangeStarted(EnvNow(), old(Spots()), Spots(), clientsCurrentSchedNum, j, tick, choices)
        invariant timers.current == old(timers.current) && timers.held == old(timers.held)
      {
        var rval := StartNext(j, tick, choices, old(Spots()), old(timers.view), clientsCurrentSchedNum);
        NotOwned();
        StopsHere(tick, choices, clientsCurrentSchedNum, j, end);
        j := j + 1;
        if rval == Error {
          return -1;
        }
      }
      AllStart(tick, choices, clientsCurrentSchedNum, end);
      r := 0;
    }

    lemma AllStart(tick: nat, choices: nat -> Choice, from: nat, end: nat)
      requires from <= end
      ensures StopAt(EnvNow(), tick, choices, from, end) == end ==>
        StartedEnd(EnvNow(), tick, choices, from, end) == end
    {
    }

    lemma NothingStarted(spots: seq<Spot>, from: nat, tick: nat, choices: nat -> Choice)
      ensures RangeStarted(EnvNow(), spots, spots, from, from, tick, choices)
    {
    }

    twostate lemma StartedNone(new n: nat, new now: nat)
      requires NewFrom(n) && clients == old(clients) && timers.view == old(timers.view)
      ensures StartedUpTo(n, now)
    {
    }

    /** Where the starts stop, seen from a client that all before it have been started. */
    lemma StopsHere(tick: nat, choices: nat -> Choice, from: nat, j: nat, end: nat)
      requires from <= j < end && j <= StopAt(EnvNow(), tick, choices, from, end)
      ensures var stop := StopAt(EnvNow(), tick, choices, from, end);
        if StartAnswer(EnvNow(), tick, choices(j)) == Error then
          stop == j && StartedEnd(EnvNow(), tick, choices, from, end) == j + 1
        else stop > j
    {
    }

    /** add_loading_clients: -1 asks for the ramp-up timer to be stopped. */
    method AddLoadingClients(tick: nat, choices: nat -> Choice) returns (r: int)
      requires QueueOk() && Books() && NewFrom(clientsCurrentSchedNum) && Sized(EnvNow(), Now())
      requires clientsCurrentSchedNum == 0 || rampupInc > 0
      modifies `clients, `multi, `asleep, `fetched, `activeClientsCount, `sleepingClientsCount, timers.Own()
      modifies `cyclingCompleted, `requestsCompleted, `steps, `clientsCurrentSchedNum, `doGradualIncrease
      ensures QueueOk() && Books() && timers.OwnsOnlyNew() && |clients| == |old(clients)|
      ensures timers.current == old(timers.current) && timers.held == old(timers.held)
      ensures ViewGrown(old(timers.view), timers.view, |clients|, tick) && cyclingCompleted == old(cyclingCompleted)
      ensures AddedTo(EnvNow(), old(Now()), Now(), tick, choices, r)
      ensures r == 0 ==>
        && clientsCurrentSchedNum == (if old(clientsCurrentSchedNum) == 0 && clientNumStart != 0 then clientNumStart
                                      else if rampupInc == 0 || rampupInc > |clients| - old(clientsCurrentSchedNum)
                                        then |clients|
                                      else old(clientsCurrentSchedNum) + rampupInc)
        && forall j :: 0 <= j < |clients| ==>
             var turn := old(clientsCurrentSchedNum) <= j < clientsCurrentSchedNum;
             Plainly.Started(EnvNow(), old(Spots())[j], Spots()[j], turn, tick)
      ensures r != 0 ==> clientsCurrentSchedNum == old(clientsCurrentSchedNum)
      ensures clientsCurrentSchedNum <= |clients| && (r == 0 ==> NewFrom(clientsCurrentSchedNum))
    {
      hide Batch.QueueOk, BatchTimers.Own, Batch.Books, Batch.NewFrom, Batch.SpotOf, ViewGrown, AddedTo;
      Sizes();
      NotOwned();
      ghost var a := Now();
      if |clients| <= clientsCurrentSchedNum {
        doGradualIncrease := false;
        NobodyToStart(tick, choices);
        return -1;
      }
      var clientsToSched;
      if clientsCurrentSchedNum == 0 && clientNumStart != 0 {
        clientsToSched := clientNumStart;
      } else {
        clientsToSched := if rampupInc != 0 then Min(rampupInc, |clients| - clientsCurrentSchedNum) else |clients|;
      }
      assert clientsCurrentSchedNum + clientsToSched == NextNum(EnvNow(), clientsCurrentSchedNum, |clients|);
      r := AddClients(clientsToSched, tick, choices);
      if r == 0 {
        StartsInNumbers(EnvNow(), a, Now(), tick, choices, r);
      } else {
        FailedStart(EnvNow(), a, Now(), tick, choices, r);
      }
    }

    /** The rest of add_loading_clients: the clients are started and counted. */
    method AddClients(clientsToSched: nat, tick: nat, choices: nat -> Choice) returns (r: int)
      requires QueueOk() && Books() && NewFrom(clientsCurrentSchedNum) && Sized(EnvNow(), Now())
      requires clientsCurrentSchedNum < |clients|
      requires clientsCurrentSchedNum + clientsToSched == NextNum(EnvNow(), clientsCurrentSchedNum, |clients|)
      modifies `clients, `multi, `asleep, `fetched, `activeClientsCount, `sleepingClientsCount, timers.Own()
      modifies `cyclingCompleted, `requestsCompleted, `steps, `clientsCurrentSchedNum, `doGradualIncrease
      ensures QueueOk() && Books() && timers.OwnsOnlyNew() && |clients| == |old(clients)|
      ensures timers.current == old(timers.current) && timers.held == old(timers.held)
      ensures ViewGrown(old(timers.view), timers.view, |clients|, tick) && cyclingCompleted == old(cyclingCompleted)
      ensures AddedTo(EnvNow(), old(Now()), Now(), tick, choices, r)
      ensures clientsCurrentSchedNum <= |clients| && (r == 0 ==> NewFrom(clientsCurrentSchedNum))
    {
      hide Batch.QueueOk, BatchTimers.Own, Batch.Books, Batch.NewFrom, Batch.SpotOf, ViewGrown, AddedTo, RangeStarted;
      hide StopAt, StartedEnd;
      hide NextNum;
      NotOwned();
      ghost var a := Now();
      AllStart(tick, choices, clientsCurrentSchedNum, clientsCurrentSchedNum + clientsToSched);
      var started := OrderlySchedClients(clientsToSched, tick, choices);
      NotOwned();
      if started < 0 {
        StartsAdded(EnvNow(), a, Now(), tick, choices, -1);
        return -1;
      }
      clientsCurrentSchedNum := clientsCurrentSchedNum + clientsToSched;
      if rampupInc != 0 {
        if clientsCurrentSchedNum < |clients| {
          doGradualIncrease := true;
        }
      }
      StartsAdded(EnvNow(), a, Now(), tick, choices, 0);
      r := 0;
    }

    twostate lemma NobodyToStart(new tick: nat, new choices: nat -> Choice)
      requires timers.view == old(timers.view) && Spots() == old(Spots())
      requires clientsCurrentSchedNum == |clients| == |old(clients)| == old(clientsCurrentSchedNum)
      requires !doGradualIncrease
      requires old(Sized(EnvNow(), Now()))
      ensures ViewGrown(old(timers.view), timers.view, |clients|, tick)
      ensures AddedTo(EnvNow(), old(Now()), Now(), tick, choices, -1)
    {
    }

    lemma Sizes()
      requires Books()
      ensures |timers.view| == |clients| + 3 && |steps| == |clients|
    {
    }

    // ---------------------------------------------------------------- dispatching

    /** The whole batch between two events. */
    ghost predicate Sound()
      reads this, timers, timers.nodes, timers.held, timers.tq, timers.tq.heap, timers.tq.idsArr, timers.tq.nodesMpool
      reads timers.tq.nodesMpool.Nodes, timers.tq.nodesMpool.Taken, timers.tq.timers.Values
    {
      QueueOk() && Books() && PeriodicOk() && RampOk() && timers.current == -1
    }

    lemma SizedNow()
      requires Books() && clientNumStart <= |clients| && clientsCurrentSchedNum <= |clients|
      ensures Sized(EnvNow(), Now()) && |timers.view| == |clients| + 3
    {
    }

    /** What is known when the handler of timer i is called. */
    ghost predicate Called(i: nat, handler: Handler)
      reads this, timers`view
    {
      && |timers.view| == |clients| + 3 && i < |timers.view| && clientNumStart <= |clients|
      && clientsCurrentSchedNum <= |clients|
      && (i < |clients| ==>
           && timers.view[i].Off?
           && (if handler == Sleeping then Woken(i) else handler == UrlCompletion && TimedOut(i)))
      && (i >= |clients| ==> timers.view[i].Running? && Books())
      && (i == |clients| ==> handler == LogfileRewinding) && (i == |clients| + 1 ==> handler == ScreenInput)
      && (i == |clients| + 2 ==> handler == RampUp && rampupInc > 0 && NewFrom(clientsCurrentSchedNum))
    }

    /** What a handler leaves alone: timers that are queued, and the clients that are new, unless it
        starts them. */
    twostate predicate Handled(i: nat, rval: int, now: nat)
      reads this`clients, this`steps, this`clientsCurrentSchedNum, timers`view
    {
      && |clients| == |old(clients)| && clientsCurrentSchedNum <= |clients|
      && ViewGrown(old(timers.view), timers.view, |clients|, now)
      && (if i == |clients| + 2 then rval == -1 || NewFrom(clientsCurrentSchedNum)
          else clientsCurrentSchedNum == old(clientsCurrentSchedNum)
               && (old(NewFrom(clientsCurrentSchedNum)) ==> NewFrom(clientsCurrentSchedNum)))
    }

    twostate lemma ClientHandled(new i: nat, new handler: Handler, new input: Input, new rval: int, new now: nat)
      requires i < |old(clients)| < |old(timers.view)| && OnlyClient(i) && old(clients)[i].clientState != Init
      requires old(timers.view)[i].Off?
      requires timers.view[i].Off? || (timers.view[i].Armed? && timers.view[i].next > now)
      requires clientsCurrentSchedNum == old(clientsCurrentSchedNum) <= |old(clients)|
      requires doGradualIncrease == old(doGradualIncrease)
      requires old(Sized(EnvNow(), Now())) && ClientTurn(EnvNow(), handler, old(SpotOf(i)), SpotOf(i), i, input)
      requires rval ==
        if handler == Sleeping then 0
        else Code(TimeoutAnswer(EnvNow(), old(SpotOf(i)).client.cycleNum, input.tick, input.choices(i)))
      ensures Handled(i, rval, now)
      ensures TurnTo(EnvNow(), old(Now()), Now(), handler, i, input, rval)
    {
      hide ClientTurn, TimeoutAnswer;
    }

    lemma NotRunning(i: nat)
      requires Books() && i < |clients|
      ensures |timers.view| == |clients| + 3 && !timers.view[i].Running? && |steps| == |clients|
    {
      assert ClientOk(i);
    }

    method HandleClient(i: nat, handler: Handler, input: Input, ghost now: nat) returns (rval: int)
      requires QueueOk() && Called(i, handler) && now <= input.tick && (handler == Sleeping || handler == UrlCompletion)
      modifies `clients, `multi, `asleep, `fetched, `activeClientsCount, `sleepingClientsCount, timers.Own()
      modifies `cyclingCompleted, `requestsCompleted, `steps
      ensures QueueOk() && Books() && timers.OwnsOnlyNew() && Handled(i, rval, now)
      ensures cyclingCompleted == old(cyclingCompleted)
      ensures timers.current == old(timers.current) && timers.held == old(timers.held)
      ensures old(Sized(EnvNow(), Now())) && TurnTo(EnvNow(), old(Now()), Now(), handler, i, input, rval)
    {
      hide Batch.QueueOk, BatchTimers.OwnsOnlyNew, BatchTimers.Own, Batch.Books, Batch.NewFrom, Batch.Handled;
      hide Batch.Called;
      hide Batch.Woken, Batch.TimedOut, TimeoutAnswer, TimeoutTo, WokeTo, TurnTo, Batch.OnlyClient;
      CalledClient(i, handler);
      NotOwned();
      if handler == Sleeping {
        rval := HandleSleepingTimer(i, input.tick, input.choices(i));
        WokeLater(old(SpotOf(i)), SpotOf(i), input.tick, input.choices(i));
      } else {
        rval := HandleUrlCompletionTimer(i, input.tick, input.choices(i));
      }
      NotRunning(i);
      ClientHandled(i, handler, input, rval, now);
    }

    lemma WokeLater(s: Spot, t: Spot, now: nat, choice: Choice)
      requires WokeTo(s, t, now, choice)
      ensures t.timer.Armed? ==> t.timer.next > now
    {
    }

    lemma CalledClient(i: nat, handler: Handler)
      requires Called(i, handler) && (handler == Sleeping || handler == UrlCompletion)
      ensures i < |clients| < |timers.view| && timers.view[i].Off? && clientsCurrentSchedNum <= |clients|
      ensures if handler == Sleeping then Woken(i) else TimedOut(i)
      ensures clients[i].clientState != Init && Sized(EnvNow(), Now())
    {
    }

    /** handle_gradual_increase_clients_num_timer. */
    method HandleRampUp(i: nat, input: Input, ghost now: nat) returns (rval: int)
      requires QueueOk() && Called(i, RampUp) && now <= input.tick
      modifies `clients, `multi, `asleep, `fetched, `activeClientsCount, `sleepingClientsCount, timers.Own()
      modifies `cyclingCompleted, `requestsCompleted, `steps, `clientsCurrentSchedNum, `doGradualIncrease
      ensures QueueOk() && Books() && timers.OwnsOnlyNew() && Handled(i, rval, now)
      ensures cyclingCompleted == old(cyclingCompleted)
      ensures timers.current == old(timers.current) && timers.held == old(timers.held)
      ensures old(Sized(EnvNow(), Now())) && TurnTo(EnvNow(), old(Now()), Now(), RampUp, i, input, rval)
    {
      hide Batch.QueueOk, BatchTimers.OwnsOnlyNew, BatchTimers.Own, Batch.Books, Batch.NewFrom, Batch.SpotOf, AddedTo;
      hide LoadFails, ViewGrown;
      CalledRampUp(i);
      NotOwned();
      rval := AddLoadingClients(input.tick, input.choices);
      RampHandled(i, input, rval, now);
    }

    lemma CalledRampUp(i: nat)
      requires Called(i, RampUp)
      ensures i == |clients| + 2 && Books() && NewFrom(clientsCurrentSchedNum) && rampupInc > 0
      ensures Sized(EnvNow(), Now())
    {
    }

    twostate lemma RampHandled(new i: nat, new input: Input, new rval: int, new now: nat)
      requires i == |clients| + 2 && |clients| == |old(clients)| && old(Sized(EnvNow(), Now())) && now <= input.tick
      requires clientsCurrentSchedNum <= |clients| && (rval == 0 ==> NewFrom(clientsCurrentSchedNum))
      requires ViewGrown(old(timers.view), timers.view, |clients|, input.tick)
      requires AddedTo(EnvNow(), old(Now()), Now(), input.tick, input.choices, rval)
      ensures Handled(i, rval, now) && TurnTo(EnvNow(), old(Now()), Now(), RampUp, i, input, rval)
    {
      hide LoadFails, RangeStarted, SchedAfter, GradualAfter, LoadEnd;
    }

    /** The handlers of the logfile and the screen timer touch no client. */
    method HandleOther(i: nat, handler: Handler, input: Input, ghost now: nat) returns (rval: int)
      requires Called(i, handler) && handler != Sleeping && handler != UrlCompletion && handler != RampUp
      ensures Books() && Handled(i, rval, now)
      ensures Sized(EnvNow(), Now()) && TurnTo(EnvNow(), Now(), Now(), handler, i, input, rval)
    {
      rval := if handler == LogfileRewinding && !input.logfileOk then -1 else 0;
    }

    /** func_timer of the timer that was popped. */
    method Handle(i: nat, handler: Handler, input: Input, ghost now: nat) returns (rval: int)
      requires QueueOk() && Called(i, handler) && now <= input.tick
      modifies `clients, `multi, `asleep, `fetched, `activeClientsCount, `sleepingClientsCount, timers.Own()
      modifies `cyclingCompleted, `requestsCompleted, `steps, `clientsCurrentSchedNum, `doGradualIncrease
      ensures QueueOk() && Books() && timers.OwnsOnlyNew() && Handled(i, rval, now)
      ensures cyclingCompleted == old(cyclingCompleted)
      ensures timers.current == old(timers.current) && timers.held == old(timers.held)
      ensures old(Sized(EnvNow(), Now())) && TurnTo(EnvNow(), old(Now()), Now(), handler, i, input, rval)
    {
      hide Batch.QueueOk, BatchTimers.Own, Batch.Books, Batch.Called, Batch.Handled, TurnTo;
      match handler {
        case Sleeping | UrlCompletion =>
          rval := HandleClient(i, handler, input, now);
        case RampUp =>
          rval := HandleRampUp(i, input, now);
        case _ =>
          rval := HandleOther(i, handler, input, now);
      }
    }

    // ---------------------------------------------------------------- dispatching

    /** Popping timer i for its handler. */
    twostate lemma PoppedIsCalled(new i: nat, new handler: Handler)
      requires old(Books() && PeriodicOk() && RampOk() && timers.First(i)) && handler == old(timers.view)[i].handler
      requires timers.view == old(timers.view)[i := Popped(old(timers.view)[i])]
      requires clients == old(clients) && multi == old(multi) && asleep == old(asleep) && steps == old(steps)
      requires activeClientsCount == old(activeClientsCount) && sleepingClientsCount == old(sleepingClientsCount)
      requires cyclingCompleted == old(cyclingCompleted) && clientsCurrentSchedNum == old(clientsCurrentSchedNum)
      requires fetched == old(fetched)
      ensures Called(i, handler) && PeriodicOk() && RampOk()
    {
      assert old(BooksBut(i));
      OthersKept(i);
      if i < |clients| {
        assert old(ClientOk(i));
        assert ProgressOf(i) == old(ProgressOf(i));
      } else {
        assert Books();
      }
    }

    /** The ramp-up step in progress has failed, or the clients still to be started are new. */
    ghost predicate RampPending(i: nat, rval: int)
      reads this`clients, this`steps, this`clientsCurrentSchedNum, timers`view
    {
      && clientNumStart <= |clients| && clientsCurrentSchedNum <= |clients| < |timers.view| - 2
      && (!timers.view[|clients| + 2].Off? ==>
           (i == |clients| + 2 && rval == -1) || (rampupInc > 0 && NewFrom(clientsCurrentSchedNum)))
    }

    twostate lemma HandledSound(new i: nat, new handler: Handler, new rval: int, new now: nat)
      requires old(PeriodicOk() && RampOk() && Called(i, handler)) && Handled(i, rval, now)
      ensures |clients| == |old(clients)|
      ensures PeriodicOk() && RampPending(i, rval) && ViewGrown(old(timers.view), timers.view, |clients|, now)
      ensures i >= |clients| && i < |timers.view| ==> i < |old(timers.view)| && timers.view[i] == old(timers.view)[i]
      ensures i < |timers.view| && (if i < |clients| then !timers.view[i].Running? else timers.view[i].Running?)
    {
    }

    twostate lemma FinishedSound(new i: nat, new rval: int, now: nat)
      requires old(Books() && PeriodicOk() && RampPending(i, rval) && i < |timers.view|)
      requires i >= |old(clients)| ==> old(timers.view)[i].Running?
      requires timers.view == old(timers.view)[i := Finished(old(timers.view)[i], now, rval)]
      requires clients == old(clients) && multi == old(multi) && asleep == old(asleep) && steps == old(steps)
      requires activeClientsCount == old(activeClientsCount) && sleepingClientsCount == old(sleepingClientsCount)
      requires cyclingCompleted == old(cyclingCompleted) && clientsCurrentSchedNum == old(clientsCurrentSchedNum)
      requires fetched == old(fetched)
      ensures Books() && PeriodicOk() && RampOk()
    {
      assert old(BooksBut(i));
      OthersKept(i);
      if i < |clients| {
        assert old(ClientOk(i));
        assert timers.view == old(timers.view);
      }
    }

    method BeginFire() returns (node: HNode, k: nat)
      requires Sound() && exists j :: 0 <= j < |timers.view| && timers.view[j].Armed?
      modifies timers.Own()
      ensures QueueOk() && timers.OwnsOnlyNew() && timers.current == k && timers.held == node && old(timers.First(k))
      ensures timers.view == old(timers.view)[k := Popped(old(timers.view)[k])]
      ensures k < |timers.nodes| && Called(k, timers.nodes[k].handler) && PeriodicOk() && RampOk()
      ensures k < |old(timers.view)| && old(timers.view)[k].Armed?
      ensures timers.nodes[k].handler == HandlerOf(old(timers.view), k)
    {
      hide BatchTimers.Ok, BatchTimers.Own, Batch.Books, Batch.PeriodicOk, Batch.RampOk, Batch.Called;
      node, k := timers.Begin();
      PoppedIsCalled(k, timers.nodes[k].handler);
    }

    method FinishFire(node: HNode, k: nat, now: nat, rval: int) returns (r: int)
      requires QueueOk() && Books() && PeriodicOk() && RampPending(k, rval) && timers.current == k
      requires timers.held == node && k < |timers.view|
      requires k >= |clients| ==> timers.view[k].Running?
      modifies timers.Own()
      ensures Sound() && timers.OwnsOnlyNew() && r == rval
      ensures timers.view == old(timers.view)[k := Finished(old(timers.view)[k], now, rval)]
    {
      hide BatchTimers.Ok, BatchTimers.Own, Batch.Books, Batch.PeriodicOk, Batch.RampOk, Batch.RampPending;
      r := timers.Finish(node, k, now, rval);
      FinishedSound(k, rval, now);
    }

    twostate lemma PoppedSpots(new i: nat)
      requires clients == old(clients) && multi == old(multi) && asleep == old(asleep) && steps == old(steps)
      requires i < |old(timers.view)| && |timers.view| == |old(timers.view)|
      requires forall j :: 0 <= j < |timers.view| && j != i ==> timers.view[j] == old(timers.view)[j]
      requires fetched == old(fetched)
      ensures forall j :: 0 <= j < |clients| && j != i ==> SpotOf(j) == old(SpotOf(j))
      ensures i < |clients| ==> SpotOf(i) == old(SpotOf(i)).(timer := timers.view[i])
      ensures timers.view[i] == old(timers.view)[i] ==> Spots() == old(Spots())
      ensures i >= |clients| ==> Spots() == old(Spots())
    {
    }

    /** tq_dispatch_nearest_timer up to where the handler has returned. */
    method FireHandler(now: nat, inputs: nat -> Input) returns (node: HNode, k: nat, rval: int, ghost popped: Snap)
      requires Sound() && (forall n :: now <= inputs(n).tick)
      requires exists j :: 0 <= j < |timers.view| && timers.view[j].Armed?
      modifies `clients, `multi, `asleep, `fetched, `activeClientsCount, `sleepingClientsCount, timers.Own()
      modifies `cyclingCompleted, `requestsCompleted, `steps, `clientsCurrentSchedNum, `doGradualIncrease
      ensures QueueOk() && Books() && PeriodicOk() && RampPending(k, rval) && timers.OwnsOnlyNew()
      ensures timers.current == k && timers.held == node && old(timers.First(k)) && |clients| == |old(clients)|
      ensures k < |timers.view| && (if k < |clients| then !timers.view[k].Running? else timers.view[k].Running?)
      ensures k < |old(timers.view)| && old(timers.view)[k].Armed? && cyclingCompleted == old(cyclingCompleted)
      ensures popped.view == old(timers.view)[k := Popped(old(timers.view)[k])]
      ensures popped.sched == old(clientsCurrentSchedNum) && popped.gradual == old(doGradualIncrease)
      ensures |popped.spots| == |old(clients)| && forall j :: 0 <= j < |popped.spots| && j != k ==>
        popped.spots[j] == old(SpotOf(j))
      ensures k < |popped.spots| ==> popped.spots[k] == old(SpotOf(k)).(timer := popped.spots[k].timer)
      ensures ViewGrown(popped.view, timers.view, |clients|, now)
      ensures k >= |clients| ==> k < |popped.view| && timers.view[k] == popped.view[k]
      ensures Sized(EnvNow(), popped)
      ensures TurnTo(EnvNow(), popped, Now(), HandlerOf(old(timers.view), k), k, inputs(k), rval)
    {
      hide Batch.QueueOk, BatchTimers.Own, Batch.Books, Batch.PeriodicOk, Batch.RampOk, Batch.Called, Batch.RampPending;
      hide Batch.Handled, ViewGrown, TurnTo, Batch.SpotOf, HandlerOf, BatchTimers.First;
      NotOwned();
      node, k := BeginFire();
      var handler := timers.nodes[k].handler;
      popped := Now();
      label Popped:
      PoppedSpots(k);
      NotOwned();
      rval := Handle(k, handler, inputs(k), now);
      HandledSound@Popped(k, handler, rval, now);
    }

    /** tq_dispatch_nearest_timer: the nearest timer is fired. */
    method Fire(now: nat, inputs: nat -> Input) returns (r: int, ghost i: nat)
      requires Sound() && (forall n :: now <= inputs(n).tick)
      requires exists j :: 0 <= j < |timers.view| && timers.view[j].Armed?
      modifies `clients, `multi, `asleep, `fetched, `activeClientsCount, `sleepingClientsCount, timers.Own()
      modifies `cyclingCompleted, `requestsCompleted, `steps, `clientsCurrentSchedNum, `doGradualIncrease
      ensures Sound() && timers.OwnsOnlyNew() && old(timers.First(i)) && Fired(old(timers.view), timers.view, i, now)
      ensures |timers.view| == |old(timers.view)| && i < |timers.view|
      ensures i >= |clients| ==> timers.view[i] == Finished(Popped(old(timers.view)[i]), now, r)
      ensures cyclingCompleted == old(cyclingCompleted) && old(Sized(EnvNow(), Now()))
      ensures TurnTo(EnvNow(), old(Now()), Now(), HandlerOf(old(timers.view), i), i, inputs(i), r)
    {
      hide Batch.QueueOk, BatchTimers.Own, Batch.Books, Batch.PeriodicOk, Batch.RampPending, Fired;
      hide Batch.RampOk, ViewGrown, TurnTo, Batch.SpotOf, HandlerOf, BatchTimers.First;
      SizedSound();
      ghost var a := Now();
      var node, k, rval;
      ghost var popped;
      node, k, rval, popped := FireHandler(now, inputs);
      i := k;
      ghost var b := Now();
      label Returned:
      NotOwned();
      r := FinishFire(node, k, now, rval);
      PoppedSpots@Returned(k);
      GrownIsLater(popped.view, b.view, |clients|, now);
      FiredView(a.view, popped.view, b.view, timers.view, k, now, rval);
      WholeTurn(EnvNow(), a, popped, b, Now(), HandlerOf(a.view, k), k, inputs(k), rval);
    }

    lemma SizedSound()
      requires Sound()
      ensures Sized(EnvNow(), Now()) && |timers.view| == |clients| + 3 && this !in timers.Own() && InView(Now())
    {
    }

    /** dispatch_expired_timers. The due timers fire in the order of their times, each once, until the
        handler of one of them answers -1 or none is due any more; each handler does to its client,
        or to the clients it starts, what it would have done on its own. */
    method DispatchExpiredTimers(now: nat, inputs: nat -> Input) returns (r: int, ghost fired: seq<nat>)
      requires Sound() && forall n :: now <= inputs(n).tick
      modifies `clients, `multi, `asleep, `fetched, `activeClientsCount, `sleepingClientsCount, timers.Own()
      modifies `cyclingCompleted, `requestsCompleted, `steps, `clientsCurrentSchedNum, `doGradualIncrease
      ensures Sound() && timers.OwnsOnlyNew() && cyclingCompleted == old(cyclingCompleted)
      ensures old(Sized(EnvNow(), Now()))
      ensures Dispatched(old(timers.view), timers.view, fired, old(Failing(EnvNow(), Now(), now, inputs)), now, r)
      ensures TurnsTo(EnvNow(), old(Now()), Now(), fired, now, inputs)
    {
      hide Batch.Sound, BatchTimers.Own, FiredSoFar, Dispatched, Due, Failing, TurnsTo, Batch.Spots, Batch.SpotOf;
      hide Sized, Members;
      SizedSound();
      ghost var a := Now();
      ghost var failing := Failing(EnvNow(), a, now, inputs);
      fired := [];
      var count := 0;
      NothingFired(timers.view, now);
      NoTurns(EnvNow(), a, now, inputs);
      while true
        invariant Sound() && timers.OwnsOnlyNew() && cyclingCompleted == old(cyclingCompleted)
        invariant FiredSoFar(a.view, timers.view, fired, now) && TurnsTo(EnvNow(), a, Now(), fired, now, inputs)
        invariant count == |fired| && failing !! Members(fired)
        decreases |Due(timers.view, now)|
      {
        var due := NearestIsDue(now);
        if !due {
          r := count;
          break;
        }
        ghost var i;
        r, i := DispatchOne(now, inputs, a, failing, fired);
        FiredOneMore(fired, i);
        fired := fired + [i];
        if r == -1 {
          break;
        }
        count := count + 1;
      }
      Concluded(a.view, timers.view, fired, failing, now, r);
    }

    /** One round of the dispatch. */
    method DispatchOne(now: nat, inputs: nat -> Input, ghost a: Snap, ghost failing: set<nat>,
                       ghost fired: seq<nat>) returns (rval: int, ghost i: nat)
      requires Sound() && (forall n :: now <= inputs(n).tick) && Due(timers.view, now) != {} && Sized(EnvNow(), a)
      requires failing == Failing(EnvNow(), a, now, inputs)
      requires InView(a)
      requires FiredSoFar(a.view, timers.view, fired, now) && TurnsTo(EnvNow(), a, Now(), fired, now, inputs)
      modifies `clients, `multi, `asleep, `fetched, `activeClientsCount, `sleepingClientsCount, timers.Own()
      modifies `cyclingCompleted, `requestsCompleted, `steps, `clientsCurrentSchedNum, `doGradualIncrease
      ensures Sound() && timers.OwnsOnlyNew() && cyclingCompleted == old(cyclingCompleted)
      ensures FiredSoFar(a.view, timers.view, fired + [i], now) && TurnsTo(EnvNow(), a, Now(), fired + [i], now, inputs)
      ensures |Due(timers.view, now)| < |old(Due(timers.view, now))|
      ensures rval == -1 <==> i in failing
    {
      hide Batch.Sound, BatchTimers.Own, BatchTimers.OwnsOnlyNew, FiredSoFar, Fired, Due, NextDue, TurnsTo, FailsIn;
      hide HandlerOf, Batch.Spots;
      hide Batch.SpotOf;
      SizedSound();
      ghost var b := Now();
      rval, i := FireDue(now, inputs);
      SameHandler(a.view, b.view, fired, i, now);
      FireOne(a.view, b.view, timers.view, fired, i, now);
      StillFails(EnvNow(), a, b, fired, now, inputs, i);
      TurnMore(EnvNow(), a, b, Now(), fired, now, inputs, i, rval);
    }

    /** Whether the queue is not empty and its nearest timer has expired. */
    method NearestIsDue(now: nat) returns (due: bool)
      requires Sound()
      ensures due <==> Due(timers.view, now) != {}
    {
      hide BatchTimers.Ok, Batch.Books, Batch.PeriodicOk, Batch.RampOk, BatchTimers.Own;
      var empty, time := timers.Nearest();
      due := !empty && time <= now;
      if !empty {
        ghost var i: nat :| timers.First(i) && timers.view[i].next == time;
        assert due ==> i in Due(timers.view, now);
      }
    }

    method FireDue(now: nat, inputs: nat -> Input) returns (r: int, ghost i: nat)
      requires Sound() && (forall n :: now <= inputs(n).tick) && Due(timers.view, now) != {}
      modifies `clients, `multi, `asleep, `fetched, `activeClientsCount, `sleepingClientsCount, timers.Own()
      modifies `cyclingCompleted, `requestsCompleted, `steps, `clientsCurrentSchedNum, `doGradualIncrease
      ensures Sound() && timers.OwnsOnlyNew() && Fired(old(timers.view), timers.view, i, now)
      ensures |timers.view| == |old(timers.view)| && i < |timers.view|
      ensures i >= |clients| ==> timers.view[i] == Finished(Popped(old(timers.view)[i]), now, r)
      ensures cyclingCompleted == old(cyclingCompleted) && old(Sized(EnvNow(), Now()))
      ensures NextDue(old(timers.view), i, now)
      ensures TurnTo(EnvNow(), old(Now()), Now(), HandlerOf(old(timers.view), i), i, inputs(i), r)
    {
      hide Batch.Sound, BatchTimers.Own, BatchTimers.OwnsOnlyNew, Fired, TurnTo, HandlerOf, Batch.Spots;
      ghost var j :| j in Due(timers.view, now);
      r, i := Fire(now, inputs);
    }

    // ---------------------------------------------------------------- the batch as a whole

    /** What the accounting invariant says, spelled out: the counters are what they count, a
        client has one timer at most, and knows its completion timer's id while it is queued. */
    lemma Accounting()
      requires Sound()
      ensures activeClientsCount == |multi| && |timers.view| == |clients| + 3 && |steps| == |clients| && ConfigOk(cfg)
      ensures sleepingClientsCount ==
        |set i | 0 <= i < |clients| && timers.view[i].Armed? && timers.view[i].handler == Sleeping|
      ensures forall i :: 0 <= i < |clients| ==> ClientFacts(i)
      ensures forall i :: 0 <= i < |clients| ==> steps[i] <= cfg.cyclesNum * cfg.urlsNum + cfg.urlsNum + 1
    {
      hide Batch.QueueOk, Batch.PeriodicOk, Batch.RampOk, Batch.ClientOk;
      forall i | 0 <= i < |clients|
        ensures ClientFacts(i) && (i in asleep <==> timers.view[i].Armed? && timers.view[i].handler == Sleeping)
        ensures steps[i] <= cfg.cyclesNum * cfg.urlsNum + cfg.urlsNum + 1
      {
        FactsOf(i);
      }
      assert asleep == set i | 0 <= i < |clients| && timers.view[i].Armed? && timers.view[i].handler == Sleeping;
    }

    lemma FactsOf(i: nat)
      requires Books() && i < |clients|
      ensures |timers.view| == |clients| + 3 && |steps| == |clients|
      ensures ClientFacts(i) && (i in asleep <==> timers.view[i].Armed? && timers.view[i].handler == Sleeping)
      ensures i !in multi && i !in asleep ==> Resting(i)
    {
      assert ClientOk(i);
    }

    ghost predicate ClientFacts(i: nat)
      requires i < |clients| == |steps| && i < |timers.view| && ConfigOk(cfg)
      reads this`clients, this`multi, this`steps, timers`view
    {
      && (i in multi ==> !(timers.view[i].Armed? && timers.view[i].handler == Sleeping))
      && (clients[i].tidUrlCompletion != -1 <==> timers.view[i].Armed? && timers.view[i].handler == UrlCompletion)
      && (clients[i].tidUrlCompletion != -1 ==> clients[i].tidUrlCompletion == timers.view[i].id && i in multi)
      && steps[i] <= MaxSteps()
    }

    /** pending_active_and_waiting_clients_num, with no fixed request rate. */
    method PendingClients() returns (total: nat)
      requires Sound()
      ensures total == |multi| + |asleep|
      ensures total == 0 <==> forall i :: 0 <= i < |clients| ==> i !in multi && i !in asleep
      ensures total == 0 ==> forall i :: 0 <= i < |clients| ==> Resting(i)
    {
      hide Batch.QueueOk, Batch.PeriodicOk, Batch.RampOk, Batch.ClientOk, Batch.Resting;
      total := activeClientsCount + sleepingClientsCount;
      NobodyPending();
      forall i | 0 <= i < |clients| && i !in multi && i !in asleep ensures Resting(i) {
        FactsOf(i);
      }
    }

    lemma NobodyPending()
      requires Counted()
      ensures activeClientsCount + sleepingClientsCount == 0 <==> forall i :: 0 <= i < |clients| ==>
        i !in multi && i !in asleep
    {
      if forall i :: 0 <= i < |clients| ==> i !in multi && i !in asleep {
        assert multi == {} && asleep == {};
      }
    }

    twostate lemma StepSound(new k: nat)
      requires old(PeriodicOk() && RampOk()) && OnlyClient(k) && k < |old(clients)|
      requires old(clients)[k].clientState != Init
      requires clientsCurrentSchedNum == old(clientsCurrentSchedNum)
      ensures PeriodicOk() && RampOk() && |clients| == |old(clients)| && |old(timers.view)| == |clients| + 3
    {
    }

    lemma Transferring(k: nat)
      requires Books() && k in multi
      ensures k < |clients| && clients[k].clientState != Init && MayStep(k)
    {
      assert ClientOk(k);
    }

    /** A callback of libcurl marks the client's transfer as failed. */
    method MarkFailed(k: nat)
      requires Sound() && k in multi
      modifies `clients
      ensures Sound() && k < |clients| && clients == old(clients)[k := old(clients[k]).(clientState := Error)]
      ensures k < |old(Spots())| && Now() == Marked(old(Now()), k)
    {
      hide Batch.QueueOk, Batch.Books, Batch.PeriodicOk, Batch.RampOk;
      Transferring(k);
      clients := clients[k := clients[k].(clientState := Error)];
      MarkedBooks(k);
      StepSound(k);
      SpotMarked(k);
    }

    twostate lemma SpotMarked(new k: nat)
      requires k < |old(clients)| && clients == old(clients)[k := old(clients)[k].(clientState := Error)]
      requires multi == old(multi) && asleep == old(asleep) && steps == old(steps) && timers.view == old(timers.view)
      requires fetched == old(fetched)
      ensures Spots() == old(Spots())[k := FailedSpot(old(Spots())[k])]
    {
    }

    twostate lemma MarkedBooks(new k: nat)
      requires old(Books()) && k in multi && k < |old(clients)|
      requires clients == old(clients)[k := old(clients)[k].(clientState := Error)]
      requires multi == old(multi) && asleep == old(asleep) && steps == old(steps)
      requires cyclingCompleted == old(cyclingCompleted)
      requires activeClientsCount == old(activeClientsCount) && sleepingClientsCount == old(sleepingClientsCount)
      requires timers.view == old(timers.view)
      requires fetched == old(fetched)
      ensures Books() && OnlyClient(k)
    {
      assert old(BooksBut(k) && ClientOk(k));
      OthersKept(k);
      assert ProgressOf(k) == old(ProgressOf(k));
      assert ClientOk(k);
    }

    /** mperform_smooth at the end of a transfer. */
    method TransferDone(k: nat, failed: bool, now: nat, choice: Choice) returns (r: CState)
      requires Sound() && k in multi
      modifies `clients, `multi, `asleep, `fetched, `activeClientsCount, `sleepingClientsCount, timers.Own()
      modifies `cyclingCompleted, `requestsCompleted, `steps
      ensures Sound() && timers.OwnsOnlyNew() && k < |clients| == |old(clients)|
      ensures requestsCompleted == (old(requestsCompleted) || (runTime != 0 && now - startTime >= runTime))
      ensures runTime != 0 && now - startTime >= runTime ==> r == FinishedOk && ProgressOf(k) == old(ProgressOf(k))
      ensures DoneTo(EnvNow(), old(Now()), old(cyclingCompleted), Now(), cyclingCompleted, k, failed, now, choice, r)
    {
      hide Batch.QueueOk, Batch.Books, Batch.PeriodicOk, Batch.RampOk, Batch.OnlyClient, BatchTimers.Own, StepTo;
      hide Batch.SpotOf;
      NotOwned();
      Transferring(k);
      if failed {
        MarkFailed(k);
      }
      Transferring(k);
      label Marked:
      var schedNow;
      r, schedNow := LoadNextStep(k, now, choice);
      StepSound@Marked(k);
      OthersSame@Marked(k);
    }

    twostate lemma OthersSame(new k: nat)
      requires OnlyClient(k)
      ensures forall i :: 0 <= i < |clients| && i != k ==> SpotOf(i) == old(SpotOf(i))
      ensures |timers.view| == |old(timers.view)| && forall i :: 0 <= i < |timers.view| && i != k ==>
        timers.view[i] == old(timers.view)[i]
    {
    }

    twostate lemma PeriodicArmed(new i: nat)
      requires old(Books() && PeriodicOk() && RampOk()) && |clients| <= i < |timers.view|
      requires |timers.view| == |old(timers.view)| && timers.view == old(timers.view)[i := timers.view[i]]
      requires clients == old(clients) && multi == old(multi) && asleep == old(asleep) && steps == old(steps)
      requires activeClientsCount == old(activeClientsCount) && sleepingClientsCount == old(sleepingClientsCount)
      requires cyclingCompleted == old(cyclingCompleted) && clientsCurrentSchedNum == old(clientsCurrentSchedNum)
      requires PeriodicTimer(timers.view[i], PeriodicHandler(i - |clients|))
      requires i == |clients| + 2 ==> rampupInc > 0 && NewFrom(clientsCurrentSchedNum)
      requires fetched == old(fetched)
      ensures Books() && PeriodicOk() && RampOk()
    {
      assert old(BooksBut(i));
      OthersKept(i);
      assert Books();
    }

    /** A periodic timer of the batch is filled in and scheduled; its first run may be due later
        than one period from now. */
    method ArmPeriodic(i: nat, next: nat, period: nat, handler: Handler)
      requires Sound() && |clients| <= i < |timers.view| && timers.view[i].Off? && period >= 1000
      requires handler == PeriodicHandler(i - |clients|)
      requires i == |clients| + 2 ==> rampupInc > 0 && NewFrom(clientsCurrentSchedNum)
      modifies timers.Own()
      ensures Sound() && timers.OwnsOnlyNew()
      ensures |timers.view| == |old(timers.view)| && ArmedAs(timers.view[i], next, period, handler)
      ensures Spots() == old(Spots())
      ensures timers.view == old(timers.view)[i := timers.view[i]]
    {
      hide BatchTimers.Ok, BatchTimers.Own, Batch.Books, Batch.PeriodicOk, Batch.RampOk, Batch.NewFrom;
      var id := timers.Arm(i, next, period, handler);
      PeriodicArmed(i);
      PoppedSpots(i);
    }

    /** The counters are reset by a batch in which nothing happens yet. */
    method ResetCounters(now: nat)
      requires Sound() && multi == {} && asleep == {}
      modifies `startTime, `activeClientsCount, `sleepingClientsCount
      ensures Sound() && startTime == now
    {
      hide Batch.QueueOk, Batch.PeriodicOk, Batch.RampOk, Batch.ClientOk;
      assert activeClientsCount == sleepingClientsCount == 0;
      startTime := now;
      activeClientsCount, sleepingClientsCount := 0, 0;
      assert forall i :: 0 <= i < |clients| && old(ClientOk(i)) ==> ClientOk(i);
    }

    /** Nothing has happened in the batch yet. */
    ghost predicate Idle()
      reads this`clients, this`multi, this`asleep, this`steps, this`clientsCurrentSchedNum, this`doGradualIncrease
      reads timers`view
    {
      && NewFrom(0) && clientsCurrentSchedNum == 0 && !doGradualIncrease && multi == {} && asleep == {}
      && forall i :: 0 <= i < |timers.view| ==> timers.view[i].Off?
    }

    /** The first two periodic timers are scheduled and the counters reset. */
    method StartTimers(now: nat)
      requires Sound() && Idle()
      modifies `startTime, `activeClientsCount, `sleepingClientsCount, timers.Own()
      ensures Sound() && timers.OwnsOnlyNew() && startTime == now
      ensures |timers.view| == |old(timers.view)| == |clients| + 3
      ensures timers.view[|clients| + 2].Off? && Spots() == old(Spots())
      ensures ArmedAs(timers.view[|clients|], now + 10000, 10000, LogfileRewinding)
      ensures ArmedAs(timers.view[|clients| + 1], now + 3000, 1000, ScreenInput)
    {
      hide Batch.QueueOk, BatchTimers.Own, Batch.Books, Batch.NewFrom, Batch.SpotOf, ArmedAs;
      SizedSound();
      var n := |clients|;
      ArmPeriodic(n, now + 10000, 10000, LogfileRewinding);
      NotOwned();
      ArmPeriodic(n + 1, now + 3000, 1000, ScreenInput);
      NotOwned();
      ResetCounters(now);
    }

    /** The clients of the first start, in a batch whose ramp-up timer is not scheduled yet. */
    method AddFirstClients(tick: nat, choices: nat -> Choice) returns (r: int)
      requires Sound() && NewFrom(0) && clientsCurrentSchedNum == 0 && !doGradualIncrease
      requires |clients| + 2 < |timers.view| && timers.view[|clients| + 2].Off?
      modifies `clients, `multi, `asleep, `fetched, `activeClientsCount, `sleepingClientsCount, timers.Own()
      modifies `cyclingCompleted, `requestsCompleted, `steps, `clientsCurrentSchedNum, `doGradualIncrease
      ensures Sound() && timers.OwnsOnlyNew() && |clients| == |old(clients)| && |timers.view| == |clients| + 3
      ensures old(Sized(EnvNow(), Now())) && AddedTo(EnvNow(), old(Now()), Now(), tick, choices, r)
      ensures (r == 0 || r == -1) && cyclingCompleted == old(cyclingCompleted)
      ensures r == 0 && doGradualIncrease ==> rampupInc > 0 && NewFrom(clientsCurrentSchedNum)
      ensures forall i :: |clients| <= i < |timers.view| ==> timers.view[i] == old(timers.view)[i]
    {
      hide Batch.QueueOk, BatchTimers.Own, Batch.Books, Batch.NewFrom, Batch.SpotOf, BatchTimers.OwnsOnlyNew, LaterOnly;
      hide LoadFails, LoadEnd, RangeStarted;
      NotOwned();
      SizedNow();
      r := AddLoadingClients(tick, choices);
      SizedNow();
    }

    /** What a first start has come to, in numbers and by the clock. */
    lemma FirstInNumbers(a: Snap, tick: nat, choices: nat -> Choice, r: int)
      requires Sized(EnvNow(), a) && AddedTo(EnvNow(), a, Now(), tick, choices, r) && r == 0
      requires a.sched == 0 && |a.spots| == |clients|
      ensures clientsCurrentSchedNum == (if clientNumStart != 0 then clientNumStart
                                         else if rampupInc == 0 || rampupInc > |clients| then |clients| else rampupInc)
      ensures forall j :: 0 <= j < clientsCurrentSchedNum && j < |clients| ==>
        (j in multi <==> runTime == 0 || tick - startTime < runTime)
    {
      StartsInNumbers(EnvNow(), a, Now(), tick, choices, r);
      forall j | 0 <= j < clientsCurrentSchedNum && j < |clients|
        ensures j in multi <==> runTime == 0 || tick - startTime < runTime
      {
        assert Plainly.Started(EnvNow(), a.spots[j], Spots()[j], true, tick) && Spots()[j] == SpotOf(j);
      }
    }

    /** init_timers_and_add_initial_clients_to_load. */
    method InitTimersAndAddInitialClients(now: nat, tick: nat, choices: nat -> Choice) returns (r: int)
      requires Sound() && Idle()
      modifies `startTime, `clients, `multi, `asleep, `fetched, `activeClientsCount, `sleepingClientsCount, timers.Own()
      modifies `cyclingCompleted, `requestsCompleted, `steps, `clientsCurrentSchedNum, `doGradualIncrease
      ensures Sound() && timers.OwnsOnlyNew() && startTime == now && |timers.view| == |clients| + 3
      ensures |clients| == |old(clients)|
      ensures cyclingCompleted == old(cyclingCompleted) && Sized(EnvNow(), old(Now()))
      ensures AddedTo(EnvNow(), old(Now()), Now(), tick, choices, r)
      ensures r == 0 ==>
        && clientsCurrentSchedNum == (if clientNumStart != 0 then clientNumStart
                                      else if rampupInc == 0 || rampupInc > |clients| then |clients| else rampupInc)
        && forall j :: 0 <= j < clientsCurrentSchedNum ==> (j in multi <==> runTime == 0 || tick - now < runTime)
      ensures ArmedAs(timers.view[|clients|], now + 10000, 10000, LogfileRewinding)
      ensures ArmedAs(timers.view[|clients| + 1], now + 3000, 1000, ScreenInput)
      ensures if r == 0 && doGradualIncrease then ArmedAs(timers.view[|clients| + 2], now + 1000, 1000, RampUp)
              else timers.view[|clients| + 2].Off?
    {
      hide Batch.QueueOk, BatchTimers.Own, Batch.Books, Batch.NewFrom, Batch.SpotOf, AddedTo, ArmedAs;
      NotOwned();
      SizedSound();
      var n := |clients|;
      ghost var a := Now();
      StartTimers(now);
      NotOwned();
      ghost var b := Now();
      r := AddFirstClients(tick, choices);
      SameAdded(EnvNow(), a, b, Now(), Now(), tick, choices, r);
      if r == -1 {
        return;
      }
      NotOwned();
      ghost var c := Now();
      if doGradualIncrease {
        ArmPeriodic(n + 2, now + 1000, 1000, RampUp);
      }
      SameAdded(EnvNow(), a, b, c, Now(), tick, choices, r);
      FirstInNumbers(a, tick, choices, r);
    }

    lemma SameAdded(env: Env, a: Snap, b: Snap, c: Snap, d: Snap, tick: nat, choices: nat -> Choice, r: int)
      requires Sized(env, a) && Sized(env, b) && b == a.(view := b.view) && d == c.(view := d.view)
      requires AddedTo(env, b, c, tick, choices, r)
      ensures AddedTo(env, a, d, tick, choices, r)
    {
      SameLoad(env, a, b, tick, choices);
    }

    /** The batch between two events. */
    ghost function MomentNow(): Moment
      reads this`clients, this`multi, this`asleep, this`steps, this`fetched, this`cyclingCompleted, timers`view
      reads this`clientsCurrentSchedNum, this`doGradualIncrease
    {
      Moment(Now(), cyclingCompleted)
    }

    /** Any run of the batch over some events, for as long as the loop of the loader goes on: n of them
        happen, and `ms` are the moments between them. The loop ends exactly when nothing is left to do. */
    method Run(events: seq<Event>) returns (ended: bool, n: nat, ghost ms: seq<Moment>)
      requires Sound() && forall e :: e in events && e.Dispatch? ==> forall n :: e.now <= e.inputs(n).tick
      modifies `clients, `multi, `asleep, `fetched, `activeClientsCount, `sleepingClientsCount, timers.Own()
      modifies `cyclingCompleted, `requestsCompleted, `steps, `clientsCurrentSchedNum, `doGradualIncrease
      ensures Sound() && timers.OwnsOnlyNew() && |clients| == |old(clients)|
      ensures RunOf(EnvNow(), events, ms, ended) && |ms| == n + 1 && ms[0] == old(MomentNow()) && ms[n] == MomentNow()
      ensures n <= |events| && (!ended ==> n == |events|)
      ensures ended <==> !doGradualIncrease && forall i :: 0 <= i < |clients| ==> i !in multi && i !in asleep
      ensures ended ==> forall i :: 0 <= i < |clients| ==> Resting(i)
      ensures old(AllRest(Now()) && timers.view[|clients| + 2].Off?) ==> (ended <==> !old(Stuck(Now())))
      ensures old(Stuck(Now())) ==> !ended && Stuck(Now())
      ensures forall i :: 0 <= i <= n ==> |ms[i].snap.spots| == |clients|
      ensures Total(ms, Steps()) <= |clients| * MaxSteps() && Total(ms, Moves()) <= |clients| * (2 * MaxSteps() + 1)
    {
      hide Batch.Sound, BatchTimers.Own, RunSoFar, Stuck, AtEnd, Batch.MaxSteps, Batch.Spots, Batch.Resting, Total;
      SizedSound();
      n, ms := 0, [MomentNow()];
      RunStarts(EnvNow(), events, MomentNow());
      while true
        invariant n <= |events| && Sound() && timers.OwnsOnlyNew() && |clients| == |old(clients)|
        invariant RunSoFar(EnvNow(), events, ms) && |ms| == n + 1
        invariant ms[0] == old(MomentNow()) && ms[n] == MomentNow()
        decreases |events| - n
      {
        EndsNow();
        var pending := PendingClients();
        ended := pending == 0 && !doGradualIncrease;
        if ended || n == |events| {
          break;
        }
        SizedSound();
        ghost var m := MomentNow();
        Happen(events[n]);
        SizedSound();
        RunLonger(EnvNow(), events, ms, MomentNow());
        n, ms := n + 1, ms + [MomentNow()];
      }
      SameClients(EnvNow(), events, ms);
      MadeAtMost();
      RunBounded(EnvNow(), events, ms, MaxSteps());
      if Stuck(ms[0].snap) {
        StuckForGood(EnvNow(), events, ms, 0);
      }
      if AllRest(ms[0].snap) && ms[0].snap.view[|ms[0].snap.spots| + 2].Off? {
        RestEndsExactly(EnvNow(), events, ms, ended);
      }
    }

    lemma MadeAtMost()
      requires Sound()
      ensures ConfigOk(cfg) && NoMore(Spots(), MaxSteps())
    {
      hide Batch.QueueOk, Batch.PeriodicOk, Batch.RampOk, Batch.ClientOk, Batch.MaxSteps;
      forall i | 0 <= i < |clients| ensures Spots()[i].made <= MaxSteps() {
        FactsOf(i);
      }
    }

    lemma EndsNow()
      ensures AtEnd(Now()) <==> !doGradualIncrease && forall i :: 0 <= i < |clients| ==> i !in multi && i !in asleep
    {
      forall i | 0 <= i < |clients|
        ensures Spots()[i].transfers <==> i in multi
        ensures Spots()[i].sleeps <==> i in asleep
      {
        assert Spots()[i] == SpotOf(i);
      }
    }

    lemma CountedIn(k: nat)
      requires Sound() && k in multi
      ensures k < |clients| == |steps|
    {
    }

    method Happen(e: Event)
      requires Sound() && (e.Dispatch? ==> forall n :: e.now <= e.inputs(n).tick)
      modifies `clients, `multi, `asleep, `fetched, `activeClientsCount, `sleepingClientsCount, timers.Own()
      modifies `cyclingCompleted, `requestsCompleted, `steps, `clientsCurrentSchedNum, `doGradualIncrease
      ensures Sound() && timers.OwnsOnlyNew() && |clients| == |old(clients)| && old(Sized(EnvNow(), Now()))
      ensures EventTo(EnvNow(), old(Now()), old(cyclingCompleted), Now(), cyclingCompleted, e)
    {
      hide Batch.Sound, BatchTimers.Own, Dispatched, DoneTo, Batch.Spots, Due, Failing;
      SizedSound();
      match e {
        case Dispatch(now, inputs) =>
          var r, fired := DispatchExpiredTimers(now, inputs);
        case Done(k, failed, now, choice) =>
          if k in multi {
            CountedIn(k);
            var r := TransferDone(k, failed, now, choice);
          }
        case Failed(k) =>
          if k in multi {
            CountedIn(k);
            MarkFailed(k);
          }
      }
    }

    /** user_activity_smooth up to the start of the timers: the queue has one slot per timer of the
        batch. Null where the queue cannot be set up. */
    static method NewBatch(clientNumMax: nat, cfg: Config, freshConnect: seq<bool>, runTime: nat, errorRecovery: bool,
                           clientNumStart: nat, rampupInc: nat, nodeSize: nat, chunk: nat) returns (b: Batch?)
      requires ConfigOk(cfg) && |freshConnect| == cfg.urlsNum && clientNumStart <= clientNumMax
      ensures b == null <==> nodeSize == 0 || MemoryPool.Aligned(nodeSize) > chunk
      ensures b != null ==>
        && fresh(b) && fresh(b.timers.Own()) && b.Sound() && b.Idle() && |b.clients| == clientNumMax && b.cfg == cfg
        && b.fetched == map[] && b.cyclingCompleted == (cfg.first < 0)
        && (forall i :: 0 <= i < clientNumMax ==> b.clients[i] == NEW_CLIENT)
        && b.runTime == runTime && b.errorRecovery == errorRecovery && b.clientNumStart == clientNumStart
        && b.rampupInc == rampupInc
    {
      b := null;
      var timers := NewTimers(clientNumMax + 3, nodeSize, chunk);
      if timers != null {
        hide BatchTimers.Ok, BatchTimers.Own, Batch.Books, Batch.PeriodicOk, Batch.RampOk, Batch.NewFrom;
        b := new Batch(timers, clientNumMax, cfg, freshConnect, runTime, errorRecovery, clientNumStart, rampupInc);
      }
    }

    /** alloc_init_timer_waiting_queue, and a timer node for each of n timers. */
    static method NewTimers(n: nat, nodeSize: nat, chunk: nat) returns (timers: BatchTimers?)
      requires n > 0
      ensures timers == null <==> nodeSize == 0 || MemoryPool.Aligned(nodeSize) > chunk
      ensures timers != null ==> fresh(timers.Own()) && timers.Ok() && timers.current == -1 && |timers.view| == n
      ensures timers != null ==> forall i :: 0 <= i < |timers.view| ==> timers.view[i].Off?
    {
      hide TimerQueue.Valid, TimerQueue.Steady, BatchTimers.Ok;
      timers := null;
      var tq := TimerQueue.TqInit(n, 10, n, nodeSize, chunk);
      if tq != null {
        var nodes := NewNodes(n);
        timers := new BatchTimers(tq, nodes);
      }
    }

    static method NewNodes(n: nat) returns (nodes: seq<TimerNode>)
      ensures |nodes| == n && forall i :: 0 <= i < n ==> nodes[i].owner == i && fresh(nodes[i])
    {
      nodes := [];
      while |nodes| < n
        invariant |nodes| <= n && forall i :: 0 <= i < |nodes| ==> nodes[i].owner == i && fresh(nodes[i])
      {
        var node := new TimerNode(|nodes|);
        nodes := nodes + [node];
      }
    }
  }
}
