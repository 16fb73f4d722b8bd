/** loader_fsm.c: which url a client fetches next. The decision is a function of the
    client's position and of the batch-wide flag that cycling is over. */
module Cycling {
  /** cycles_num is at least 1 and the cycling urls, if any, are first..last inclusive. */
  datatype Config = Config(urlsNum: nat, first: int, last: int, cyclesNum: nat)

  /** The client's url index and cycle number, and the batch's cycling_completed. */
  datatype Progress = Progress(url: nat, cycle: nat, completed: bool)

  predicate ConfigOk(cfg: Config) {
    && cfg.urlsNum >= 1 && cfg.cyclesNum >= 1
    && (cfg.first == -1 == cfg.last || 0 <= cfg.first <= cfg.last < cfg.urlsNum)
  }

  /** While cycling goes on, the index has not passed the last cycling url and a cycle is left. */
  predicate ProgressOk(cfg: Config, p: Progress) {
    && p.url < cfg.urlsNum && p.cycle <= cfg.cyclesNum
    && (!p.completed ==> p.url <= cfg.last && p.cycle < cfg.cyclesNum)
  }

  /** find_first_cycling_url and find_last_cycling_url over the dont-cycle marks. */
  function FirstCycling(dontCycle: seq<bool>, i: nat): (f: int)
    requires i <= |dontCycle|
    ensures f == -1 || (i <= f < |dontCycle| && !dontCycle[f] && forall j :: i <= j < f ==> dontCycle[j])
    ensures f == -1 ==> forall j :: i <= j < |dontCycle| ==> dontCycle[j]
    decreases |dontCycle| - i
  {
    if i == |dontCycle| then -1 else if !dontCycle[i] then i else FirstCycling(dontCycle, i + 1)
  }

  method FindFirstCyclingUrl(dontCycle: seq<bool>) returns (first: int)
    ensures first == FirstCycling(dontCycle, 0)
  {
    var i := 0;
    first := -1;
    while i < |dontCycle|
      invariant i <= |dontCycle| && FirstCycling(dontCycle, 0) == FirstCycling(dontCycle, i)
    {
      if !dontCycle[i] {
        return i;
      }
      i := i + 1;
    }
  }

  method FindLastCyclingUrl(dontCycle: seq<bool>) returns (last: int)
    ensures last == -1 <==> FirstCycling(dontCycle, 0) == -1
    ensures last != -1 ==> FirstCycling(dontCycle, 0) <= last < |dontCycle| && !dontCycle[last]
    ensures forall j :: last < j < |dontCycle| ==> dontCycle[j]
  {
    last := -1;
    var i := 0;
    while i < |dontCycle|
      invariant i <= |dontCycle| && -1 <= last < i
      invariant last != -1 ==> !dontCycle[last]
      invariant forall j :: last < j < i ==> dontCycle[j]
    {
      if !dontCycle[i] {
        last := i;
      }
      i := i + 1;
    }
  }

  /** pick_up_next_url: the new position and the url to fetch, or -1. */
  function PickUp(cfg: Config, p: Progress): (Progress, int) {
    if p.completed then
      if p.url == cfg.urlsNum - 1 then (p, -1)
      else (p.(url := p.url + 1), p.url + 1)
    else if p.url < cfg.last then
      (p.(url := p.url + 1), p.url + 1)
    else if p.url == cfg.last then
      if p.cycle + 1 == cfg.cyclesNum then
        if p.url == cfg.urlsNum - 1 then (p.(cycle := p.cycle + 1, completed := true), -1)
        else (Progress(p.url + 1, p.cycle + 1, true), p.url + 1)
      else if cfg.first >= 0 then (p.(url := cfg.first, cycle := p.cycle + 1), cfg.first)
      else (p, -1)
    else (p, -1)
  }

  /** Steps a client still has before it: falls with every url picked up, an error restart
      included. */
  function Rank(cfg: Config, p: Progress): nat
    requires ConfigOk(cfg) && ProgressOk(cfg, p)
  {
    (cfg.cyclesNum - p.cycle) * cfg.urlsNum + (cfg.urlsNum - 1 - p.url)
  }

  lemma RankDrops(cfg: Config, p: Progress, q: Progress)
    requires ConfigOk(cfg) && ProgressOk(cfg, p) && ProgressOk(cfg, q)
    requires (q.cycle == p.cycle && q.url > p.url) || q.cycle == p.cycle + 1
    ensures Rank(cfg, q) < Rank(cfg, p)
  {
    if q.cycle == p.cycle + 1 {
      assert (cfg.cyclesNum - p.cycle) * cfg.urlsNum == (cfg.cyclesNum - q.cycle) * cfg.urlsNum + cfg.urlsNum;
    }
  }

  /** A pick-up keeps the position legal, comes closer to the end, and answers -1 only at the
      last url of the batch with cycling over: the final return of the source is never reached. */
  lemma PickUpProgress(cfg: Config, p: Progress)
    requires ConfigOk(cfg) && ProgressOk(cfg, p)
    ensures var (q, u) := PickUp(cfg, p);
      && ProgressOk(cfg, q) && (p.completed ==> q.completed)
      && (u == -1 <==> p.url == cfg.urlsNum - 1 && q.completed)
      && (u != -1 ==> u == q.url && Rank(cfg, q) < Rank(cfg, p))
  {
    var (q, u) := PickUp(cfg, p);
    if u != -1 {
      RankDrops(cfg, p, q);
    }
  }

  /** load_error_state starts over at the first url in the next cycle, if there is one. */
  lemma RestartProgress(cfg: Config, p: Progress)
    requires ConfigOk(cfg) && ProgressOk(cfg, p) && p.cycle + 1 < cfg.cyclesNum
    ensures var q := p.(url := 0, cycle := p.cycle + 1);
      ProgressOk(cfg, q) && Rank(cfg, q) < Rank(cfg, p)
  {
    RankDrops(cfg, p, p.(url := 0, cycle := p.cycle + 1));
  }

  /** The do-while loop of load_urls_state: pick-ups until a url is to be fetched, given the
      fetch decisions from the n-th on. */
  function NextFetched(cfg: Config, p: Progress, fetch: nat -> bool, n: nat): (Progress, int)
    requires ConfigOk(cfg) && ProgressOk(cfg, p)
    decreases Rank(cfg, p)
  {
    PickUpProgress(cfg, p);
    var (q, u) := PickUp(cfg, p);
    if u == -1 || fetch(n) then (q, u) else NextFetched(cfg, q, fetch, n + 1)
  }

  lemma {:induction false} NextFetchedProgress(cfg: Config, p: Progress, fetch: nat -> bool, n: nat)
    requires ConfigOk(cfg) && ProgressOk(cfg, p)
    ensures var (q, u) := NextFetched(cfg, p, fetch, n);
      && ProgressOk(cfg, q) && (p.completed ==> q.completed)
      && (u == -1 ==> q.url == cfg.urlsNum - 1 && q.completed)
      && (u != -1 ==> u == q.url && Rank(cfg, q) < Rank(cfg, p))
    decreases Rank(cfg, p)
  {
    PickUpProgress(cfg, p);
    var (q, u) := PickUp(cfg, p);
    if u != -1 && !fetch(n) {
      NextFetchedProgress(cfg, q, fetch, n + 1);
    }
  }

  /** The loop fetches the first url of the client's trace that is decided for, and nothing
      when there is none. */
  lemma {:induction false} NextFetchedIsFirst(cfg: Config, p: Progress, fetch: nat -> bool, n: nat) returns (j: nat)
    requires ConfigOk(cfg) && ProgressOk(cfg, p)
    ensures var u := NextFetched(cfg, p, fetch, n).1;
      && (forall i :: n <= i < n + j ==> !fetch(i))
      && (if u == -1 then j == |Trace(cfg, p)| else j < |Trace(cfg, p)| && fetch(n + j) && Trace(cfg, p)[j] == u)
    decreases Rank(cfg, p)
  {
    PickUpProgress(cfg, p);
    var (q, u) := PickUp(cfg, p);
    if u == -1 || fetch(n) {
      j := 0;
    } else {
      var rest := NextFetchedIsFirst(cfg, q, fetch, n + 1);
      assert Trace(cfg, p) == [u] + Trace(cfg, q);
      j := rest + 1;
    }
  }

  // ---------------------------------------------------------------- the trace of one client

  /** The urls fetched after the current one, without errors and skips. */
  function Trace(cfg: Config, p: Progress): seq<int>
    requires ConfigOk(cfg) && ProgressOk(cfg, p)
    decreases Rank(cfg, p)
  {
    PickUpProgress(cfg, p);
    var (q, u) := PickUp(cfg, p);
    if u == -1 then [] else [u] + Trace(cfg, q)
  }

  /** from, from + 1, ..., to - 1. */
  function Span(from: int, to: int): (s: seq<int>)
    ensures |s| == (if from < to then to - from else 0)
    decreases if from < to then to - from else 0
  {
    if from < to then [from] + Span(from + 1, to) else []
  }

  function Repeat(s: seq<int>, n: nat): (r: seq<int>)
    ensures |r| == n * |s|
  {
    if n == 0 then [] else s + Repeat(s, n - 1)
  }

  /** After cycling: straight on to the last url. */
  lemma {:induction false} TraceAfterCycling(cfg: Config, p: Progress)
    requires ConfigOk(cfg) && ProgressOk(cfg, p) && p.completed
    ensures Trace(cfg, p) == Span(p.url + 1, cfg.urlsNum)
    decreases cfg.urlsNum - p.url
  {
    if p.url < cfg.urlsNum - 1 {
      TraceAfterCycling(cfg, p.(url := p.url + 1));
    }
  }

  /** What is left from a position in the cycling region: the rest of this cycle, the cycles
      left, the tail. */
  ghost function Left(cfg: Config, p: Progress): seq<int>
    requires ConfigOk(cfg) && ProgressOk(cfg, p) && !p.completed
  {
    Span(p.url + 1, cfg.last + 1)
    + Repeat(Span(cfg.first, cfg.last + 1), cfg.cyclesNum - p.cycle - 1) + Span(cfg.last + 1, cfg.urlsNum)
  }

  lemma LeftAtLast(cfg: Config, p: Progress)
    requires ConfigOk(cfg) && ProgressOk(cfg, p) && !p.completed && p.url == cfg.last && p.cycle + 1 == cfg.cyclesNum
    ensures Left(cfg, p) == Span(cfg.last + 1, cfg.urlsNum)
  {
  }

  lemma LeftNextCycle(cfg: Config, p: Progress, q: Progress)
    requires ConfigOk(cfg) && ProgressOk(cfg, p) && !p.completed && p.url == cfg.last && p.cycle + 1 < cfg.cyclesNum
    requires q == p.(url := cfg.first, cycle := p.cycle + 1) && ProgressOk(cfg, q)
    ensures Left(cfg, p) == [cfg.first] + Left(cfg, q)
  {
    var cycle := Span(cfg.first, cfg.last + 1);
    assert cycle == [cfg.first] + Span(cfg.first + 1, cfg.last + 1);
    assert Repeat(cycle, cfg.cyclesNum - p.cycle - 1) == cycle + Repeat(cycle, cfg.cyclesNum - q.cycle - 1);
  }

  lemma LeftInCycle(cfg: Config, p: Progress)
    requires ConfigOk(cfg) && ProgressOk(cfg, p) && !p.completed && p.url < cfg.last
    ensures ProgressOk(cfg, p.(url := p.url + 1)) && Left(cfg, p) == [p.url + 1] + Left(cfg, p.(url := p.url + 1))
  {
    assert Span(p.url + 1, cfg.last + 1) == [p.url + 1] + Span(p.url + 2, cfg.last + 1);
  }

  lemma {:induction false} TraceInCycle(cfg: Config, p: Progress)
    requires ConfigOk(cfg) && ProgressOk(cfg, p) && !p.completed && cfg.first >= 0
    ensures Trace(cfg, p) == Left(cfg, p)
    decreases Rank(cfg, p)
  {
    hide Left, Span, Repeat;
    PickUpProgress(cfg, p);
    var (q, u) := PickUp(cfg, p);
    if p.url < cfg.last {
      LeftInCycle(cfg, p);
      TraceInCycle(cfg, q);
    } else if q.completed {
      LeftAtLast(cfg, p);
      SpanFirst(cfg.last + 1, cfg.urlsNum);
      if u != -1 {
        TraceAfterCycling(cfg, q);
      }
    } else {
      LeftNextCycle(cfg, p, q);
      TraceInCycle(cfg, q);
    }
  }

  lemma SpanFirst(from: int, to: int)
    ensures Span(from, to) == if from < to then [from] + Span(from + 1, to) else []
  {
  }

  lemma LeftAtStart(cfg: Config)
    requires ConfigOk(cfg) && cfg.first >= 0
    ensures var run := [0] + Left(cfg, Progress(0, 0, false));
      && run == Span(0, cfg.last + 1) + Repeat(Span(cfg.first, cfg.last + 1), cfg.cyclesNum - 1)
                + Span(cfg.last + 1, cfg.urlsNum)
      && |run| == cfg.urlsNum + (cfg.cyclesNum - 1) * (cfg.last - cfg.first + 1)
  {
    hide Repeat, Span;
    SpanFirst(0, cfg.last + 1);
  }

  /** The whole run of an error-free single client: 0..last, then first..last another
      cyclesNum - 1 times, then the rest; or simply every url once when nothing cycles. */
  lemma ExactTrace(cfg: Config)
    requires ConfigOk(cfg)
    ensures var cycling := cfg.first >= 0;
      var run := [0] + Trace(cfg, Progress(0, 0, !cycling));
      if cycling then
        && run == Span(0, cfg.last + 1) + Repeat(Span(cfg.first, cfg.last + 1), cfg.cyclesNum - 1)
                  + Span(cfg.last + 1, cfg.urlsNum)
        && |run| == cfg.urlsNum + (cfg.cyclesNum - 1) * (cfg.last - cfg.first + 1)
      else
        run == Span(0, cfg.urlsNum) && |run| == cfg.urlsNum
  {
    hide Trace, Repeat, Span, Left;
    if cfg.first >= 0 {
      TraceInCycle(cfg, Progress(0, 0, false));
      LeftAtStart(cfg);
    } else {
      TraceAfterCycling(cfg, Progress(0, 0, true));
      SpanFirst(0, cfg.urlsNum);
    }
  }
}
