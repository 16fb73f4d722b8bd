/** loader_fsm.c in fixed-request-rate mode: the stack of free clients, how many of them each
    invocation of the request-rate timer puts to work, and how they come back to it. */
module RequestRate {
  import opened Arith

  const INVS_PER_SEC: nat := 5

  /** What one invocation asks for, given the invocation counter it finds. */
  function Quota(reqRate: nat, invocation: nat): nat {
    reqRate / INVS_PER_SEC + if reqRate % INVS_PER_SEC > invocation % INVS_PER_SEC then 1 else 0
  }

  /** A fifth of the rate, rounded down or up: up exactly in the first `rate % 5` of the five phases. */
  ghost predicate FairShare(rate: nat, phase: nat, n: nat) {
    rate - 5 < 5 * n < rate + 5 && (5 * n > rate <==> phase < rate % 5)
  }

  lemma QuotaIsFair(reqRate: nat, invocation: nat)
    ensures FairShare(reqRate, invocation % 5, Quota(reqRate, invocation))
  {
  }

  /** The largest number that exceeds neither a share nor the room there is: one more would. */
  ghost predicate Fits(n: nat, share: nat, room: int) {
    n <= share && (n == 0 || n <= room) && (n == share || n + 1 > room)
  }

  /** What an invocation asks for: its fair share, in ramp-up as much of it as there is room for. */
  ghost predicate AsksFor(rate: nat, phase: nat, rampUp: bool, room: int, n: nat) {
    exists share: nat :: FairShare(rate, phase, share) && if rampUp then Fits(n, share, room) else n == share
  }

  /** The counter the next invocation finds. */
  function NextInvocation(invocation: nat): nat {
    invocation % INVS_PER_SEC + 1
  }

  /** What n invocations in a row ask for together. */
  function Asked(reqRate: nat, invocation: nat, n: nat): nat
    decreases n
  {
    if n == 0 then 0 else Quota(reqRate, invocation) + Asked(reqRate, NextInvocation(invocation), n - 1)
  }

  /** What five invocations ask for, from each of the five phases on. */
  lemma OneSecond(reqRate: nat, i0: nat, i1: nat, i2: nat, i3: nat, i4: nat)
    requires i1 == NextInvocation(i0) && i2 == NextInvocation(i1) && i3 == NextInvocation(i2)
    requires i4 == NextInvocation(i3)
    ensures Quota(reqRate, i0) + Quota(reqRate, i1) + Quota(reqRate, i2) + Quota(reqRate, i3) + Quota(reqRate, i4)
            == reqRate
  {
    var phase := i0 % INVS_PER_SEC;
    assert phase == 0 || phase == 1 || phase == 2 || phase == 3 || phase == 4;
  }

  lemma AskedInOneSecond(reqRate: nat, i0: nat, n: nat) returns (i5: nat)
    ensures Asked(reqRate, i0, n + INVS_PER_SEC) == reqRate + Asked(reqRate, i5, n)
  {
    var i1 := NextInvocation(i0);
    var i2 := NextInvocation(i1);
    var i3 := NextInvocation(i2);
    var i4 := NextInvocation(i3);
    i5 := NextInvocation(i4);
    OneSecond(reqRate, i0, i1, i2, i3, i4);
    hide Quota, NextInvocation;
    assert Asked(reqRate, i4, n + 1) == Quota(reqRate, i4) + Asked(reqRate, i5, n);
    assert Asked(reqRate, i3, n + 2) == Quota(reqRate, i3) + Asked(reqRate, i4, n + 1);
    assert Asked(reqRate, i2, n + 3) == Quota(reqRate, i2) + Asked(reqRate, i3, n + 2);
    assert Asked(reqRate, i1, n + 4) == Quota(reqRate, i1) + Asked(reqRate, i2, n + 3);
  }

  /** Any five invocations in a row ask for the request rate exactly, wherever they start, so n
      seconds of them ask for n times the rate. */
  lemma {:induction false} FiveInvocations(reqRate: nat, invocation: nat, seconds: nat)
    ensures Asked(reqRate, invocation, INVS_PER_SEC * seconds) == seconds * reqRate
    decreases seconds
  {
    if seconds > 0 {
      var later := AskedInOneSecond(reqRate, invocation, INVS_PER_SEC * (seconds - 1));
      FiveInvocations(reqRate, later, seconds - 1);
      assert seconds * reqRate == (seconds - 1) * reqRate + reqRate;
    }
  }

  ghost predicate Distinct(s: seq<int>) {
    forall i, j :: 0 <= i < j < |s| ==> s[i] != s[j]
  }

  /** Client c's number is on the stack. */
  predicate Free(s: seq<int>, c: nat) {
    c + 1 in s
  }

  // ---------------------------------------------------------------- the clients' comings and goings

  /** Where load_next_step leads a client that was free: it transfers, with or without a completion
      timer, or sleeps first, or rests. */
  datatype Outcome = Loads(timed: bool) | Sleeps | Rests

  /** A client is taken off the top of the stack, wakes up, is reported done, or times out. */
  datatype Event =
    | Take(client: nat, outcome: Outcome)
    | Wake(client: nat, timed: bool)
    | Done(client: nat)
    | Timeout(client: nat)

  /** The stack of free clients' numbers, the clients whose transfer is in progress, those whose
      completion timer is queued, and those that sleep. */
  datatype State = State(max: nat, stack: seq<int>, transferring: set<nat>, timed: set<nat>, sleeping: set<nat>)

  predicate Possible(s: State, e: Event) {
    match e
    case Take(c, _) => s.stack != [] && s.stack[|s.stack| - 1] == c + 1
    case Wake(c, _) => c in s.sleeping
    case Done(c) => c in s.transferring
    case Timeout(c) => c in s.timed
  }

  /** Client c is added to the multi handle. */
  function Loaded(s: State, c: nat, timed: bool): State {
    s.(transferring := s.transferring + {c}, timed := if timed then s.timed + {c} else s.timed)
  }

  /** A full stack refuses the client. */
  function Put(s: State, c: nat): State {
    if |s.stack| < s.max && c < s.max then s.(stack := s.stack + [c + 1]) else s
  }

  /** Client c makes its next step, which cancels its completion timer and ends its transfer. */
  function Stepped(s: State, c: nat, outcome: Outcome): State {
    var t := s.(transferring := s.transferring - {c}, timed := s.timed - {c});
    match outcome
    case Loads(timed) => Loaded(t, c, timed)
    case Sleeps => t.(sleeping := t.sleeping + {c})
    case Rests => t
  }

  /** The end of a transfer leaves the completion timer queued, and a timeout leaves the transfer in
      progress. */
  function Next(s: State, e: Event): State {
    match e
    case Take(c, outcome) =>
      Stepped(s.(stack := if s.stack == [] then [] else s.stack[..|s.stack| - 1]), c, outcome)
    case Wake(c, timed) => Loaded(s.(sleeping := s.sleeping - {c}), c, timed)
    case Done(c) => Put(s.(transferring := s.transferring - {c}), c)
    case Timeout(c) => Put(s.(timed := s.timed - {c}), c)
  }

  /** All clients are free, the first one on top. */
  function Start(max: nat): State {
    State(max, seq(max, i requires 0 <= i < max => max - i), {}, {}, {})
  }

  /** The state after some events. */
  function After(s: State, events: seq<Event>): State {
    if events == [] then s else Next(After(s, events[..|events| - 1]), events[|events| - 1])
  }

  /** Each event is possible where it happens. */
  predicate AllPossible(s: State, events: seq<Event>) {
    forall i :: 0 <= i < |events| ==> Possible(After(s, events[..i]), events[i])
  }

  /** A run from the start, up to the first time that a number is twice on the stack. */
  ghost predicate Run(max: nat, events: seq<Event>) {
    AllPossible(Start(max), events) && forall i :: 0 <= i < |events| ==> Distinct(After(Start(max), events[..i]).stack)
  }

  /** Whether client c is out after event e, given whether it was before. */
  predicate OutAfter(was: bool, e: Event, c: nat) {
    match e
    case Take(k, _) => k == c || was
    case Wake(_, _) => was
    case Done(k) => k != c && was
    case Timeout(k) => k != c && was
  }

  /** Client c has been taken and neither reported done nor timed out since. */
  predicate Out(events: seq<Event>, c: nat) {
    events != [] && OutAfter(Out(events[..|events| - 1], c), events[|events| - 1], c)
  }

  /** The client of event e answers again, after it has been put back, while another is out. */
  ghost predicate AnswersAgain(max: nat, events: seq<Event>, e: Event) {
    (e.Done? || e.Timeout?) && !Out(events, e.client) && exists d :: 0 <= d < max && Out(events, d)
  }

  /** Numbers of clients, none of them more than the number of clients. */
  ghost predicate InRange(s: State) {
    && |s.stack| <= s.max && (forall i :: 0 <= i < |s.stack| ==> 1 <= s.stack[i] <= s.max)
    && (forall c :: c in s.transferring || c in s.timed || c in s.sleeping ==> c < s.max)
  }

  lemma RunShorter(max: nat, events: seq<Event>)
    requires Run(max, events) && events != []
    ensures var before := events[..|events| - 1];
      var s := After(Start(max), before);
      Run(max, before) && Distinct(s.stack) && Possible(s, events[|events| - 1])
  {
    var before := events[..|events| - 1];
    assert forall i :: 0 <= i < |before| ==> before[..i] == events[..i] && before[i] == events[i];
  }

  lemma {:induction false} StaysInRange(max: nat, events: seq<Event>)
    requires Run(max, events)
    ensures After(Start(max), events).max == max && InRange(After(Start(max), events))
  {
    if events != [] {
      RunShorter(max, events);
      StaysInRange(max, events[..|events| - 1]);
    }
  }

  lemma DistinctMore(s: seq<int>, c: int)
    requires Distinct(s)
    ensures Distinct(s + [c]) <==> c !in s
  {
    if c in s {
      var i :| 0 <= i < |s| && s[i] == c;
      assert (s + [c])[i] == (s + [c])[|s|];
    }
  }

  /** A stack without duplicates is short of one client exactly when one is missing from it. */
  lemma FullHasAll(s: seq<int>, max: nat)
    requires Distinct(s) && forall i :: 0 <= i < |s| ==> 1 <= s[i] <= max
    ensures |s| <= max
    ensures |s| < max <==> exists c :: 0 <= c < max && !Free(s, c)
  {
    hide Distinct;
    SizeOfDistinct(s);
    SubsetSize(Elements(s), NumbersUpTo(max));
    if |s| < max {
      var n :| n in NumbersUpTo(max) && n !in Elements(s);
      assert !Free(s, n - 1);
    }
    if c :| 0 <= c < max && !Free(s, c) {
      assert c + 1 in NumbersUpTo(max) && c + 1 !in Elements(s);
    }
  }

  ghost function Elements(s: seq<int>): set<int> {
    set n | n in s
  }

  lemma {:induction false} SizeOfDistinct(s: seq<int>)
    requires Distinct(s)
    ensures |Elements(s)| == |s|
  {
    if s != [] {
      var t := s[..|s| - 1];
      SizeOfDistinct(t);
      assert s == t + [s[|s| - 1]];
      DistinctMore(t, s[|s| - 1]);
      assert Elements(s) == Elements(t) + {s[|s| - 1]};
    }
  }

  ghost function NumbersUpTo(max: nat): (numbers: set<int>)
    ensures |numbers| == max && forall n :: n in numbers <==> 1 <= n <= max
  {
    if max == 0 then {} else NumbersUpTo(max - 1) + {max}
  }

  lemma SubsetSize(a: set<int>, b: set<int>)
    requires a <= b
    ensures |a| <= |b| && (|a| < |b| <==> exists n :: n in b && n !in a)
  {
    assert b == a + (b - a);
    if n :| n in b && n !in a {
      assert n in b - a;
    }
    if !exists n :: n in b && n !in a {
      forall n | n in b ensures n in a {
      }
      assert b <= a;
    }
  }

  /** While no number is twice on the stack, the clients on it are those that are not out, and none
      of them sleeps. */
  lemma {:induction false} OnStackExactly(max: nat, events: seq<Event>, c: nat)
    requires Run(max, events) && Distinct(After(Start(max), events).stack) && c < max
    ensures Free(After(Start(max), events).stack, c) <==> !Out(events, c)
    ensures SleepsOnly(After(Start(max), events), c)
  {
    if events == [] {
      assert Start(max).stack[max - 1 - c] == c + 1;
    } else {
      RunShorter(max, events);
      StaysInRange(max, events[..|events| - 1]);
      OnStackExactly(max, events[..|events| - 1], c);
      hide Run, Distinct, InRange, Next, Possible, OutAfter;
      StackAfter(After(Start(max), events[..|events| - 1]), events[|events| - 1], c);
    }
  }

  /** A client that sleeps is not free, nor does it transfer. */
  predicate SleepsOnly(s: State, c: nat) {
    c in s.sleeping ==> !Free(s.stack, c) && c !in s.transferring && c !in s.timed
  }

  lemma StackAfter(s: State, e: Event, c: nat)
    requires InRange(s) && Distinct(s.stack) && Possible(s, e) && c < s.max && SleepsOnly(s, c)
    ensures Free(Next(s, e).stack, c) <==> !OutAfter(!Free(s.stack, c), e, c)
    ensures SleepsOnly(Next(s, e), c)
  {
    FullHasAll(s.stack, s.max);
    if e.Take? {
      var n := |s.stack| - 1;
      assert s.stack == s.stack[..n] + [s.stack[n]];
      DistinctMore(s.stack[..n], s.stack[n]);
    }
    hide Distinct;
  }

  /** A number comes to be twice on the stack exactly when a client answers again, after it has been
      put back, while another is out: its timer outlives the end of its transfer, and its transfer
      the timeout. */
  lemma TwiceExactly(max: nat, events: seq<Event>, e: Event)
    requires Run(max, events + [e])
    ensures Distinct(After(Start(max), events + [e]).stack) <==> !AnswersAgain(max, events, e)
  {
    hide Distinct, InRange, Possible, Next, Out, Run;
    assert (events + [e])[..|events|] == events;
    RunShorter(max, events + [e]);
    StaysInRange(max, events);
    var s := After(Start(max), events);
    forall c | 0 <= c < max ensures Free(s.stack, c) <==> !Out(events, c) {
      OnStackExactly(max, events, c);
    }
    PutTwice(s, e);
    if e.Done? || e.Timeout? {
      ClientInRange(s, e);
    }
  }

  lemma ClientInRange(s: State, e: Event)
    requires InRange(s) && Possible(s, e) && (e.Done? || e.Timeout?)
    ensures e.client < s.max
  {
  }

  /** The same for one event, seen from the stack it finds. */
  lemma PutTwice(s: State, e: Event)
    requires InRange(s) && Distinct(s.stack) && Possible(s, e)
    ensures Distinct(Next(s, e).stack) <==>
      !((e.Done? || e.Timeout?) && Free(s.stack, e.client) && exists d :: 0 <= d < s.max && !Free(s.stack, d))
  {
    FullHasAll(s.stack, s.max);
    if e.Done? || e.Timeout? {
      DistinctMore(s.stack, e.client + 1);
    }
  }

  // ---------------------------------------------------------------- with and without completion timers

  /** The event queues a completion timer. */
  predicate StartsTimer(e: Event) {
    match e
    case Take(_, outcome) => outcome == Loads(true)
    case Wake(_, timed) => timed
    case _ => false
  }

  predicate Untimed(events: seq<Event>) {
    forall i :: 0 <= i < |events| ==> !StartsTimer(events[i])
  }

  /** Without completion timers whoever transfers is out. */
  lemma {:induction false} TransfersAreOut(max: nat, events: seq<Event>, c: nat)
    requires Run(max, events) && Untimed(events) && Distinct(After(Start(max), events).stack)
    ensures After(Start(max), events).timed == {}
    ensures c in After(Start(max), events).transferring ==> Out(events, c)
  {
    StaysInRange(max, events);
    if events != [] {
      RunShorter(max, events);
      TransfersAreOut(max, events[..|events| - 1], c);
      if c < max {
        OnStackExactly(max, events[..|events| - 1], c);
      }
      StaysInRange(max, events[..|events| - 1]);
      hide AllPossible, Distinct;
    }
  }

  lemma AnswersOnce(max: nat, events: seq<Event>, e: Event)
    requires Run(max, events) && Untimed(events) && Distinct(After(Start(max), events).stack)
    requires Possible(After(Start(max), events), e)
    ensures !AnswersAgain(max, events, e)
  {
    hide Run, Distinct, After, Out, Untimed;
    TransfersAreOut(max, events, e.client);
  }

  lemma UntimedShorter(events: seq<Event>)
    requires Untimed(events) && events != []
    ensures Untimed(events[..|events| - 1])
  {
  }

  lemma {:induction false} UntimedDistinct(max: nat, events: seq<Event>)
    requires Run(max, events) && Untimed(events)
    ensures Distinct(After(Start(max), events).stack)
    decreases |events|
  {
    hide *;
    if events == [] {
      NothingTwice(max);
    } else {
      RunShorter(max, events);
      UntimedShorter(events);
      UntimedDistinct(max, events[..|events| - 1]);
      OnceMore(max, events);
    }
  }

  lemma NothingTwice(max: nat)
    ensures Distinct(After(Start(max), []).stack)
  {
  }

  lemma OnceMore(max: nat, events: seq<Event>)
    requires events != [] && Run(max, events) && Run(max, events[..|events| - 1]) && Untimed(events[..|events| - 1])
    requires Distinct(After(Start(max), events[..|events| - 1]).stack)
    requires Possible(After(Start(max), events[..|events| - 1]), events[|events| - 1])
    ensures Distinct(After(Start(max), events).stack)
  {
    hide *;
    var before, e := events[..|events| - 1], events[|events| - 1];
    assert events == before + [e];
    AnswersOnce(max, before, e);
    TwiceExactly(max, before, e);
  }

  lemma RunLonger(max: nat, events: seq<Event>, e: Event)
    requires var s := After(Start(max), events);
      Run(max, events) && Distinct(s.stack) && Possible(s, e)
    ensures var s := After(Start(max), events);
      Run(max, events + [e]) && After(Start(max), events + [e]) == Next(s, e)
    ensures forall c :: Out(events + [e], c) == OutAfter(Out(events, c), e, c)
  {
    var longer := events + [e];
    assert longer[..|events|] == events;
    forall i | 0 <= i < |longer|
      ensures Possible(After(Start(max), longer[..i]), longer[i]) && Distinct(After(Start(max), longer[..i]).stack)
    {
      assert i < |events| ==> longer[..i] == events[..i];
    }
  }

  /** The first client's transfer ends, and then its timer fires. */
  lemma DoneThenTimeout(max: nat) returns (events: seq<Event>)
    requires max >= 2
    ensures Run(max, events) && !Distinct(After(Start(max), events).stack)
    ensures |events| == 4 && events[2..] == [Done(0), Timeout(0)]
  {
    hide Run, Distinct;
    StartRuns(max);
    var e0, e1, e2, e3 := Take(0, Loads(true)), Take(1, Loads(true)), Done(0), Timeout(0);
    var v1 := [] + [e0];
    var v2 := v1 + [e1];
    var v3 := v2 + [e2];
    RunLonger(max, [], e0);
    TwiceExactly(max, [], e0);
    RunLonger(max, v1, e1);
    TwiceExactly(max, v1, e1);
    RunLonger(max, v2, e2);
    TwiceExactly(max, v2, e2);
    RunLonger(max, v3, e3);
    assert Out(v3, 1) && !Out(v3, 0);
    TwiceExactly(max, v3, e3);
    events := v3 + [e3];
  }

  /** The other way round: its timer fires, and then its transfer ends. */
  lemma TimeoutThenDone(max: nat) returns (events: seq<Event>)
    requires max >= 2
    ensures Run(max, events) && !Distinct(After(Start(max), events).stack)
    ensures |events| == 4 && events[2..] == [Timeout(0), Done(0)]
  {
    hide Run, Distinct;
    StartRuns(max);
    var e0, e1, e2, e3 := Take(0, Loads(true)), Take(1, Loads(true)), Timeout(0), Done(0);
    var v1 := [] + [e0];
    var v2 := v1 + [e1];
    var v3 := v2 + [e2];
    RunLonger(max, [], e0);
    TwiceExactly(max, [], e0);
    RunLonger(max, v1, e1);
    TwiceExactly(max, v1, e1);
    RunLonger(max, v2, e2);
    TwiceExactly(max, v2, e2);
    RunLonger(max, v3, e3);
    assert Out(v3, 1) && !Out(v3, 0);
    TwiceExactly(max, v3, e3);
    events := v3 + [e3];
  }

  lemma StartRuns(max: nat)
    ensures Run(max, []) && Distinct(Start(max).stack)
  {
  }

  /** No number is ever twice on the stack if and only if there is one client at most, or no
      completion timer is ever queued. */
  lemma DistinctExactly(max: nat, timers: bool)
    ensures max <= 1 || !timers <==>
      forall events ::
        Run(max, events) && (timers || Untimed(events)) ==> Distinct(After(Start(max), events).stack)
  {
    if max >= 2 && timers {
      var events := DoneThenTimeout(max);
    } else {
      forall events | Run(max, events) && (timers || Untimed(events))
        ensures Distinct(After(Start(max), events).stack)
      {
        if timers {
          StaysInRange(max, events);
        } else {
          UntimedDistinct(max, events);
        }
      }
    }
  }

  /** The part of batch_context that serves the fixed request rate. */
  class RateBatch {
    const clientNumMax: nat
    const reqRate: nat
    const freeClients: array<int>
    var freeClientsCount: nat
    var clientsCurrentSchedNum: nat
    var reqRateTimerInvocation: nat

    /** The clients in the multi handle, those with a completion timer queued, and those that sleep. */
    var transferring: set<nat>
    var timed: set<nat>
    var sleeping: set<nat>

    /** A stack of client numbers 1..clientNumMax, with zeros above its top. */
    ghost predicate Valid()
      reads this, freeClients
    {
      && freeClients.Length == clientNumMax && freeClientsCount <= clientNumMax
      && clientsCurrentSchedNum <= clientNumMax
      && (forall i :: 0 <= i < freeClientsCount ==> 1 <= freeClients[i] <= clientNumMax)
      && (forall i :: freeClientsCount <= i < clientNumMax ==> freeClients[i] == 0)
    }

    ghost function Stack(): seq<int>
      requires Valid()
      reads this, freeClients
    {
      freeClients[..freeClientsCount]
    }

    ghost function Now(): State
      requires Valid()
      reads this, freeClients
    {
      State(clientNumMax, Stack(), transferring, timed, sleeping)
    }

    /** Clients that are not on the stack. */
    ghost function Busy(): int
      reads this
    {
      clientNumMax - freeClientsCount
    }

    /** All clients are free at first, the first one on top. */
    constructor (clientNumMax: nat, reqRate: nat)
      ensures Valid() && fresh(freeClients) && this.clientNumMax == clientNumMax && this.reqRate == reqRate
      ensures Now() == Start(clientNumMax) && Distinct(Stack())
      ensures clientsCurrentSchedNum == reqRateTimerInvocation == 0
    {
      this.clientNumMax, this.reqRate := clientNumMax, reqRate;
      freeClients := new int[clientNumMax];
      freeClientsCount := clientNumMax;
      clientsCurrentSchedNum, reqRateTimerInvocation := 0, 0;
      transferring, timed, sleeping := {}, {}, {};
      new;
      var ix, clientNum := freeClientsCount, 1;
      while ix > 0
        modifies freeClients
        invariant 0 <= ix <= clientNumMax && clientNum == clientNumMax - ix + 1
        invariant forall i :: ix <= i < clientNumMax ==> freeClients[i] == clientNumMax - i
      {
        ix := ix - 1;
        freeClients[ix] := clientNum;
        clientNum := clientNum + 1;
      }
      assert freeClients[..] == seq(clientNumMax, i requires 0 <= i < clientNumMax => clientNumMax - i);
    }

    /** put_free_client of the client at an index of the client array. */
    method PutFreeClient(client: nat) returns (r: int)
      requires Valid()
      modifies freeClients, `freeClientsCount
      ensures Valid() && r == if old(freeClientsCount) < clientNumMax && client < clientNumMax then 0 else -1
      ensures Stack() == if r == 0 then old(Stack()) + [client + 1] else old(Stack())
    {
      if freeClientsCount >= clientNumMax {
        return -1;
      }
      var freeClientNo: int := client + 1;
      if freeClientNo < 0 || freeClientNo > clientNumMax {
        return -1;
      }
      if freeClients[freeClientsCount] != 0 {
        return -1;
      }
      freeClients[freeClientsCount] := freeClientNo;
      freeClientsCount := freeClientsCount + 1;
      return 0;
    }

    /** get_free_client. */
    method GetFreeClient() returns (r: int, client: int)
      requires Valid()
      modifies freeClients, `freeClientsCount
      ensures Valid() && r == if old(Stack()) == [] then -1 else 0
      ensures r == -1 ==> Stack() == []
      ensures r == 0 ==> 0 <= client < clientNumMax && old(Stack()) == Stack() + [client + 1]
    {
      client := 0;
      if freeClientsCount == 0 {
        return -1, client;
      }
      freeClientsCount := freeClientsCount - 1;
      var freeClientNo := freeClients[freeClientsCount];
      if freeClientNo <= 0 {
        return -1, client;
      }
      freeClients[freeClientsCount] := 0;
      return 0, freeClientNo - 1;
    }

    /** client_add_to_load. */
    method ClientAddToLoad(client: nat, withTimer: bool)
      requires Valid()
      modifies `transferring, `timed
      ensures Valid() && Now() == Loaded(old(Now()), client, withTimer)
      ensures transferring == old(transferring) + {client}
      ensures timed == if withTimer then old(timed) + {client} else old(timed)
    {
      transferring := transferring + {client};
      if withTimer {
        timed := timed + {client};
      }
    }

    /** load_next_step of a client that has been free. */
    method LoadNextStep(client: nat, outcome: Outcome)
      requires Valid()
      modifies `transferring, `timed, `sleeping
      ensures Valid() && Stack() == old(Stack())
      ensures Now() == Stepped(old(Now()), client, outcome)
      ensures transferring == old(transferring) - {client} + if outcome.Loads? then {client} else {}
      ensures timed == old(timed) - {client} + if outcome == Loads(true) then {client} else {}
      ensures sleeping == old(sleeping) + if outcome.Sleeps? then {client} else {}
    {
      if client in timed {
        timed := timed - {client};
      }
      transferring := transferring - {client};
      match outcome {
        case Loads(withTimer) =>
          ClientAddToLoad(client, withTimer);
        case Sleeps =>
          sleeping := sleeping + {client};
        case Rests =>
      }
    }

    /** handle_cctx_sleeping_timer. */
    method HandleSleepingTimer(client: nat, withTimer: bool)
      requires Valid() && Possible(Now(), Wake(client, withTimer))
      modifies `transferring, `timed, `sleeping
      ensures Valid() && Now() == Next(old(Now()), Wake(client, withTimer))
      ensures transferring == old(transferring) + {client} && sleeping == old(sleeping) - {client}
      ensures timed == (if withTimer then old(timed) + {client} else old(timed)) && Stack() == old(Stack())
    {
      sleeping := sleeping - {client};
      ClientAddToLoad(client, withTimer);
    }

    /** mperform_smooth at the end of a transfer: the completion timer is left as it is. */
    method TransferDone(client: nat) returns (r: int)
      requires Valid() && Possible(Now(), Done(client))
      modifies freeClients, `freeClientsCount, `transferring
      ensures Valid() && Now() == Next(old(Now()), Done(client))
      ensures transferring == old(transferring) - {client}
      ensures Stack() == old(Stack()) + if r == 0 then [client + 1] else []
      ensures r == if old(freeClientsCount) < clientNumMax && client < clientNumMax then 0 else -1
    {
      transferring := transferring - {client};
      r := PutFreeClient(client);
    }

    /** handle_cctx_url_completion_timer: the transfer is left in progress. */
    method HandleUrlCompletionTimer(client: nat) returns (r: int)
      requires Valid() && Possible(Now(), Timeout(client))
      modifies freeClients, `freeClientsCount, `timed
      ensures Valid() && Now() == Next(old(Now()), Timeout(client))
      ensures timed == old(timed) - {client} && Stack() == old(Stack()) + if r == 0 then [client + 1] else []
      ensures r == if old(freeClientsCount) < clientNumMax && client < clientNumMax then 0 else -1
    {
      timed := timed - {client};
      r := PutFreeClient(client);
    }

    /** How many clients an invocation asks for: during ramp-up no more than keep the busy ones
        within the clients started so far. */
    ghost function Wanted(): (n: int)
      reads this
    {
      if clientsCurrentSchedNum < clientNumMax then
        Min(Quota(reqRate, reqRateTimerInvocation), Max(0, clientsCurrentSchedNum - Busy()))
      else Quota(reqRate, reqRateTimerInvocation)
    }

    /** The first half of req_rate_sched_clients. */
    method ClientsToSched() returns (n: int)
      modifies `reqRateTimerInvocation
      ensures n == old(Wanted()) && reqRateTimerInvocation == NextInvocation(old(reqRateTimerInvocation))
      ensures n >= 0 && reqRateTimerInvocation == old(reqRateTimerInvocation) % 5 + 1
      ensures AsksFor(reqRate, old(reqRateTimerInvocation) % 5, clientsCurrentSchedNum < clientNumMax,
                      clientsCurrentSchedNum - Busy(), n)
    {
      QuotaIsFair(reqRate, reqRateTimerInvocation);
      n := reqRate / INVS_PER_SEC;
      var remainderToSched := reqRate % INVS_PER_SEC;
      reqRateTimerInvocation := reqRateTimerInvocation % INVS_PER_SEC;
      if remainderToSched > reqRateTimerInvocation {
        n := n + 1;
      }
      reqRateTimerInvocation := reqRateTimerInvocation + 1;
      if clientsCurrentSchedNum < clientNumMax {
        n := Min(n, Max(0, clientsCurrentSchedNum - (clientNumMax - freeClientsCount)));
      }
    }

    /** A client comes off the top of the stack and makes its next step. */
    method TakeFreeClient(outcome: Outcome) returns (r: int, client: int)
      requires Valid()
      modifies freeClients, `freeClientsCount, `transferring, `timed, `sleeping
      ensures Valid() && r == if old(Stack()) == [] then -1 else 0
      ensures r == -1 ==> Now() == old(Now())
      ensures r == 0 ==> 0 <= client < clientNumMax && old(Stack()) == Stack() + [client + 1]
      ensures r == 0 ==> var e := Take(client, outcome); Possible(old(Now()), e) && Now() == Next(old(Now()), e)
    {
      ghost var before := Now();
      r, client := GetFreeClient();
      if r == 0 {
        LoadNextStep(client, outcome);
      }
    }

    /** The second half: n clients come off the top of the stack, or all that are left. */
    method SchedFreeClients(n: nat, outcomes: nat -> Outcome) returns (r: int, loaded: seq<int>)
      requires Valid()
      modifies freeClients, `freeClientsCount, `transferring, `timed, `sleeping
      ensures Valid() && r == if n > old(freeClientsCount) then -1 else 0
      ensures |loaded| == Min(n, old(freeClientsCount)) && old(Stack()) == Stack() + Numbers(loaded)
      ensures (forall i :: 0 <= i < |loaded| ==> loaded[i] >= 0) && AllPossible(old(Now()), Takes(loaded, outcomes))
      ensures Now() == After(old(Now()), Takes(loaded, outcomes))
    {
      var j := 0;
      loaded := [];
      hide Numbers, Next, Possible, AllPossible, After;
      NumbersMore([], 0);
      NothingTaken(Now(), outcomes);
      while j < n
        invariant j <= n && Valid() && |loaded| == j && forall i :: 0 <= i < |loaded| ==> loaded[i] >= 0
        invariant freeClientsCount == old(freeClientsCount) - j && old(Stack()) == Stack() + Numbers(loaded)
        invariant AllPossible(old(Now()), Takes(loaded, outcomes))
        invariant Now() == After(old(Now()), Takes(loaded, outcomes))
      {
        var got, client := TakeFreeClient(outcomes(j));
        if got < 0 {
          return -1, loaded;
        }
        NumbersMore(loaded, client);
        TakesMore(old(Now()), loaded, client, outcomes);
        loaded := loaded + [client];
        j := j + 1;
      }
      r := 0;
    }

    /** req_rate_sched_clients. `loaded` are the clients whose next step is loaded, in order. In
        ramp-up free clients never run out, and the busy ones stay within those started. */
    method ReqRateSchedClients(outcomes: nat -> Outcome) returns (r: int, loaded: seq<int>, ghost asked: nat)
      requires Valid()
      modifies freeClients, `freeClientsCount, `reqRateTimerInvocation, `transferring, `timed, `sleeping
      ensures Valid() && reqRateTimerInvocation == NextInvocation(old(reqRateTimerInvocation))
      ensures r == if old(Wanted()) > old(freeClientsCount) then -1 else 0
      ensures |loaded| == Min(old(Wanted()), old(freeClientsCount)) && old(Stack()) == Stack() + Numbers(loaded)
      ensures reqRateTimerInvocation == old(reqRateTimerInvocation) % 5 + 1
      ensures AsksFor(reqRate, old(reqRateTimerInvocation) % 5, clientsCurrentSchedNum < clientNumMax,
                      clientsCurrentSchedNum - old(Busy()), asked)
      ensures |loaded| == if asked < old(freeClientsCount) then asked else old(freeClientsCount)
      ensures r == if asked > old(freeClientsCount) then -1 else 0
      ensures (forall i :: 0 <= i < |loaded| ==> loaded[i] >= 0) && AllPossible(old(Now()), Takes(loaded, outcomes))
      ensures Now() == After(old(Now()), Takes(loaded, outcomes))
      ensures old(clientsCurrentSchedNum) < clientNumMax ==>
        r == 0 && Busy() <= Max(old(Busy()), clientsCurrentSchedNum)
    {
      hide Numbers, AllPossible, After;
      var n := ClientsToSched();
      asked := n;
      r, loaded := SchedFreeClients(n, outcomes);
    }
  }

  /** The events of one invocation: the clients taken, in order. */
  ghost function Takes(loaded: seq<int>, outcomes: nat -> Outcome): (events: seq<Event>)
    requires forall i :: 0 <= i < |loaded| ==> loaded[i] >= 0
    ensures |events| == |loaded|
  {
    seq(|loaded|, i requires 0 <= i < |loaded| => Take(loaded[i], outcomes(i)))
  }

  lemma NothingTaken(s: State, outcomes: nat -> Outcome)
    ensures AllPossible(s, Takes([], outcomes)) && After(s, Takes([], outcomes)) == s
  {
  }

  lemma TakesMore(s: State, loaded: seq<int>, client: nat, outcomes: nat -> Outcome)
    requires forall i :: 0 <= i < |loaded| ==> loaded[i] >= 0
    requires AllPossible(s, Takes(loaded, outcomes))
    requires var t := After(s, Takes(loaded, outcomes)); Possible(t, Take(client, outcomes(|loaded|)))
    ensures AllPossible(s, Takes(loaded + [client], outcomes))
    ensures After(s, Takes(loaded + [client], outcomes)) ==
            Next(After(s, Takes(loaded, outcomes)), Take(client, outcomes(|loaded|)))
  {
    hide Possible, Next;
    var events := Takes(loaded, outcomes);
    var longer := Takes(loaded + [client], outcomes);
    assert longer[..|loaded|] == events;
    forall i | 0 <= i < |longer| ensures Possible(After(s, longer[..i]), longer[i]) {
      if i < |events| {
        assert longer[..i] == events[..i] && longer[i] == events[i];
      }
    }
  }

  lemma NumbersMore(clients: seq<int>, client: int)
    ensures Numbers([]) == [] && Numbers(clients + [client]) == [client + 1] + Numbers(clients)
  {
    assert (clients + [client])[..|clients|] == clients;
  }

  /** The numbers of clients taken one after the other, as they lay on the stack. */
  ghost function Numbers(clients: seq<int>): (s: seq<int>)
    ensures |s| == |clients|
    ensures forall i :: 0 <= i < |s| ==> s[i] == clients[|s| - 1 - i] + 1
  {
    if clients == [] then [] else [clients[|clients| - 1] + 1] + Numbers(clients[..|clients| - 1])
  }

  lemma DistinctAfterTaking(stack: seq<int>, rest: seq<int>, taken: seq<int>)
    requires Distinct(stack) && stack == rest + Numbers(taken)
    ensures Distinct(rest) && Distinct(taken) && forall c :: c in taken ==> c + 1 !in rest
  {
    var n, m := |rest|, |taken|;
    forall i, j | 0 <= i < j < n ensures rest[i] != rest[j] {
      assert stack[i] == rest[i] && stack[j] == rest[j];
    }
    forall i, j | 0 <= i < j < m ensures taken[i] != taken[j] {
      TakenAt(stack, rest, taken, i);
      TakenAt(stack, rest, taken, j);
    }
    forall i | 0 <= i < m ensures taken[i] + 1 !in rest {
      TakenAt(stack, rest, taken, i);
      assert forall j :: 0 <= j < n ==> stack[j] == rest[j];
    }
  }

  lemma TakenAt(stack: seq<int>, rest: seq<int>, taken: seq<int>, i: nat)
    requires stack == rest + Numbers(taken) && i < |taken|
    ensures |stack| == |rest| + |taken| && stack[|rest| + |taken| - 1 - i] == taken[i] + 1
  {
    assert Numbers(taken)[|taken| - 1 - i] == taken[i] + 1;
  }
}
