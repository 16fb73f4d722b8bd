/** client.c and statistics.c: delays are kept as truncated running means, which are updated one
    sample at a time and merged point by point. */
module Statistics {
  function Sum(s: seq<nat>): nat {
    if s == [] then 0 else Sum(s[..|s| - 1]) + s[|s| - 1]
  }

  lemma {:induction false} SumAdds(s: seq<nat>, t: seq<nat>)
    ensures Sum(s + t) == Sum(s) + Sum(t)
  {
    if t == [] {
      assert s + t == s;
    } else {
      SumAdds(s, t[..|t| - 1]);
      assert (s + t)[..|s + t| - 1] == s + t[..|t| - 1];
    }
  }

  /** The mean stands between two of the samples. */
  ghost predicate WithinRange(avg: nat, samples: seq<nat>) {
    (exists i :: 0 <= i < |samples| && samples[i] <= avg) && (exists i :: 0 <= i < |samples| && avg <= samples[i])
  }

  /** Every update has lost less than one unit per sample, n(n-1)/2 in all. */
  predicate Bounds(avg: nat, points: nat, sum: nat) {
    points * avg <= sum && 2 * sum <= 2 * (points * avg) + points * (points - 1)
  }

  /** How a mean of `points` samples relates to them. */
  ghost predicate MeanOf(avg: nat, points: nat, samples: seq<nat>) {
    && points == |samples| && Bounds(avg, points, Sum(samples))
    && (if points == 0 then avg == 0 else WithinRange(avg, samples))
  }

  lemma Grows(n: nat, a: nat, b: nat)
    ensures a <= b ==> n * a <= n * b
  {
  }

  lemma NextMultiple(n: nat, a: nat)
    ensures n * (a + 1) == n * a + n
  {
  }

  /** Truncating division, seen from the product. */
  lemma Truncated(x: nat, n: nat) returns (q: nat)
    requires n > 0
    ensures q == x / n && n * q <= x <= n * q + n - 1
  {
    q := x / n;
  }

  lemma AboveLow(x: nat, n: nat, low: nat)
    requires n > 0 && x >= n * low
    ensures x / n >= low
  {
    var q := Truncated(x, n);
    NextMultiple(n, q);
    Grows(n, q + 1, low);
  }

  lemma BelowHigh(x: nat, n: nat, high: nat)
    requires n > 0 && x <= n * high
    ensures x / n <= high
  {
    var q := Truncated(x, n);
    NextMultiple(n, high);
    Grows(n, high + 1, q);
  }

  /** The range of two sets of samples contains any value between the two means. */
  lemma RangeOfBoth(avg: nat, a: nat, s: seq<nat>, b: nat, t: seq<nat>)
    requires WithinRange(a, s) && WithinRange(b, t)
    requires (a <= avg || b <= avg) && (avg <= a || avg <= b)
    ensures WithinRange(avg, s + t)
  {
    var i :| 0 <= i < |s| && s[i] <= a;
    var j :| 0 <= j < |s| && a <= s[j];
    var k :| 0 <= k < |t| && t[k] <= b;
    var l :| 0 <= l < |t| && b <= t[l];
    var u := s + t;
    assert u[i] == s[i] && u[j] == s[j] && u[|s| + k] == t[k] && u[|s| + l] == t[l];
  }

  lemma Distributes(m: nat, n: nat, a: nat)
    ensures (m + n) * a == m * a + n * a
  {
  }

  lemma Pairs(m: nat, n: nat)
    requires m > 0 && n > 0
    ensures m * (m - 1) + n * (n - 1) + 2 * (m + n - 1) <= (m + n) * (m + n - 1)
  {
    var k := m + n - 1;
    Distributes(m, n, k);
    Split(m, m - 1, n);
    Split(n, n - 1, m);
    Distributes(m - 1, 1, n);
    Grows(m - 1, 1, n);
    assert n * m == m * n;
  }

  lemma Split(m: nat, a: nat, b: nat)
    ensures m * (a + b) == m * a + m * b
  {
  }

  /** The bounds are closed under merging. */
  lemma BoundsMerged(a: nat, m: nat, s: nat, b: nat, n: nat, t: nat)
    requires Bounds(a, m, s) && Bounds(b, n, t) && m > 0 && n > 0
    ensures Bounds(MergedAvg(a, m, b, n), m + n, s + t)
  {
    var q := Truncated(a * m + b * n, m + n);
    Pairs(m, n);
    SumOfBounds(q, m + n, a, m, s, b, n, t);
  }

  /** What is left of the proof is linear in the products. */
  lemma SumOfBounds(q: nat, k: nat, a: nat, m: nat, s: nat, b: nat, n: nat, t: nat)
    requires Bounds(a, m, s) && Bounds(b, n, t) && k > 0 && k * q <= a * m + b * n <= k * q + k - 1
    requires m * (m - 1) + n * (n - 1) + 2 * (k - 1) <= k * (k - 1)
    ensures Bounds(q, k, s + t)
  {
    assert a * m == m * a && b * n == n * b;
  }

  lemma BetweenMeans(a: nat, m: nat, b: nat, n: nat)
    requires m > 0 && n > 0
    ensures var avg := MergedAvg(a, m, b, n); (a <= avg || b <= avg) && (avg <= a || avg <= b)
  {
    var low, high, x := if a < b then a else b, if a < b then b else a, a * m + b * n;
    Grows(m, low, a);
    Grows(n, low, b);
    Distributes(m, n, low);
    AboveLow(x, m + n, low);
    Grows(m, a, high);
    Grows(n, b, high);
    Distributes(m, n, high);
    BelowHigh(x, m + n, high);
  }

  /** Merging two means gives a mean of all their samples. */
  /** The merged mean is the weighted mean of both, rounded down. */
  lemma MergedIsFloor(a: nat, m: nat, b: nat, n: nat)
    requires m + n > 0
    ensures var avg := MergedAvg(a, m, b, n); (m + n) * avg <= a * m + b * n < (m + n) * (avg + 1)
  {
    var q := Truncated(a * m + b * n, m + n);
    NextMultiple(m + n, q);
  }

  lemma Merged(a: nat, m: nat, s: seq<nat>, b: nat, n: nat, t: seq<nat>)
    requires MeanOf(a, m, s) && MeanOf(b, n, t) && m > 0 && n > 0
    ensures MeanOf(MergedAvg(a, m, b, n), m + n, s + t)
  {
    hide Bounds, WithinRange, MergedAvg;
    SumAdds(s, t);
    MergedFacts(a, m, Sum(s), b, n, Sum(t));
    RangeOfBoth(MergedAvg(a, m, b, n), a, s, b, t);
  }

  function MergedAvg(a: nat, m: nat, b: nat, n: nat): nat
    requires m + n > 0
  {
    (a * m + b * n) / (m + n)
  }

  lemma MergedFacts(a: nat, m: nat, s: nat, b: nat, n: nat, t: nat)
    requires Bounds(a, m, s) && Bounds(b, n, t) && m > 0 && n > 0
    ensures var avg := MergedAvg(a, m, b, n);
      Bounds(avg, m + n, s + t) && (a <= avg || b <= avg) && (avg <= a || avg <= b)
  {
    BoundsMerged(a, m, s, b, n, t);
    BetweenMeans(a, m, b, n);
  }

  /** One sample is a mean of its own, so the bounds are closed under adding a sample. */
  lemma Sampled(a: nat, m: nat, s: seq<nat>, x: nat)
    requires MeanOf(a, m, s)
    ensures MeanOf(MergedAvg(a, m, x, 1), m + 1, s + [x])
  {
    OneSample(x);
    if m > 0 {
      Merged(a, m, s, x, 1, [x]);
    } else {
      assert s + [x] == [x];
      OnlyOne(x, 1, a);
    }
  }

  lemma OneSample(x: nat)
    ensures MeanOf(x, 1, [x])
  {
    assert Sum([x]) == Sum([x][..0]) + x;
    assert [x][0] == x;
  }

  lemma NothingMeasured()
    ensures MeanOf(0, 0, [])
  {
  }

  /** stat_point. */
  class StatPoint {
    var dataIn: nat
    var dataOut: nat
    var requests: nat
    var resp1xx: nat
    var resp2xx: nat
    var resp3xx: nat
    var resp4xx: nat
    var resp5xx: nat
    var otherErrs: nat
    var urlTimeoutErrs: nat
    var applDelayPoints: nat
    var applDelay: nat
    var applDelay2xxPoints: nat
    var applDelay2xx: nat

    /** The delays that have gone into the two means. */
    ghost var delays: seq<nat>
    ghost var delays2xx: seq<nat>

    ghost predicate Valid()
      reads this
    {
      MeanOf(applDelay, applDelayPoints, delays) && MeanOf(applDelay2xx, applDelay2xxPoints, delays2xx)
    }

    constructor ()
      ensures Valid() && delays == [] && delays2xx == []
      ensures dataIn == dataOut == requests == otherErrs == urlTimeoutErrs == 0
      ensures resp1xx == resp2xx == resp3xx == resp4xx == resp5xx == 0
    {
      hide MeanOf;
      NothingMeasured();
      dataIn, dataOut, requests, otherErrs, urlTimeoutErrs := 0, 0, 0, 0, 0;
      resp1xx, resp2xx, resp3xx, resp4xx, resp5xx := 0, 0, 0, 0, 0;
      applDelayPoints, applDelay, applDelay2xxPoints, applDelay2xx := 0, 0, 0, 0;
      delays, delays2xx := [], [];
    }

    /** stat_appl_delay_add. */
    method ApplDelayAdd(reqSentTimestamp: nat, respTimestamp: nat)
      requires Valid()
      modifies `applDelay, `applDelayPoints, `delays
      ensures Valid()
      ensures delays == if respTimestamp > reqSentTimestamp then old(delays) + [respTimestamp - reqSentTimestamp]
                        else old(delays)
      ensures applDelay == if respTimestamp > reqSentTimestamp
                              then MergedAvg(old(applDelay), old(applDelayPoints), respTimestamp - reqSentTimestamp, 1)
                              else old(applDelay)
    {
      if respTimestamp > reqSentTimestamp {
        Sampled(applDelay, applDelayPoints, delays, respTimestamp - reqSentTimestamp);
        applDelay := (applDelay * applDelayPoints + respTimestamp - reqSentTimestamp) / (applDelayPoints + 1);
        applDelayPoints := applDelayPoints + 1;
        delays := delays + [respTimestamp - reqSentTimestamp];
      }
    }

    /** stat_appl_delay_2xx_add. */
    method ApplDelay2xxAdd(reqSentTimestamp: nat, respTimestamp: nat)
      requires Valid()
      modifies `applDelay2xx, `applDelay2xxPoints, `delays2xx
      ensures Valid()
      ensures delays2xx == if respTimestamp > reqSentTimestamp then old(delays2xx) + [respTimestamp - reqSentTimestamp]
                           else old(delays2xx)
      ensures applDelay2xx ==
        if respTimestamp <= reqSentTimestamp then old(applDelay2xx)
        else MergedAvg(old(applDelay2xx), old(applDelay2xxPoints), respTimestamp - reqSentTimestamp, 1)
    {
      if respTimestamp > reqSentTimestamp {
        Sampled(applDelay2xx, applDelay2xxPoints, delays2xx, respTimestamp - reqSentTimestamp);
        applDelay2xx :=
          (applDelay2xx * applDelay2xxPoints + respTimestamp - reqSentTimestamp) / (applDelay2xxPoints + 1);
        applDelay2xxPoints := applDelay2xxPoints + 1;
        delays2xx := delays2xx + [respTimestamp - reqSentTimestamp];
      }
    }

    /** stat_point_add; the other point may be this one. */
    method Add(right: StatPoint)
      requires Valid() && right.Valid()
      modifies this
      ensures Valid() && delays == old(delays + right.delays) && delays2xx == old(delays2xx + right.delays2xx)
      ensures dataIn == old(dataIn + right.dataIn) && dataOut == old(dataOut + right.dataOut)
      ensures requests == old(requests + right.requests) && otherErrs == old(otherErrs + right.otherErrs)
      ensures urlTimeoutErrs == old(urlTimeoutErrs + right.urlTimeoutErrs)
      ensures resp1xx == old(resp1xx + right.resp1xx) && resp2xx == old(resp2xx + right.resp2xx)
      ensures resp3xx == old(resp3xx + right.resp3xx) && resp4xx == old(resp4xx + right.resp4xx)
      ensures resp5xx == old(resp5xx + right.resp5xx)
      ensures old(applDelayPoints + right.applDelayPoints) > 0 ==>
        applDelay == old(MergedAvg(applDelay, applDelayPoints, right.applDelay, right.applDelayPoints))
      ensures old(applDelay2xxPoints + right.applDelay2xxPoints) > 0 ==>
        applDelay2xx == old(MergedAvg(applDelay2xx, applDelay2xxPoints, right.applDelay2xx, right.applDelay2xxPoints))
    {
      AddCounters(right);
      applDelay, applDelayPoints :=
        MergedMean(applDelay, applDelayPoints, right.applDelay, right.applDelayPoints, delays, right.delays);
      delays := delays + right.delays;
      applDelay2xx, applDelay2xxPoints :=
        MergedMean(applDelay2xx, applDelay2xxPoints, right.applDelay2xx, right.applDelay2xxPoints,
                   delays2xx, right.delays2xx);
      delays2xx := delays2xx + right.delays2xx;
    }

    method AddCounters(right: StatPoint)
      modifies `dataIn, `dataOut, `requests, `resp1xx, `resp2xx, `resp3xx, `resp4xx, `resp5xx, `otherErrs
      modifies `urlTimeoutErrs
      ensures dataIn == old(dataIn + right.dataIn) && dataOut == old(dataOut + right.dataOut)
      ensures requests == old(requests + right.requests) && otherErrs == old(otherErrs + right.otherErrs)
      ensures urlTimeoutErrs == old(urlTimeoutErrs + right.urlTimeoutErrs)
      ensures resp1xx == old(resp1xx + right.resp1xx) && resp2xx == old(resp2xx + right.resp2xx)
      ensures resp3xx == old(resp3xx + right.resp3xx) && resp4xx == old(resp4xx + right.resp4xx)
      ensures resp5xx == old(resp5xx + right.resp5xx)
    {
      dataIn := dataIn + right.dataIn;
      dataOut := dataOut + right.dataOut;
      requests := requests + right.requests;
      AddResponses(right);
      otherErrs := otherErrs + right.otherErrs;
      urlTimeoutErrs := urlTimeoutErrs + right.urlTimeoutErrs;
    }

    method AddResponses(right: StatPoint)
      modifies `resp1xx, `resp2xx, `resp3xx, `resp4xx, `resp5xx
      ensures resp1xx == old(resp1xx + right.resp1xx) && resp2xx == old(resp2xx + right.resp2xx)
      ensures resp3xx == old(resp3xx + right.resp3xx) && resp4xx == old(resp4xx + right.resp4xx)
      ensures resp5xx == old(resp5xx + right.resp5xx)
    {
      resp1xx := resp1xx + right.resp1xx;
      resp2xx := resp2xx + right.resp2xx;
      resp3xx := resp3xx + right.resp3xx;
      resp4xx := resp4xx + right.resp4xx;
      resp5xx := resp5xx + right.resp5xx;
    }

    /** stat_point_reset. */
    method Reset()
      modifies this
      ensures Valid() && delays == [] && delays2xx == []
      ensures dataIn == dataOut == requests == otherErrs == urlTimeoutErrs == 0
      ensures resp1xx == resp2xx == resp3xx == resp4xx == resp5xx == 0
    {
      hide MeanOf;
      NothingMeasured();
      ResetCounters();
      applDelayPoints, applDelay2xxPoints := 0, 0;
      applDelay, applDelay2xx := 0, 0;
      delays, delays2xx := [], [];
    }

    method ResetCounters()
      modifies `dataIn, `dataOut, `requests, `resp1xx, `resp2xx, `resp3xx, `resp4xx, `resp5xx, `otherErrs
      modifies `urlTimeoutErrs
      ensures dataIn == dataOut == requests == otherErrs == urlTimeoutErrs == 0
      ensures resp1xx == resp2xx == resp3xx == resp4xx == resp5xx == 0
    {
      dataIn, dataOut := 0, 0;
      requests, resp1xx, resp2xx, resp3xx, resp4xx := 0, 0, 0, 0, 0;
      resp5xx, otherErrs, urlTimeoutErrs := 0, 0, 0;
    }
  }

  /** The part of stat_point_add that is the same for both means. */
  method MergedMean(a: nat, m: nat, b: nat, n: nat, ghost s: seq<nat>,
                    ghost t: seq<nat>) returns (avg: nat, points: nat)
    requires MeanOf(a, m, s) && MeanOf(b, n, t)
    ensures MeanOf(avg, points, s + t) && avg == if m + n > 0 then MergedAvg(a, m, b, n) else 0
  {
    hide MeanOf;
    MergedCases(a, m, b, n, s, t);
    avg, points := 0, m;
    var totalPoints := m + n;
    if totalPoints > 0 {
      avg := (a * m + b * n) / totalPoints;
      points := totalPoints;
    }
  }

  lemma MergedCases(a: nat, m: nat, b: nat, n: nat, s: seq<nat>, t: seq<nat>)
    requires MeanOf(a, m, s) && MeanOf(b, n, t)
    ensures if m + n > 0 then MeanOf(MergedAvg(a, m, b, n), m + n, s + t) else MeanOf(0, m, s + t)
  {
    hide Bounds, WithinRange;
    if n == 0 {
      assert s + t == s;
      if m > 0 {
        OnlyOne(a, m, b);
      }
    } else if m == 0 {
      OnlyOne(b, n, a);
      assert s + t == t;
    } else {
      Merged(a, m, s, b, n, t);
    }
  }

  lemma OnlyOne(a: nat, m: nat, b: nat)
    requires m > 0
    ensures MergedAvg(a, m, b, 0) == MergedAvg(b, 0, a, m) == a
  {
    AboveLow(a * m, m, a);
    BelowHigh(a * m, m, a);
  }
}
