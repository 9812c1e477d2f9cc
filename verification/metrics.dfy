/** Request metrics over a sliding window of response times (metrics.service.ts), in exact
    arithmetic. */
module Metrics {
  import opened Sorting

  const WINDOW := 10000

  datatype Sample = Sample(duration: real, success: bool)

  // ---------------------------------------------------------------- percentiles

  function ByNumber(): (real, real) -> int {
    (a: real, b: real) => if a < b then -1 else if a > b then 1 else 0
  }

  predicate Ascending(s: seq<real>) {
    forall i, j | 0 <= i < j < |s| :: s[i] <= s[j]
  }

  lemma SortAscends(s: seq<real>)
    ensures Ascending(SortBy(s, ByNumber()))
  {
    SortByOrders(s, ByNumber());
    var r := SortBy(s, ByNumber());
    forall i, j | 0 <= i < j < |r| ensures r[i] <= r[j] {
      assert ByNumber()(r[i], r[j]) <= 0;
    }
  }

  /** How many samples pass the test. */
  function Count(s: seq<real>, test: real -> bool): nat {
    if s == [] then 0
    else Count(s[..|s| - 1], test) + if test(s[|s| - 1]) then 1 else 0
  }

  lemma {:induction false} CountInsert(s: seq<real>, x: real, test: real -> bool)
    ensures Count(Insert(s, x, ByNumber()), test) == Count(s, test) + if test(x) then 1 else 0
  {
    if s == [] || ByNumber()(s[|s| - 1], x) <= 0 {
      assert (s + [x])[..|s|] == s;
    } else {
      var front, last := s[..|s| - 1], s[|s| - 1];
      CountInsert(front, x, test);
      var r := Insert(front, x, ByNumber());
      assert (r + [last])[..|r|] == r;
    }
  }

  lemma {:induction false} CountSort(s: seq<real>, test: real -> bool)
    ensures Count(SortBy(s, ByNumber()), test) == Count(s, test)
  {
    if s != [] {
      CountSort(s[..|s| - 1], test);
      CountInsert(SortBy(s[..|s| - 1], ByNumber()), s[|s| - 1], test);
    }
  }

  lemma {:induction false} CountAtLeast(s: seq<real>, k: nat, test: real -> bool)
    requires k <= |s| && forall i | 0 <= i < k :: test(s[i])
    ensures Count(s, test) >= k
  {
    if k < |s| {
      CountAtLeast(s[..|s| - 1], k, test);
    } else if s != [] {
      CountAtLeast(s[..|s| - 1], k - 1, test);
    }
  }

  lemma {:induction false} CountAtMost(s: seq<real>, k: nat, test: real -> bool)
    requires k <= |s| && forall i | k <= i < |s| :: !test(s[i])
    ensures Count(s, test) <= k
  {
    if k < |s| {
      CountAtMost(s[..|s| - 1], k, test);
    } else if s != [] {
      CountAtMost(s[..|s| - 1], k - 1, test);
    }
  }

  /** `getPercentile`: the index is `ceil(p / 100 * n) - 1`, not below 0. */
  function GetPercentile(sorted: seq<real>, percentile: nat): (r: real)
    requires percentile <= 100
    ensures sorted != [] ==> r in sorted
  {
    if sorted == [] then 0.0
    else
      var index := (percentile * |sorted| + 99) / 100 - 1;
      sorted[if index < 0 then 0 else index]
  }

  function AtMost(v: real): real -> bool {
    x => x <= v
  }

  function Less(v: real): real -> bool {
    x => x < v
  }

  /** At least p per cent of the samples are at most `v`, and fewer are below it. */
  predicate NearestRank(samples: seq<real>, p: nat, v: real) {
    && v in samples
    && 100 * Count(samples, AtMost(v)) >= p * |samples|
    && 100 * Count(samples, Less(v)) < p * |samples|
  }

  lemma CountsAround(sorted: seq<real>, index: nat)
    requires Ascending(sorted) && index < |sorted|
    ensures Count(sorted, AtMost(sorted[index])) >= index + 1
    ensures Count(sorted, Less(sorted[index])) <= index
  {
    CountAtLeast(sorted, index + 1, AtMost(sorted[index]));
    CountAtMost(sorted, index, Less(sorted[index]));
  }

  lemma RankOfSorted(sorted: seq<real>, p: nat) returns (v: real)
    requires sorted != [] && Ascending(sorted) && 0 < p <= 100
    ensures v == GetPercentile(sorted, p) && NearestRank(sorted, p, v)
  {
    var index := RankInRange(p, |sorted|);
    v := sorted[index];
    CountsAround(sorted, index);
    RankedRight(|sorted|, p, index, Count(sorted, AtMost(v)), Count(sorted, Less(v)));
  }

  lemma RankedRight(n: nat, p: nat, index: nat, atMost: nat, less: nat)
    requires 100 * index < p * n <= 100 * (index + 1) && atMost >= index + 1 && less <= index
    ensures 100 * atMost >= p * n && 100 * less < p * n
  {
  }

  /** In exact arithmetic the result is the nearest-rank percentile of the samples. */
  lemma PercentileIsNearestRank(samples: seq<real>, p: nat)
    requires samples != [] && 0 < p <= 100
    ensures NearestRank(samples, p, GetPercentile(SortBy(samples, ByNumber()), p))
  {
    var sorted := SortBy(samples, ByNumber());
    SameMembers(sorted, samples);
    SortAscends(samples);
    var v := RankOfSorted(sorted, p);
    CountSort(samples, AtMost(v));
    CountSort(samples, Less(v));
  }

  lemma RankInRange(p: nat, n: nat) returns (index: nat)
    requires n > 0 && 0 < p <= 100
    ensures index == (p * n + 99) / 100 - 1 && index < n
    ensures 100 * index < p * n <= 100 * (index + 1)
  {
    assert p * n > 0;
    assert p * n <= 100 * n;
    index := (p * n + 99) / 100 - 1;
  }

  lemma PercentilesAscend(sorted: seq<real>, p: nat, q: nat)
    requires Ascending(sorted) && 0 < p <= q <= 100
    ensures GetPercentile(sorted, p) <= GetPercentile(sorted, q)
  {
    if sorted != [] {
      var n := |sorted|;
      assert p * n <= q * n;
      var i := RankInRange(p, n);
      var j := RankInRange(q, n);
      assert i <= j;
    }
  }

  // ---------------------------------------------------------------- the mean

  function Total(s: seq<real>): real {
    if s == [] then 0.0 else Total(s[..|s| - 1]) + s[|s| - 1]
  }

  lemma {:induction false} TotalBetween(s: seq<real>, low: real, high: real)
    requires forall i | 0 <= i < |s| :: low <= s[i] <= high
    ensures low * |s| as real <= Total(s) <= high * |s| as real
  {
    if s != [] {
      TotalBetween(s[..|s| - 1], low, high);
      assert |s| as real == (|s| - 1) as real + 1.0;
    }
  }

  lemma {:induction false} TotalInsert(s: seq<real>, x: real)
    ensures Total(Insert(s, x, ByNumber())) == Total(s) + x
  {
    if s == [] || ByNumber()(s[|s| - 1], x) <= 0 {
      assert (s + [x])[..|s|] == s;
    } else {
      var front, last := s[..|s| - 1], s[|s| - 1];
      TotalInsert(front, x);
      var r := Insert(front, x, ByNumber());
      assert (r + [last])[..|r|] == r;
    }
  }

  lemma {:induction false} TotalSort(s: seq<real>)
    ensures Total(SortBy(s, ByNumber())) == Total(s)
  {
    if s != [] {
      TotalSort(s[..|s| - 1]);
      TotalInsert(SortBy(s[..|s| - 1], ByNumber()), s[|s| - 1]);
    }
  }

  lemma QuotientBetween(total: real, n: real, low: real, high: real)
    requires n > 0.0 && low * n <= total <= high * n
    ensures low <= total / n <= high
  {
    var q := total / n;
    assert q * n == total;
    CancelFactor(low, q, n);
    CancelFactor(q, high, n);
  }

  lemma CancelFactor(a: real, b: real, n: real)
    requires n > 0.0 && a * n <= b * n
    ensures a <= b
  {
    assert (b - a) * n >= 0.0;
  }

  /** The mean lies between the least and the greatest sample. */
  lemma MeanBetween(sorted: seq<real>)
    requires sorted != [] && Ascending(sorted)
    ensures sorted[0] <= Total(sorted) / |sorted| as real <= sorted[|sorted| - 1]
  {
    MeanWithin(sorted, sorted[0], sorted[|sorted| - 1]);
  }

  lemma MeanWithin(s: seq<real>, low: real, high: real)
    requires s != [] && forall i | 0 <= i < |s| :: low <= s[i] <= high
    ensures low <= Total(s) / |s| as real <= high
  {
    TotalBetween(s, low, high);
    QuotientBetween(Total(s), |s| as real, low, high);
  }

  // ---------------------------------------------------------------- connections

  datatype Change = Opened | Closed

  /** The counter, which a close never takes below 0. */
  function Counter(run: seq<Change>): nat {
    if run == [] then 0
    else
      var before := Counter(run[..|run| - 1]);
      if run[|run| - 1].Opened? then before + 1 else if before == 0 then 0 else before - 1
  }

  lemma CounterMoves(run: seq<Change>, change: Change)
    ensures Counter(run + [change])
         == if change.Opened? then Counter(run) + 1 else if Counter(run) == 0 then 0 else Counter(run) - 1
  {
    assert (run + [change])[..|run|] == run;
  }

  function Balance(run: seq<Change>): int {
    if run == [] then 0
    else Balance(run[..|run| - 1]) + if run[|run| - 1].Opened? then 1 else -1
  }

  /** How far below 0 the plain balance ever went. */
  function Debt(run: seq<Change>): (d: nat)
    ensures Balance(run) + d >= 0
  {
    if run == [] then 0
    else
      var d := Debt(run[..|run| - 1]);
      if -Balance(run) > d then -Balance(run) else d
  }

  lemma {:induction false} CounterForgivesDebt(run: seq<Change>)
    ensures Counter(run) == Balance(run) + Debt(run)
  {
    if run != [] {
      CounterForgivesDebt(run[..|run| - 1]);
    }
  }

  lemma {:induction false} DebtMeansNegative(run: seq<Change>)
    ensures Debt(run) == 0 <==> forall k | 0 <= k <= |run| :: Balance(run[..k]) >= 0
  {
    assert run[..|run|] == run;
    if run != [] {
      var front := run[..|run| - 1];
      DebtMeansNegative(front);
      forall k | 0 <= k < |run| ensures run[..k] == front[..k] {}
    }
  }

  /** The counter is opens minus closes exactly when the closes never ran ahead. */
  lemma CounterIsTheBalance(run: seq<Change>)
    ensures Counter(run) == Balance(run) <==> forall k | 0 <= k <= |run| :: Balance(run[..k]) >= 0
  {
    CounterForgivesDebt(run);
    DebtMeansNegative(run);
  }

  // ---------------------------------------------------------------- the service

  function Durations(history: seq<Sample>): (r: seq<real>)
    ensures |r| == |history|
  {
    seq(|history|, i requires 0 <= i < |history| => history[i].duration)
  }

  function Failures(history: seq<Sample>): (n: nat)
    ensures n <= |history|
  {
    if history == [] then 0
    else Failures(history[..|history| - 1]) + if history[|history| - 1].success then 0 else 1
  }

  function LastOf(s: seq<real>, n: nat): seq<real> {
    if |s| <= n then s else s[|s| - n..]
  }

  datatype RequestMetrics = RequestMetrics(
    totalRequests: nat, successfulRequests: int, failedRequests: nat, errorRate: real,
    avgResponseTime: real, p50: real, p95: real, p99: real, activeConnections: nat)

  /** What a report says about the samples of its window. */
  ghost predicate Reports(m: RequestMetrics, window: seq<real>) {
    if window == [] then m.avgResponseTime == m.p50 == m.p95 == m.p99 == 0.0
    else
      && NearestRank(window, 50, m.p50) && NearestRank(window, 95, m.p95) && NearestRank(window, 99, m.p99)
      && m.p50 <= m.p95 <= m.p99
      && m.avgResponseTime == Total(window) / |window| as real
      && (exists x :: x in window && x <= m.avgResponseTime)
      && (exists x :: x in window && m.avgResponseTime <= x)
  }

  class MetricsService {
    const hasLogger: bool
    var requestCount: nat
    var errorCount: nat
    var responseTimes: seq<real>
    var activeConnections: nat
    /** Every request since the last reset, and every change of the connections. */
    ghost var history: seq<Sample>
    ghost var changes: seq<Change>

    ghost predicate Valid()
      reads this
    {
      && requestCount == |history|
      && errorCount == Failures(history)
      && responseTimes == LastOf(Durations(history), WINDOW)
      && activeConnections == Counter(changes)
    }

    constructor (hasLogger: bool)
      ensures Valid() && history == [] && changes == []
    {
      this.hasLogger := hasLogger;
      requestCount, errorCount, responseTimes, activeConnections := 0, 0, [], 0;
      history, changes := [], [];
    }

    method RecordRequest(duration: real, success: bool)
      requires Valid()
      modifies `requestCount, `errorCount, `responseTimes, `history
      ensures Valid() && history == old(history) + [Sample(duration, success)]
      ensures requestCount == old(requestCount) + 1 && errorCount == old(errorCount) + if success then 0 else 1
      ensures responseTimes == (if |old(responseTimes)| < 10000 then old(responseTimes) else old(responseTimes)[1..]) + [duration]
    {
      WindowSlides(Durations(history), duration);
      HistoryGrows(history, Sample(duration, success));
      requestCount := requestCount + 1;
      responseTimes := responseTimes + [duration];
      if !success {
        errorCount := errorCount + 1;
      }
      if |responseTimes| > WINDOW {
        responseTimes := responseTimes[|responseTimes| - WINDOW..];
      }
      history := history + [Sample(duration, success)];
    }

    method IncrementConnections()
      requires Valid()
      modifies `activeConnections, `changes
      ensures Valid() && changes == old(changes) + [Opened]
      ensures activeConnections == old(activeConnections) + 1
    {
      activeConnections := activeConnections + 1;
      CounterMoves(changes, Opened);
      changes := changes + [Opened];
    }

    method DecrementConnections()
      requires Valid()
      modifies `activeConnections, `changes
      ensures Valid() && changes == old(changes) + [Closed]
      ensures activeConnections == if old(activeConnections) == 0 then 0 else old(activeConnections) - 1
    {
      activeConnections := if activeConnections - 1 > 0 then activeConnections - 1 else 0;
      CounterMoves(changes, Closed);
      changes := changes + [Closed];
    }

    /** The hourly reset does nothing on a service without a logger. */
    method ResetHourlyMetrics()
      requires Valid()
      modifies `requestCount, `errorCount, `responseTimes, `history
      ensures Valid() && history == if hasLogger then [] else old(history)
      ensures hasLogger ==> requestCount == 0 && errorCount == 0 && responseTimes == []
      ensures !hasLogger ==>
        requestCount == old(requestCount) && errorCount == old(errorCount) && responseTimes == old(responseTimes)
    {
      if !hasLogger {
        return;
      }
      requestCount, errorCount, responseTimes := 0, 0, [];
      history := [];
    }

    method GetRequestMetrics() returns (m: RequestMetrics)
      requires Valid()
      ensures m.totalRequests == |history|
      ensures m.failedRequests == |set i: nat | i < |history| && !history[i].success|
      ensures m.successfulRequests + m.failedRequests == m.totalRequests
      ensures RateIsRight(m.errorRate, m.failedRequests, m.totalRequests)
      ensures var d := Durations(history);
        Reports(m, if |d| <= 10000 then d else d[|d| - 10000..])
      ensures m.activeConnections == Counter(changes)
    {
      var sorted := SortBy(responseTimes, ByNumber());
      var avg := Mean(sorted);
      m := RequestMetrics(requestCount, requestCount - errorCount, errorCount, ErrorRate(errorCount, requestCount), avg,
        GetPercentile(sorted, 50), GetPercentile(sorted, 95), GetPercentile(sorted, 99), activeConnections);
      ReportIsRight(m, responseTimes, sorted);
      FailuresCounted(history);
    }
  }

  predicate RateIsRight(rate: real, errors: nat, requests: nat) {
    0.0 <= rate <= 100.0 && rate * requests as real == errors as real * 100.0 && (requests == 0 ==> rate == 0.0)
  }

  /** In per cent, and 0 when nothing was requested. */
  function ErrorRate(errors: nat, requests: nat): (rate: real)
    requires errors <= requests
    ensures RateIsRight(rate, errors, requests)
  {
    if requests > 0 then
      var quotient := errors as real / requests as real;
      QuotientBetween(errors as real, requests as real, 0.0, 1.0);
      assert quotient * requests as real == errors as real;
      quotient * 100.0
    else 0.0
  }

  /** The reduction of the array to its mean. */
  method Mean(sorted: seq<real>) returns (avg: real)
    ensures avg == if sorted == [] then 0.0 else Total(sorted) / |sorted| as real
  {
    if |sorted| == 0 {
      return 0.0;
    }
    var sum := 0.0;
    for i := 0 to |sorted|
      invariant sum == Total(sorted[..i])
    {
      assert sorted[..i + 1][..i] == sorted[..i];
      sum := sum + sorted[i];
    }
    assert sorted[..|sorted|] == sorted;
    avg := sum / |sorted| as real;
  }

  lemma {:induction false} FailuresCounted(history: seq<Sample>)
    ensures Failures(history) == |set i: nat | i < |history| && !history[i].success|
  {
    var failed := set i: nat | i < |history| && !history[i].success;
    if history == [] {
      assert failed == {};
    } else {
      var front, last := history[..|history| - 1], |history| - 1;
      FailuresCounted(front);
      var before := set i: nat | i < |front| && !front[i].success;
      assert failed == before + if history[last].success then {} else {last};
    }
  }

  lemma HistoryGrows(history: seq<Sample>, sample: Sample)
    ensures Durations(history + [sample]) == Durations(history) + [sample.duration]
    ensures Failures(history + [sample]) == Failures(history) + if sample.success then 0 else 1
  {
    assert (history + [sample])[..|history|] == history;
  }

  lemma WindowSlides(s: seq<real>, x: real)
    ensures LastOf(LastOf(s, WINDOW) + [x], WINDOW) == LastOf(s + [x], WINDOW)
  {
  }

  lemma ReportIsRight(m: RequestMetrics, window: seq<real>, sorted: seq<real>)
    requires sorted == SortBy(window, ByNumber())
    requires
      && m.avgResponseTime == (if sorted == [] then 0.0 else Total(sorted) / |sorted| as real)
      && m.p50 == GetPercentile(sorted, 50) && m.p95 == GetPercentile(sorted, 95) && m.p99 == GetPercentile(sorted, 99)
    ensures Reports(m, window)
  {
    SameMembers(sorted, window);
    if window != [] {
      SortAscends(window);
      PercentileIsNearestRank(window, 50);
      PercentileIsNearestRank(window, 95);
      PercentileIsNearestRank(window, 99);
      PercentilesAscend(sorted, 50, 95);
      PercentilesAscend(sorted, 95, 99);
      TotalSort(window);
      MeanBetween(sorted);
      assert sorted[0] in sorted && sorted[|sorted| - 1] in sorted;
    }
  }
}
