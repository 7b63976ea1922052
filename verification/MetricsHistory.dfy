/** What the figures of the metrics store mean, for every history of records. */
module MetricsHistory {
  import opened Common
  import opened Metrics

  // ---------- endpoints partition the requests

  /** The keys, each once, are those of the table. */
  ghost predicate Lists(keys: seq<string>, requests: seq<Request>) {
    NoDuplicates(keys) && forall k :: k in keys <==> k in EndpointTable(requests)
  }

  function SumOverKeys(keys: seq<string>, requests: seq<Request>, weight: Request -> real): real {
    if keys == [] then 0.0
    else SumOverKeys(Init(keys), requests, weight) + Sum(WithKey(requests, Last(keys)), weight)
  }

  /** A request adds its weight to one key, once. */
  lemma {:induction false} RequestCountsOnce(
    keys: seq<string>, requests: seq<Request>, x: Request, weight: Request -> real)
    requires NoDuplicates(keys)
    ensures SumOverKeys(keys, requests + [x], weight)
         == SumOverKeys(keys, requests, weight) + if Key(x) in keys then weight(x) else 0.0
  {
    if keys != [] {
      var k := Last(keys);
      assert keys == Init(keys) + [k];
      RequestCountsOnce(Init(keys), requests, x, weight);
      FilterAppend(requests, x, HasKey(k));
      SumAppend(WithKey(requests, k), x, weight);
    }
  }

  lemma {:induction false} NoRequestsNoSum(keys: seq<string>, weight: Request -> real)
    ensures SumOverKeys(keys, [], weight) == 0.0
  {
    if keys != [] {
      NoRequestsNoSum(Init(keys), weight);
    }
  }

  lemma {:induction false} SumOverAllKeys(keys: seq<string>, requests: seq<Request>, weight: Request -> real)
    requires NoDuplicates(keys) && forall r :: r in requests ==> Key(r) in keys
    ensures SumOverKeys(keys, requests, weight) == Sum(requests, weight)
  {
    if requests == [] {
      NoRequestsNoSum(keys, weight);
    } else {
      var x := Last(requests);
      assert requests == Init(requests) + [x];
      SumOverAllKeys(keys, Init(requests), weight);
      RequestCountsOnce(keys, Init(requests), x, weight);
    }
  }

  const ONE: Request -> real := (r: Request) => 1.0
  const ONE_IF_FAILED: Request -> real := (r: Request) => if FAILED(r) then 1.0 else 0.0

  lemma {:induction false} SumCounts(s: seq<Request>)
    ensures Sum(s, ONE) == |s| as real && Sum(s, ONE_IF_FAILED) == Count(s, FAILED) as real
  {
    if s != [] {
      SumCounts(Init(s));
    }
  }

  function SumFigures(keys: seq<string>, table: map<string, Endpoint>, figure: Endpoint -> real): real
    requires forall k :: k in keys ==> k in table
  {
    if keys == [] then 0.0 else SumFigures(Init(keys), table, figure) + figure(table[Last(keys)])
  }

  lemma {:induction false} FiguresAreSums(
    keys: seq<string>, requests: seq<Request>, figure: Endpoint -> real, weight: Request -> real)
    requires forall k :: k in keys ==> k in EndpointTable(requests)
    requires forall k :: k in keys ==> figure(EndpointTable(requests)[k]) == Sum(WithKey(requests, k), weight)
    ensures SumFigures(keys, EndpointTable(requests), figure) == SumOverKeys(keys, requests, weight)
  {
    if keys != [] {
      assert keys == Init(keys) + [Last(keys)];
      FiguresAreSums(Init(keys), requests, figure, weight);
    }
  }

  /**
   Whatever was recorded, the endpoints' request counts add up to all requests, their error counts to
   the failed requests, and their durations to the total duration: no request is lost or counted twice.
   */
  lemma EndpointFiguresAddUp(keys: seq<string>, requests: seq<Request>)
    requires Lists(keys, requests)
    ensures SumFigures(keys, EndpointTable(requests), (e: Endpoint) => e.requestCount as real) == |requests| as real
    ensures SumFigures(keys, EndpointTable(requests), (e: Endpoint) => e.errorCount as real)
         == Count(requests, FAILED) as real
    ensures SumFigures(keys, EndpointTable(requests), (e: Endpoint) => e.totalMs) == Sum(requests, DURATION)
  {
    forall r | r in requests ensures Key(r) in keys {
      assert Key(r) in EndpointTable(requests);
    }
    forall k | k in keys
      ensures Sum(WithKey(requests, k), ONE) == |WithKey(requests, k)| as real
      ensures Sum(WithKey(requests, k), ONE_IF_FAILED) == Count(WithKey(requests, k), FAILED) as real
    {
      SumCounts(WithKey(requests, k));
    }
    SumCounts(requests);
    FiguresAreSums(keys, requests, (e: Endpoint) => e.requestCount as real, ONE);
    FiguresAreSums(keys, requests, (e: Endpoint) => e.errorCount as real, ONE_IF_FAILED);
    FiguresAreSums(keys, requests, (e: Endpoint) => e.totalMs, DURATION);
    SumOverAllKeys(keys, requests, ONE);
    SumOverAllKeys(keys, requests, ONE_IF_FAILED);
    SumOverAllKeys(keys, requests, DURATION);
  }

  // ---------- minimum, average, maximum

  /** The recorded minimum and maximum are durations of the endpoint, and bound all of them. */
  lemma {:induction false} MinMaxAreExtremes(s: seq<Request>)
    requires s != []
    ensures forall r :: r in s ==> Min(s) <= r.durationMs <= Max(s)
    ensures exists r :: r in s && r.durationMs == Min(s)
    ensures exists r :: r in s && r.durationMs == Max(s)
  {
    assert s == Init(s) + [Last(s)] && Last(s) in s;
    if |s| > 1 {
      MinMaxAreExtremes(Init(s));
    }
  }

  function Product(x: real, n: nat): real {
    x * n as real
  }

  lemma ProductGrows(x: real, n: nat)
    ensures Product(x, n + 1) == Product(x, n) + x
  {
  }

  lemma ProductIsMonotone(x: real, y: real, n: nat)
    requires x <= y
    ensures Product(x, n) <= Product(y, n)
  {
    var d, m := y - x, n as real;
    assert d * m >= 0.0;
    assert y * m == x * m + d * m;
  }

  lemma {:induction false} ProductsBound(s: seq<Request>)
    requires s != []
    ensures Product(Min(s), |s|) <= Sum(s, DURATION) <= Product(Max(s), |s|)
  {
    var front, d := Init(s), Last(s).durationMs;
    assert |s| == |front| + 1 && Sum(s, DURATION) == Sum(front, DURATION) + d;
    if |s| == 1 {
      assert Sum(front, DURATION) == 0.0 && Min(s) == d == Max(s);
      assert Product(d, 1) == d;
    } else {
      assert Min(s) <= Min(front) && Min(s) <= d && Max(front) <= Max(s) && d <= Max(s);
      hide Min, Max, Sum, Product;
      ProductsBound(front);
      ProductIsMonotone(Min(s), Min(front), |front|);
      ProductIsMonotone(Max(front), Max(s), |front|);
      ProductGrows(Min(s), |front|);
      ProductGrows(Max(s), |front|);
    }
  }

  lemma SumIsBetween(s: seq<Request>)
    requires s != []
    ensures Min(s) * |s| as real <= Sum(s, DURATION) <= Max(s) * |s| as real
  {
    ProductsBound(s);
    hide Min, Max, Sum;
  }

  /** In every endpoint's figures the exact average lies between the minimum and the maximum. */
  lemma AverageIsBetween(requests: seq<Request>, key: string)
    requires key in EndpointTable(requests)
    ensures var e := EndpointTable(requests)[key];
            && e.requestCount > 0
            && e.errorCount + e.successCount == e.requestCount
            && e.minMs <= e.totalMs / e.requestCount as real <= e.maxMs
  {
    TableKey(requests, key);
    EndpointIsConsistent(WithKey(requests, key));
  }

  lemma EndpointIsConsistent(s: seq<Request>)
    requires s != []
    ensures var e := EndpointOf(s);
            && e.requestCount > 0
            && e.errorCount + e.successCount == e.requestCount
            && e.minMs <= e.totalMs / e.requestCount as real <= e.maxMs
  {
    var total, n := Sum(s, DURATION), |s| as real;
    assert Min(s) <= total / n <= Max(s) by {
      SumIsBetween(s);
      Quotient(Min(s), total, Max(s), n);
    }
  }

  lemma Quotient(lo: real, total: real, hi: real, n: real)
    requires n > 0.0 && lo * n <= total <= hi * n
    ensures lo <= total / n <= hi
  {
    assert total == (total / n) * n;
  }

  // ---------- what one more record changes

  /** Averages and rates are given to two decimals. */
  ghost predicate IsNear(shown: real, exact: real) {
    Abs(shown - exact) <= 0.005
  }

  lemma RoundIsNear(x: real)
    ensures IsNear(Round2(x), x)
  {
    var f := (x * 100.0 + 0.5).Floor as real;
    assert x * 100.0 - 0.5 < f <= x * 100.0 + 0.5;
  }

  /** The figures that follow from the counts and the total. */
  ghost predicate IsConsistent(e: Endpoint)
    requires e.requestCount > 0
  {
    var n := e.requestCount as real;
    && e.successCount as int == e.requestCount - e.errorCount
    && (e.requestCount == 1 ==> e.avgMs == e.totalMs)
    && IsNear(e.avgMs, e.totalMs / n)
    && IsNear(e.successRate, e.successCount as real / n * 100.0)
  }

  /** `after` are the figures once a request has been added to those of `before`, which has some already. */
  ghost predicate IsNextOf(after: Endpoint, before: Endpoint, x: Request) {
    && after.requestCount == before.requestCount + 1
    && after.errorCount == before.errorCount + (if x.status >= 400 then 1 else 0)
    && after.totalMs == before.totalMs + x.durationMs
    && after.minMs == (if x.durationMs < before.minMs then x.durationMs else before.minMs)
    && after.maxMs == (if x.durationMs > before.maxMs then x.durationMs else before.maxMs)
    && after.verb == before.verb && after.route == before.route
  }

  ghost predicate IsFirstOf(e: Endpoint, x: Request) {
    && e.verb == x.verb && e.route == x.route
    && e.requestCount == 1 && e.errorCount == (if x.status >= 400 then 1 else 0)
    && e.totalMs == e.minMs == e.maxMs == x.durationMs
  }

  /**
   A request changes the figures of its own endpoint and of no other: it starts them, or adds to its
   counts, its total and its extremes.
   */
  lemma RequestMovesItsEndpoint(requests: seq<Request>, x: Request)
    ensures var before, after, key := EndpointTable(requests), EndpointTable(requests + [x]), x.verb + " " + x.route;
            && after.Keys == before.Keys + {key}
            && (forall k :: k in before && k != key ==> after[k] == before[k])
            && (key !in before ==> IsFirstOf(after[key], x))
            && (key in before ==> IsNextOf(after[key], before[key], x))
            && after[key].requestCount > 0 && IsConsistent(after[key])
  {
    var s := WithKey(requests, Key(x));
    EndpointTableGrows(requests, x);
    TableKey(requests, Key(x));
    if s == [] {
      FirstFigures(x);
      assert [] + [x] == s + [x];
    } else {
      NextFigures(s, x);
    }
    FiguresAreConsistent(s + [x]);
    hide EndpointOf, IsConsistent;
  }

  lemma FirstFigures(x: Request)
    ensures IsFirstOf(EndpointOf([x]), x)
  {
    assert [] + [x] == [x];
    SumAppend([], x, DURATION);
    CountAppend([], x, FAILED);
  }

  lemma NextFigures(s: seq<Request>, x: Request)
    requires s != []
    ensures IsNextOf(EndpointOf(s + [x]), EndpointOf(s), x)
  {
    AppendUnfolds(s, x);
    SumAppend(s, x, DURATION);
    CountAppend(s, x, FAILED);
  }

  lemma FiguresAreConsistent(s: seq<Request>)
    requires s != []
    ensures IsConsistent(EndpointOf(s))
  {
    var n := |s| as real;
    var total, successes := Sum(s, DURATION), |s| - Count(s, FAILED);
    CountIsBounded(s, FAILED);
    RoundIsNear(total / n);
    RoundIsNear(successes as real / n * 100.0);
    hide Round2, Sum, Count, Min, Max, IsNear;
    assert |s| == 1 ==> total / n == total;
    NearItself(total);
  }

  lemma NearItself(x: real)
    ensures IsNear(x, x)
  {
  }

  /** A query adds one to the count of its pattern and its duration to the total, and changes no other pattern. */
  lemma QueryMovesItsPattern(queries: seq<Query>, x: Query)
    ensures var before, after := PatternTable(queries), PatternTable(queries + [x]);
            && after.Keys == before.Keys + {x.pattern}
            && (forall p :: p in before && p != x.pattern ==> after[p] == before[p])
            && (x.pattern !in before ==> after[x.pattern] == PatternStats(1, x.durationMs, x.durationMs))
            && (x.pattern in before ==>
                  && after[x.pattern].count == before[x.pattern].count + 1
                  && after[x.pattern].totalMs == before[x.pattern].totalMs + x.durationMs
                  && after[x.pattern].count > 0
                  && IsNear(after[x.pattern].avgMs, after[x.pattern].totalMs / after[x.pattern].count as real))
  {
    hide Sum, Filter, PatternTable;
    PatternTableGrows(queries, x);
    PatternGrows(queries, x);
    var s := WithPattern(queries, x.pattern);
    RoundIsNear((Sum(s, QUERY_DURATION) + x.durationMs) / (|s| + 1) as real);
    hide Round2, IsNear;
  }

  /** What each log holds: the end of what was recorded, of no more than its length. */
  lemma LogsAreSuffixes(ms: real, h: History)
    ensures var store := StoreOf(ms, h);
            && store.requestLogs == h.requests[if |h.requests| <= 2000 then 0 else |h.requests| - 2000..]
            && store.slowRequests == h.slow[if |h.slow| <= 500 then 0 else |h.slow| - 500..]
            && store.queryLogs == h.queries[if |h.queries| <= 1000 then 0 else |h.queries| - 1000..]
            && store.errors == h.errors[if |h.errors| <= 500 then 0 else |h.errors| - 500..]
            && store.nPlusOneWarnings == h.warnings[if |h.warnings| <= 200 then 0 else |h.warnings| - 200..]
  {
    LastNIsSuffix(h.requests, 2000);
    LastNIsSuffix(h.slow, 500);
    LastNIsSuffix(h.queries, 1000);
    LastNIsSuffix(h.errors, 500);
    LastNIsSuffix(h.warnings, 200);
  }

  function FailedAt(requests: seq<Request>): set<nat> {
    set i: nat | i < |requests| && requests[i].status >= 400
  }

  lemma {:induction false} FailedAreCounted(requests: seq<Request>)
    ensures Count(requests, FAILED) == |FailedAt(requests)|
    decreases requests
  {
    if requests != [] {
      var front, last := Init(requests), Last(requests);
      FailedAreCounted(front);
      var more := if last.status >= 400 then {|front|} else {};
      assert FailedAt(requests) == FailedAt(front) + more;
    }
  }

  /** The figures reported: those of the request log, which holds the last requests, and those of the whole history. */
  lemma PerformanceFiguresAre(h: History, upMs: int)
    ensures var p := PerformanceOf(h, upMs);
            var log := h.requests[if |h.requests| <= 2000 then 0 else |h.requests| - 2000..];
            && p.totalRequests == |log|
            && (log == [] ==> p.avgResponseTimeMs == 0.0)
            && (log != [] ==> IsNear(p.avgResponseTimeMs, Sum(log, DURATION) / |log| as real))
            && p.slowRequestCount == (if |h.slow| <= 500 then |h.slow| else 500)
            && p.errorCount == (if |h.errors| <= 500 then |h.errors| else 500)
            && p.failedRequestCount == |FailedAt(h.requests)|
            && IsNear(p.totalDatabaseTimeMs, Sum(h.queries, QUERY_DURATION))
            && p.uptimeSeconds * 1000 <= upMs < (p.uptimeSeconds + 1) * 1000
  {
    LogsAreSuffixes(0.0, h);
    FailedAreCounted(h.requests);
    var log := LastN(h.requests, MAX_REQUEST_LOGS);
    if log != [] {
      RoundIsNear(Sum(log, DURATION) / |log| as real);
    }
    RoundIsNear(Sum(h.queries, QUERY_DURATION));
    hide FailedAt, Count, LastN, Round2, Sum, IsNear, HealthOf;
  }

  // ---------- system health

  /**
   The health depends on everything recorded, although the logs keep only their ends: it is critical with
   more than 50 slow requests, 100 failed ones or 200 errors, and healthy up to 10, 20 and 50.
   */
  lemma HealthIff(h: History, upMs: int)
    ensures var health, failed := PerformanceOf(h, upMs).systemHealth, |FailedAt(h.requests)|;
            && (health == Critical <==> |h.slow| > 50 || failed > 100 || |h.errors| > 200)
            && (health == Healthy <==> |h.slow| <= 10 && failed <= 20 && |h.errors| <= 50)
  {
    FailedAreCounted(h.requests);
    LastNIsSuffix(h.slow, MAX_SLOW_LOGS);
    LastNIsSuffix(h.errors, MAX_ERRORS);
    hide FailedAt, Count, LastN;
  }

  function Rank(h: Health): nat {
    match h case Healthy => 0 case Degraded => 1 case Critical => 2
  }

  /** More has been recorded since: every history is continued. */
  ghost predicate Continues(later: History, h: History) {
    && h.requests <= later.requests && h.slow <= later.slow && h.queries <= later.queries
    && h.errors <= later.errors && h.warnings <= later.warnings
  }

  lemma {:induction false} CountIsMonotone<T>(s: seq<T>, longer: seq<T>, p: T -> bool)
    requires s <= longer
    ensures Count(s, p) <= Count(longer, p)
    decreases |longer|
  {
    if |s| < |longer| {
      assert s <= Init(longer);
      CountIsMonotone(s, Init(longer), p);
    } else {
      assert s == longer;
    }
  }

  /** The system health reported after more records is never better: dropping old log entries cannot heal it. */
  lemma HealthNeverImproves(h: History, later: History, upMs: int, laterUpMs: int)
    requires Continues(later, h)
    ensures Rank(PerformanceOf(h, upMs).systemHealth) <= Rank(PerformanceOf(later, laterUpMs).systemHealth)
  {
    CountIsMonotone(h.requests, later.requests, FAILED);
    LastNIsSuffix(h.slow, MAX_SLOW_LOGS);
    LastNIsSuffix(later.slow, MAX_SLOW_LOGS);
    LastNIsSuffix(h.errors, MAX_ERRORS);
    LastNIsSuffix(later.errors, MAX_ERRORS);
  }
}

/**
 The detection of repeated queries within a request: `addQuery` of `src/observability/request-context.ts`
 and `recordQueryEvent` of `src/observability/prisma-performance.extension.ts`.
 */
module NPlusOne {
  import opened Common
  import opened Metrics

  /** How often the pattern occurs. */
  function Occurrences(patterns: seq<string>, p: string): nat {
    if patterns == [] then 0 else Occurrences(Init(patterns), p) + if Last(patterns) == p then 1 else 0
  }

  datatype Report = Report(pattern: string, count: int)

  /** A pattern's count is first checked when it is 1, so a lower threshold acts as 1. */
  function Effective(threshold: int): int {
    if threshold < 1 then 1 else threshold
  }

  /** A report at each position where a pattern's count reaches the threshold, in order. */
  function Crossings(patterns: seq<string>, threshold: int): seq<Report> {
    if patterns == [] then []
    else
      var count := Occurrences(patterns, Last(patterns));
      Crossings(Init(patterns), threshold)
      + if count == Effective(threshold) then [Report(Last(patterns), count)] else []
  }

  class RequestContext {
    const requestId: string
    const route: string
    var databaseMs: real
    var queries: seq<Query>
    var queryPatterns: map<string, nat>
    var nPlusOneReported: set<string>
    /** The patterns of all queries of the request, and what was reported of them to a store with this threshold. */
    ghost var patterns: seq<string>
    ghost var reports: seq<Report>
    ghost const threshold: int

    /** The counts are those of the queries recorded so far. */
    ghost predicate ValidCounts()
      reads this
    {
      && |queries| == |patterns|
      && (forall i :: 0 <= i < |queries| ==> queries[i].pattern == patterns[i])
      && (forall p :: p in queryPatterns ==> queryPatterns[p] == Occurrences(patterns, p))
      && (forall p :: p !in queryPatterns ==> Occurrences(patterns, p) == 0)
    }

    /** What was reported is what had to be, given these queries. */
    ghost predicate Reported(patterns: seq<string>)
      reads this
    {
      && (forall p :: p in nPlusOneReported <==> Occurrences(patterns, p) >= Effective(threshold))
      && reports == Crossings(patterns, threshold)
    }

    ghost predicate Valid()
      reads this
    {
      ValidCounts() && Reported(patterns)
    }

    constructor (requestId: string, route: string, ghost threshold: int)
      ensures Valid() && patterns == [] && this.threshold == threshold
      ensures this.requestId == requestId && this.route == route
    {
      this.requestId, this.route := requestId, route;
      databaseMs, queries, queryPatterns, nPlusOneReported := 0.0, [], map[], {};
      patterns, reports := [], [];
      this.threshold := threshold;
    }

    method AddQuery(entry: Query)
      requires ValidCounts()
      modifies this`queries, this`queryPatterns, this`patterns
      ensures ValidCounts() && queries == old(queries) + [entry] && patterns == old(patterns) + [entry.pattern]
    {
      queries := queries + [entry];
      var count := (if entry.pattern in queryPatterns then queryPatterns[entry.pattern] else 0) + 1;
      queryPatterns := queryPatterns[entry.pattern := count];
      AppendUnfolds(patterns, entry.pattern);
      patterns := patterns + [entry.pattern];
    }

    /** The check after a query: has its pattern just become one to report? */
    method CheckNPlusOne(pattern: string, nPlusOneThreshold: int) returns (report: Option<Report>)
      requires ValidCounts() && nPlusOneThreshold == threshold
      requires patterns != [] && Last(patterns) == pattern && Reported(Init(patterns))
      modifies this`nPlusOneReported, this`reports
      ensures Valid()
      ensures reports == if report.Some? then old(reports) + [report.value] else old(reports)
    {
      var count := queryPatterns[pattern];
      if count >= nPlusOneThreshold && pattern !in nPlusOneReported {
        nPlusOneReported := nPlusOneReported + {pattern};
        report := Some(Report(pattern, count));
        reports := reports + [report.value];
      } else {
        report := None;
        assert reports + [] == reports;
      }
    }
  }

  function Slice200(s: string): string {
    if |s| <= 200 then s else s[..200]
  }

  /** The store's warning for a report: it carries at most 200 characters of the pattern. */
  function WarningOf(requestId: string, route: string, r: Report): Warning {
    Warning(requestId, Slice200(r.pattern), r.count, route)
  }

  lemma WarningCarries(requestId: string, route: string, r: Report)
    ensures var w := WarningOf(requestId, route, r);
            && w.requestId == requestId && w.route == route && w.count == r.count
            && w.pattern <= r.pattern && |w.pattern| == if |r.pattern| <= 200 then |r.pattern| else 200
  {
  }

  /**
   Records a query. Within a request, whatever has to be reported is passed on to the store as one
   warning; outside a request nothing is.
   */
  method RecordQueryEvent(ctx: RequestContext?, store: MetricsStore, entry: Query)
    requires store.Valid()
    requires ctx != null ==> ctx.Valid() && ctx.threshold == store.nPlusOneThreshold
    modifies store, if ctx == null then {} else {ctx}
    ensures store.Valid()
    ensures store.recorded.queries == old(store.recorded).queries + [entry]
    ensures ctx == null ==> store.recorded.warnings == old(store.recorded).warnings
    ensures ctx != null ==> ctx.Valid() && ctx.patterns == old(ctx.patterns) + [entry.pattern]
    ensures ctx != null ==>
              || (ctx.reports == old(ctx.reports) && store.recorded.warnings == old(store.recorded).warnings)
              || (&& ctx.reports != [] && ctx.reports == old(ctx.reports) + [Last(ctx.reports)]
                  && store.recorded.warnings == old(store.recorded).warnings
                       + [WarningOf(ctx.requestId, ctx.route, Last(ctx.reports))])
  {
    hide StoreOf, Crossings, Occurrences;
    if ctx != null {
      ctx.databaseMs := ctx.databaseMs + entry.durationMs;
      ctx.AddQuery(entry);
      AppendUnfolds(old(ctx.patterns), entry.pattern);
    }
    store.RecordQuery(entry);
    if ctx != null {
      var report := ctx.CheckNPlusOne(entry.pattern, store.nPlusOneThreshold);
      if report.Some? {
        store.RecordNPlusOne(WarningOf(ctx.requestId, ctx.route, report.value));
      }
    }
  }

  // ---------- what is reported

  function ReportsOf(reports: seq<Report>, p: string): nat {
    if reports == [] then 0 else ReportsOf(Init(reports), p) + if Last(reports).pattern == p then 1 else 0
  }

  function PlacesOf(patterns: seq<string>, p: string): set<nat> {
    set i: nat | i < |patterns| && patterns[i] == p
  }

  lemma {:induction false} OccurrencesAreCounted(patterns: seq<string>, p: string)
    ensures Occurrences(patterns, p) == |PlacesOf(patterns, p)|
    decreases patterns
  {
    if patterns != [] {
      var front := Init(patterns);
      OccurrencesAreCounted(front, p);
      assert PlacesOf(patterns, p) == PlacesOf(front, p) + if Last(patterns) == p then {|front|} else {};
    }
  }

  lemma {:induction false} ReportsAre(patterns: seq<string>, threshold: int, p: string)
    ensures ReportsOf(Crossings(patterns, threshold), p)
         == if Occurrences(patterns, p) >= Effective(threshold) then 1 else 0
  {
    if patterns != [] {
      var reports := Crossings(Init(patterns), threshold);
      ReportsAre(Init(patterns), threshold, p);
      AppendUnfolds(reports, Report(Last(patterns), Occurrences(patterns, Last(patterns))));
      assert reports + [] == reports;
    }
  }

  /**
   For any queries of a request: a pattern is reported exactly once if it occurs at least as often as
   the threshold says, and not at all otherwise. A threshold below 1 acts as 1.
   */
  lemma ReportedOnceIff(patterns: seq<string>, threshold: int, p: string)
    ensures threshold >= 1 ==>
              ReportsOf(Crossings(patterns, threshold), p) == if |PlacesOf(patterns, p)| >= threshold then 1 else 0
    ensures threshold < 1 ==> ReportsOf(Crossings(patterns, threshold), p) == if p in patterns then 1 else 0
  {
    ReportsAre(patterns, threshold, p);
    OccurrencesAreCounted(patterns, p);
    if i :| 0 <= i < |patterns| && patterns[i] == p {
      assert i in PlacesOf(patterns, p);
    } else {
      assert PlacesOf(patterns, p) == {};
    }
    hide PlacesOf, Occurrences, Crossings, ReportsOf;
  }

  /** Every report carries the count at which it was made: the threshold, or 1 for a threshold below 1. */
  lemma {:induction false} ReportsCarryThreshold(patterns: seq<string>, threshold: int)
    ensures forall r :: r in Crossings(patterns, threshold) ==>
              r.pattern in patterns && r.count == if threshold >= 1 then threshold else 1
  {
    if patterns != [] {
      ReportsCarryThreshold(Init(patterns), threshold);
      assert patterns == Init(patterns) + [Last(patterns)];
    }
  }
}
