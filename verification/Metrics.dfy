/**
 The metrics store, `src/observability/metrics-store.ts`: bounded logs and running aggregates, judged
 against the full history of what was recorded.
 */
module Metrics {
  import opened Common

  const MAX_REQUEST_LOGS: nat := 2_000
  const MAX_SLOW_LOGS: nat := 500
  const MAX_QUERY_LOGS: nat := 1_000
  const MAX_ERRORS: nat := 500
  const MAX_N_PLUS_ONE: nat := 200

  datatype Request = Request(id: string, verb: string, route: string, status: int, durationMs: real)
  datatype Query = Query(pattern: string, durationMs: real, requestId: Option<string>)
  datatype Warning = Warning(requestId: string, pattern: string, count: int, route: string)
  datatype ErrorEntry = ErrorEntry(message: string)

  datatype Endpoint = Endpoint(
    verb: string, route: string, requestCount: nat, errorCount: nat, successCount: nat,
    totalMs: real, minMs: real, maxMs: real, avgMs: real, successRate: real)

  datatype PatternStats = PatternStats(count: nat, totalMs: real, avgMs: real)

  datatype Health = Healthy | Degraded | Critical

  datatype Performance = Performance(
    totalRequests: nat, avgResponseTimeMs: real, slowRequestCount: nat, failedRequestCount: nat,
    totalDatabaseTimeMs: real, errorCount: nat, uptimeSeconds: int, systemHealth: Health)

  function Key(r: Request): string {
    r.verb + " " + r.route
  }

  predicate IsError(r: Request) {
    r.status >= 400
  }

  // ---------- folds over a history

  function Init<T>(s: seq<T>): seq<T>
    requires s != []
  {
    s[..|s| - 1]
  }

  function Last<T>(s: seq<T>): T
    requires s != []
  {
    s[|s| - 1]
  }

  /** The last `n` of a history, or all of it: the oldest are dropped until at most `n` are left. */
  function LastN<T>(s: seq<T>, n: nat): seq<T> {
    if |s| <= n then s else LastN(s[1..], n)
  }

  lemma {:induction false} LastNIsSuffix<T>(s: seq<T>, n: nat)
    ensures LastN(s, n) == s[if |s| <= n then 0 else |s| - n..]
    decreases |s|
  {
    if |s| > n {
      LastNIsSuffix(s[1..], n);
    }
  }

  /** Every bounded log: push, and drop the oldest when there is one too many. This keeps the last `limit`. */
  method PushAndShift<T>(log: seq<T>, x: T, limit: nat, ghost history: seq<T>) returns (pushed: seq<T>)
    requires limit > 0 && log == LastN(history, limit)
    ensures pushed == LastN(history + [x], limit)
  {
    pushed := log + [x];
    if |pushed| > limit {
      pushed := pushed[1..];
    }
    LastNIsSuffix(history, limit);
    LastNIsSuffix(history + [x], limit);
  }

  function Sum<T>(s: seq<T>, weight: T -> real): real {
    if s == [] then 0.0 else Sum(Init(s), weight) + weight(Last(s))
  }

  function Count<T>(s: seq<T>, p: T -> bool): nat {
    if s == [] then 0 else Count(Init(s), p) + if p(Last(s)) then 1 else 0
  }

  function Filter<T>(s: seq<T>, p: T -> bool): seq<T> {
    if s == [] then [] else if p(Last(s)) then Filter(Init(s), p) + [Last(s)] else Filter(Init(s), p)
  }

  function Min(s: seq<Request>): real
    requires s != []
  {
    if |s| == 1 || s[|s| - 1].durationMs < Min(Init(s)) then s[|s| - 1].durationMs else Min(Init(s))
  }

  function Max(s: seq<Request>): real
    requires s != []
  {
    if |s| == 1 || s[|s| - 1].durationMs > Max(Init(s)) then s[|s| - 1].durationMs else Max(Init(s))
  }

  lemma AppendUnfolds<T>(s: seq<T>, x: T)
    ensures Init(s + [x]) == s && Last(s + [x]) == x
  {
  }

  const DURATION: Request -> real := (r: Request) => r.durationMs
  const QUERY_DURATION: Query -> real := (q: Query) => q.durationMs
  const FAILED: Request -> bool := (r: Request) => IsError(r)

  function HasKey(key: string): Request -> bool {
    (r: Request) => Key(r) == key
  }

  function HasPattern(pattern: string): Query -> bool {
    (q: Query) => q.pattern == pattern
  }

  function SlowerThan(ms: real): Query -> bool {
    (q: Query) => q.durationMs >= ms
  }

  function WithKey(requests: seq<Request>, key: string): seq<Request> {
    Filter(requests, HasKey(key))
  }

  function WithPattern(queries: seq<Query>, pattern: string): seq<Query> {
    Filter(queries, HasPattern(pattern))
  }

  /** What an endpoint's figures should be, computed over all its requests. */
  function EndpointOf(s: seq<Request>): Endpoint
    requires s != []
  {
    var total, errors, n := Sum(s, DURATION), Count(s, FAILED), |s|;
    CountIsBounded(s, FAILED);
    Endpoint(
      s[0].verb, s[0].route, n, errors, n - errors, total, Min(s), Max(s),
      if n == 1 then total else Round2(total / n as real),
      Round2((n - errors) as real / n as real * 100.0))
  }

  function PatternOf(s: seq<Query>): PatternStats
    requires s != []
  {
    var total := Sum(s, QUERY_DURATION);
    PatternStats(|s|, total, if |s| == 1 then total else Round2(total / |s| as real))
  }

  lemma {:induction false} CountIsBounded<T>(s: seq<T>, p: T -> bool)
    ensures Count(s, p) <= |s|
  {
    if s != [] {
      CountIsBounded(Init(s), p);
    }
  }

  lemma {:induction false} FilterIsNonEmpty<T>(s: seq<T>, p: T -> bool)
    ensures Filter(s, p) != [] <==> exists x :: x in s && p(x)
  {
    if s != [] {
      FilterIsNonEmpty(Init(s), p);
      assert s == Init(s) + [Last(s)];
    }
  }

  function HealthOf(slow: nat, failed: nat, errors: nat): Health {
    if slow > 50 || failed > 100 || errors > 200 then Critical
    else if slow > 10 || failed > 20 || errors > 50 then Degraded
    else Healthy
  }

  function AverageOf(log: seq<Request>): real {
    if |log| > 0 then Round2(Sum(log, DURATION) / |log| as real) else 0.0
  }

  /** All that was ever recorded, kind by kind. */
  datatype History = History(
    requests: seq<Request>, slow: seq<Request>, queries: seq<Query>, errors: seq<ErrorEntry>, warnings: seq<Warning>)

  /** The fields of the store. */
  datatype Store = Store(
    requestLogs: seq<Request>, slowRequests: seq<Request>, queryLogs: seq<Query>, errors: seq<ErrorEntry>,
    endpointMetrics: map<string, Endpoint>, queryPatterns: map<string, PatternStats>, nPlusOneWarnings: seq<Warning>,
    totalDatabaseTimeMs: real, queryCount: nat, slowQueryCount: nat, failedRequestCount: nat)

  /** What the store should hold after a history: ends of logs, and folds over everything recorded. */
  function StoreOf(slowQueryMs: real, h: History): Store {
    Store(
      LastN(h.requests, MAX_REQUEST_LOGS), LastN(h.slow, MAX_SLOW_LOGS), LastN(h.queries, MAX_QUERY_LOGS),
      LastN(h.errors, MAX_ERRORS), EndpointTable(h.requests), PatternTable(h.queries),
      LastN(h.warnings, MAX_N_PLUS_ONE), Sum(h.queries, QUERY_DURATION), |h.queries|,
      Count(h.queries, SlowerThan(slowQueryMs)), Count(h.requests, FAILED))
  }

  /** `upMs` is the time since the start; the seconds are whole ones. */
  function PerformanceOf(h: History, upMs: int): Performance {
    var log := LastN(h.requests, MAX_REQUEST_LOGS);
    var slow, failed := |LastN(h.slow, MAX_SLOW_LOGS)|, Count(h.requests, FAILED);
    var errors := |LastN(h.errors, MAX_ERRORS)|;
    Performance(|log|, AverageOf(log), slow, failed, Round2(Sum(h.queries, QUERY_DURATION)), errors, upMs / 1000,
                HealthOf(slow, failed, errors))
  }

  /** For exactly the keys that occurred, the figures over all requests with that key. */
  function EndpointTable(requests: seq<Request>): map<string, Endpoint> {
    map k | k in (set r | r in requests :: Key(r)) ::
      FilterIsNonEmpty(requests, HasKey(k)); EndpointOf(WithKey(requests, k))
  }

  function PatternTable(queries: seq<Query>): map<string, PatternStats> {
    map p | p in (set q | q in queries :: q.pattern) ::
      FilterIsNonEmpty(queries, HasPattern(p)); PatternOf(WithPattern(queries, p))
  }

  lemma FilterAppend<T>(s: seq<T>, x: T, p: T -> bool)
    ensures Filter(s + [x], p) == if p(x) then Filter(s, p) + [x] else Filter(s, p)
  {
    AppendUnfolds(s, x);
  }

  lemma CountAppend<T>(s: seq<T>, x: T, p: T -> bool)
    ensures Count(s + [x], p) == Count(s, p) + if p(x) then 1 else 0
  {
    AppendUnfolds(s, x);
  }

  lemma SumAppend<T>(s: seq<T>, x: T, weight: T -> real)
    ensures Sum(s + [x], weight) == Sum(s, weight) + weight(x)
  {
    AppendUnfolds(s, x);
  }

  lemma EndpointTableGrows(requests: seq<Request>, x: Request)
    ensures EndpointTable(requests + [x])
         == EndpointTable(requests)[Key(x) := EndpointOf(WithKey(requests, Key(x)) + [x])]
  {
    forall k
      ensures WithKey(requests + [x], k) == if k == Key(x) then WithKey(requests, k) + [x] else WithKey(requests, k)
    {
      FilterAppend(requests, x, HasKey(k));
    }
  }

  lemma PatternTableGrows(queries: seq<Query>, x: Query)
    ensures PatternTable(queries + [x])
         == PatternTable(queries)[x.pattern := PatternOf(WithPattern(queries, x.pattern) + [x])]
  {
    forall p
      ensures WithPattern(queries + [x], p)
           == if p == x.pattern then WithPattern(queries, p) + [x] else WithPattern(queries, p)
    {
      FilterAppend(queries, x, HasPattern(p));
    }
  }

  /** A key is in the table exactly when some request has it. */
  lemma TableKey(requests: seq<Request>, key: string)
    ensures key in EndpointTable(requests) <==> WithKey(requests, key) != []
  {
    FilterIsNonEmpty(requests, HasKey(key));
  }

  lemma TablePattern(queries: seq<Query>, pattern: string)
    ensures pattern in PatternTable(queries) <==> WithPattern(queries, pattern) != []
  {
    FilterIsNonEmpty(queries, HasPattern(pattern));
  }

  /** The figures of an endpoint's first request. */
  method FirstRequest(entry: Request) returns (e: Endpoint)
    ensures e == EndpointOf([] + [entry])
  {
    var isError := entry.status >= 400;
    e := Endpoint(
      entry.verb, entry.route, 1, if isError then 1 else 0, if isError then 0 else 1,
      entry.durationMs, entry.durationMs, entry.durationMs, entry.durationMs, if isError then 0.0 else 100.0);
    SumAppend([], entry, DURATION);
    CountAppend([], entry, FAILED);
  }

  /** One more request: the figures updated in place are the figures of the longer list. */
  method NextRequest(existing: Endpoint, entry: Request, ghost s: seq<Request>) returns (e: Endpoint)
    requires s != [] && existing == EndpointOf(s)
    ensures e == EndpointOf(s + [entry])
  {
    var isError := entry.status >= 400;
    e := existing.(requestCount := existing.requestCount + 1);
    if isError {
      e := e.(errorCount := e.errorCount + 1);
    } else {
      e := e.(successCount := e.successCount + 1);
    }
    e := e.(totalMs := e.totalMs + entry.durationMs);
    e := e.(minMs := if entry.durationMs < e.minMs then entry.durationMs else e.minMs);
    e := e.(maxMs := if entry.durationMs > e.maxMs then entry.durationMs else e.maxMs);
    e := e.(avgMs := Round2(e.totalMs / e.requestCount as real));
    e := e.(successRate := Round2(e.successCount as real / e.requestCount as real * 100.0));
    AppendUnfolds(s, entry);
  }

  /** The second half of `recordRequest`. */
  method CountEndpoint(metrics: map<string, Endpoint>, entry: Request, ghost requests: seq<Request>)
    returns (counted: map<string, Endpoint>)
    requires metrics == EndpointTable(requests)
    ensures counted == EndpointTable(requests + [entry])
  {
    var key := entry.verb + " " + entry.route;
    TableKey(requests, key);
    EndpointTableGrows(requests, entry);
    var e: Endpoint;
    if key !in metrics {
      e := FirstRequest(entry);
    } else {
      e := NextRequest(metrics[key], entry, WithKey(requests, key));
    }
    counted := metrics[key := e];
  }

  /** The figures of a pattern after one more query, and whether it was seen before. */
  lemma PatternGrows(queries: seq<Query>, x: Query)
    ensures var s := WithPattern(queries, x.pattern);
            var total := Sum(s, QUERY_DURATION) + x.durationMs;
            && (x.pattern in PatternTable(queries) <==> s != [])
            && (s == [] ==> Sum(s, QUERY_DURATION) == 0.0)
            && (s != [] ==> PatternTable(queries)[x.pattern] == PatternOf(s))
            && PatternOf(s + [x])
               == PatternStats(|s| + 1, total, if s == [] then total else Round2(total / (|s| + 1) as real))
  {
    TablePattern(queries, x.pattern);
    SumAppend(WithPattern(queries, x.pattern), x, QUERY_DURATION);
    assert |WithPattern(queries, x.pattern) + [x]| == |WithPattern(queries, x.pattern)| + 1;
  }

  /** The second half of `recordQuery`. */
  method CountPattern(stats: map<string, PatternStats>, entry: Query, ghost queries: seq<Query>)
    returns (counted: map<string, PatternStats>)
    requires stats == PatternTable(queries)
    ensures counted == PatternTable(queries + [entry])
  {
    hide Sum, Filter, PatternTable;
    PatternTableGrows(queries, entry);
    PatternGrows(queries, entry);
    var next: PatternStats;
    if entry.pattern !in stats {
      next := PatternStats(1, entry.durationMs, entry.durationMs);
    } else {
      var p := stats[entry.pattern];
      var n, total := p.count + 1, p.totalMs + entry.durationMs;
      next := PatternStats(n, total, Round2(total / n as real));
    }
    counted := stats[entry.pattern := next];
  }

  /** What one more request changes in the store. */
  lemma StoreAfterRequest(ms: real, h: History, x: Request, h': History)
    requires h' == h.(requests := h.requests + [x])
    ensures StoreOf(ms, h') == StoreOf(ms, h).(
      requestLogs := LastN(h.requests + [x], MAX_REQUEST_LOGS),
      endpointMetrics := EndpointTable(h.requests + [x]),
      failedRequestCount := Count(h.requests, FAILED) + if x.status >= 400 then 1 else 0)
  {
    CountAppend(h.requests, x, FAILED);
  }

  /** What one more query changes in the store. */
  lemma StoreAfterQuery(ms: real, h: History, x: Query, h': History)
    requires h' == h.(queries := h.queries + [x])
    ensures StoreOf(ms, h') == StoreOf(ms, h).(
      queryLogs := LastN(h.queries + [x], MAX_QUERY_LOGS),
      queryPatterns := PatternTable(h.queries + [x]),
      totalDatabaseTimeMs := Sum(h.queries, QUERY_DURATION) + x.durationMs,
      queryCount := |h.queries| + 1,
      slowQueryCount := Count(h.queries, SlowerThan(ms)) + if x.durationMs >= ms then 1 else 0)
  {
    SumAppend(h.queries, x, QUERY_DURATION);
    CountAppend(h.queries, x, SlowerThan(ms));
  }

  // ---------- the store

  class MetricsStore {
    const slowQueryMs: real
    const nPlusOneThreshold: int

    var requestLogs: seq<Request>
    var slowRequests: seq<Request>
    var queryLogs: seq<Query>
    var errors: seq<ErrorEntry>
    var endpointMetrics: map<string, Endpoint>
    var queryPatterns: map<string, PatternStats>
    var nPlusOneWarnings: seq<Warning>
    var totalDatabaseTimeMs: real
    var queryCount: nat
    var slowQueryCount: nat
    var failedRequestCount: nat

    /** Everything ever recorded. */
    ghost var recorded: History

    ghost function View(): Store
      reads this
    {
      Store(requestLogs, slowRequests, queryLogs, errors, endpointMetrics, queryPatterns, nPlusOneWarnings,
            totalDatabaseTimeMs, queryCount, slowQueryCount, failedRequestCount)
    }

    /** Every log is the end of its history and every aggregate the fold over the whole of it. */
    ghost predicate Valid()
      reads this
    {
      View() == StoreOf(slowQueryMs, recorded)
    }

    constructor (slowQueryMs: real, nPlusOneThreshold: int)
      ensures Valid()
      ensures this.slowQueryMs == slowQueryMs && this.nPlusOneThreshold == nPlusOneThreshold
      ensures recorded == History([], [], [], [], [])
    {
      this.slowQueryMs := slowQueryMs;
      this.nPlusOneThreshold := nPlusOneThreshold;
      requestLogs, slowRequests, queryLogs, errors, nPlusOneWarnings := [], [], [], [], [];
      endpointMetrics, queryPatterns := map[], map[];
      totalDatabaseTimeMs, queryCount, slowQueryCount, failedRequestCount := 0.0, 0, 0, 0;
      recorded := History([], [], [], [], []);
    }

    method RecordRequest(entry: Request)
      requires Valid()
      modifies this
      ensures Valid() && recorded == old(recorded).(requests := old(recorded).requests + [entry])
    {
      hide LastN, Sum, Count, Filter, EndpointTable, PatternTable;
      requestLogs := PushAndShift(requestLogs, entry, MAX_REQUEST_LOGS, recorded.requests);
      if entry.status >= 400 {
        failedRequestCount := failedRequestCount + 1;
      }
      endpointMetrics := CountEndpoint(endpointMetrics, entry, recorded.requests);
      recorded := recorded.(requests := recorded.requests + [entry]);
      StoreAfterRequest(slowQueryMs, old(recorded), entry, recorded);
    }

    method RecordSlowRequest(entry: Request)
      requires Valid()
      modifies this
      ensures Valid() && recorded == old(recorded).(slow := old(recorded).slow + [entry])
    {
      slowRequests := PushAndShift(slowRequests, entry, MAX_SLOW_LOGS, recorded.slow);
      recorded := recorded.(slow := recorded.slow + [entry]);
    }

    method RecordQuery(entry: Query)
      requires Valid()
      modifies this
      ensures Valid() && recorded == old(recorded).(queries := old(recorded).queries + [entry])
    {
      hide LastN, Sum, Count, Filter, EndpointTable, PatternTable;
      var logs := PushAndShift(queryLogs, entry, MAX_QUERY_LOGS, recorded.queries);
      var patterns := CountPattern(queryPatterns, entry, recorded.queries);
      queryLogs, queryPatterns, queryCount := logs, patterns, queryCount + 1;
      totalDatabaseTimeMs := totalDatabaseTimeMs + entry.durationMs;
      if entry.durationMs >= slowQueryMs {
        slowQueryCount := slowQueryCount + 1;
      }
      recorded := recorded.(queries := recorded.queries + [entry]);
      StoreAfterQuery(slowQueryMs, old(recorded), entry, recorded);
    }

    method RecordNPlusOne(warning: Warning)
      requires Valid()
      modifies this
      ensures Valid() && recorded == old(recorded).(warnings := old(recorded).warnings + [warning])
    {
      nPlusOneWarnings := PushAndShift(nPlusOneWarnings, warning, MAX_N_PLUS_ONE, recorded.warnings);
      recorded := recorded.(warnings := recorded.warnings + [warning]);
    }

    method RecordError(entry: ErrorEntry)
      requires Valid()
      modifies this
      ensures Valid() && recorded == old(recorded).(errors := old(recorded).errors + [entry])
    {
      errors := PushAndShift(errors, entry, MAX_ERRORS, recorded.errors);
      recorded := recorded.(errors := recorded.errors + [entry]);
    }

    method GetPerformanceMetrics(startedAt: int, now: int) returns (p: Performance)
      requires Valid()
      ensures p == PerformanceOf(recorded, now - startedAt)
    {
      var totalRequests := |requestLogs|;
      var totalDuration := Sum(requestLogs, DURATION);
      var avg := if totalRequests > 0 then Round2(totalDuration / totalRequests as real) else 0.0;
      var slowRequestCount, errorCount := |slowRequests|, |errors|;
      var health := Healthy;
      if slowRequestCount > 10 || failedRequestCount > 20 || errorCount > 50 {
        health := Degraded;
      }
      if slowRequestCount > 50 || failedRequestCount > 100 || errorCount > 200 {
        health := Critical;
      }
      return Performance(totalRequests, avg, slowRequestCount, failedRequestCount, Round2(totalDatabaseTimeMs),
                         errorCount, (now - startedAt) / 1000, health);
    }
  }
}
