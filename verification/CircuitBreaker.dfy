/** Call metrics of the insurers' circuit breakers. The service keeps, per insurer, a
    list of calls from which calls older than five minutes are pruned whenever a call
    is added. Times are milliseconds of a clock that does not run backwards. */
module CircuitBreaker {
  import opened Wrappers
  import opened Selections

  const WINDOW_MS := 300000

  /** No latency: the circuit was open and no call was made. */
  datatype CallRecord = CallRecord(timestamp: int, latencyMs: Option<int>, isError: bool)

  datatype Metrics = Metrics(errorRate: real, avgLatencyMs: real, totalCalls: nat)

  datatype BreakerState = Open | HalfOpen | Closed

  /** The complete history. */
  datatype Event = Recorded(code: string, call: CallRecord) | WasReset(code: string)

  // ------------------------------------------------------------------
  // Reference: metrics over everything since the last reset
  // ------------------------------------------------------------------

  ghost function SinceReset(h: seq<Event>, code: string): seq<CallRecord> {
    if h == [] then []
    else
      var before := SinceReset(h[..|h| - 1], code);
      match h[|h| - 1]
      case Recorded(c, call) => if c == code then before + [call] else before
      case WasReset(c) => if c == code then [] else before
  }

  lemma SinceResetNext(h: seq<Event>, e: Event, code: string)
    ensures SinceReset(h + [e], code) ==
            if e.code != code then SinceReset(h, code) else if e.WasReset? then [] else SinceReset(h, code) + [e.call]
  {
    assert (h + [e])[..|h|] == h;
  }

  /** `filter`: the calls from a point in time on. */
  function From(calls: seq<CallRecord>, cutoff: int): seq<CallRecord> {
    if calls == [] then []
    else From(calls[..|calls| - 1], cutoff) + if calls[|calls| - 1].timestamp >= cutoff then [calls[|calls| - 1]] else []
  }

  function Errors(calls: seq<CallRecord>): nat {
    if calls == [] then 0 else Errors(calls[..|calls| - 1]) + if calls[|calls| - 1].isError then 1 else 0
  }

  function Made(calls: seq<CallRecord>): nat {
    if calls == [] then 0 else Made(calls[..|calls| - 1]) + if calls[|calls| - 1].latencyMs.Some? then 1 else 0
  }

  function TotalLatency(calls: seq<CallRecord>): int {
    if calls == [] then 0
    else TotalLatency(calls[..|calls| - 1]) + match calls[|calls| - 1].latencyMs case Some(ms) => ms case None => 0
  }

  function MetricsOf(calls: seq<CallRecord>): Metrics {
    if calls == [] then Metrics(0.0, 0.0, 0)
    else Metrics(Errors(calls) as real / |calls| as real * 100.0,
                 if Made(calls) > 0 then TotalLatency(calls) as real / Made(calls) as real else 0.0,
                 |calls|)
  }

  // ------------------------------------------------------------------
  // What the metrics mean
  // ------------------------------------------------------------------

  lemma {:induction false} ErrorsBounded(calls: seq<CallRecord>)
    ensures Errors(calls) <= |calls|
    ensures Errors(calls) == 0 <==> forall i :: 0 <= i < |calls| ==> !calls[i].isError
    ensures Errors(calls) == |calls| <==> forall i :: 0 <= i < |calls| ==> calls[i].isError
  {
    if calls != [] {
      var n := |calls| - 1;
      ErrorsBounded(calls[..n]);
      assert forall i :: 0 <= i < n ==> calls[..n][i] == calls[i];
    }
  }

  /** The error rate is a percentage: 0 exactly without errors, 100 exactly when every
      call was one. */
  lemma ErrorRateIsAPercentage(calls: seq<CallRecord>)
    ensures 0.0 <= MetricsOf(calls).errorRate <= 100.0
    ensures MetricsOf(calls).errorRate == 0.0 <==> forall i :: 0 <= i < |calls| ==> !calls[i].isError
    ensures calls != [] ==> (MetricsOf(calls).errorRate == 100.0 <==> forall i :: 0 <= i < |calls| ==> calls[i].isError)
  {
    ErrorsBounded(calls);
    if calls != [] { Ratio(Errors(calls), |calls|); }
  }

  lemma Ratio(part: nat, whole: nat)
    requires part <= whole && whole > 0
    ensures 0.0 <= part as real / whole as real <= 1.0
    ensures part as real / whole as real == 0.0 <==> part == 0
    ensures part as real / whole as real == 1.0 <==> part == whole
  {
    var q := part as real / whole as real;
    assert q * whole as real == part as real;
  }

  function ErrorsAt(calls: seq<CallRecord>): set<nat> { set i: nat | i < |calls| && calls[i].isError }

  function MadeAt(calls: seq<CallRecord>): set<nat> { set i: nat | i < |calls| && calls[i].latencyMs.Some? }

  lemma {:induction false} CountsArePositions(calls: seq<CallRecord>)
    ensures Errors(calls) == |ErrorsAt(calls)| && Made(calls) == |MadeAt(calls)|
  {
    if calls != [] {
      var n := |calls| - 1;
      var init := calls[..n];
      CountsArePositions(init);
      assert ErrorsAt(calls) == ErrorsAt(init) + if calls[n].isError then {n} else {};
      assert MadeAt(calls) == MadeAt(init) + if calls[n].latencyMs.Some? then {n} else {};
    }
  }

  /** The error rate times the calls is a hundred times the errors. */
  lemma ErrorRateIs(calls: seq<CallRecord>)
    ensures MetricsOf(calls).totalCalls == |calls|
    ensures MetricsOf(calls).errorRate * |calls| as real == 100.0 * |ErrorsAt(calls)| as real
  {
    CountsArePositions(calls);
    if calls != [] {
      var part, whole := Errors(calls) as real, |calls| as real;
      RateTimes(part, whole);
      assert MetricsOf(calls).errorRate == part / whole * 100.0;
    }
  }

  /** The average latency times the calls made is the sum of their latencies. */
  lemma AverageIs(calls: seq<CallRecord>)
    ensures MetricsOf(calls).avgLatencyMs * |MadeAt(calls)| as real == TotalLatency(calls) as real
  {
    CountsArePositions(calls);
    NoneMade(calls);
    if Made(calls) > 0 {
      var total, count := TotalLatency(calls) as real, Made(calls) as real;
      QuotientTimes(total, count);
      assert MetricsOf(calls).avgLatencyMs == total / count;
    }
  }

  lemma QuotientTimes(total: real, count: real)
    requires count > 0.0
    ensures total / count * count == total
  {
  }

  lemma {:induction false} NoneMade(calls: seq<CallRecord>)
    ensures Made(calls) == 0 ==> TotalLatency(calls) == 0
  {
    if calls != [] { NoneMade(calls[..|calls| - 1]); }
  }

  lemma RateTimes(part: real, whole: real)
    requires whole > 0.0
    ensures part / whole * 100.0 * whole == 100.0 * part
  {
  }

  lemma OneLatency(call: CallRecord)
    ensures TotalLatency([call]) == match call.latencyMs case Some(ms) => ms case None => 0
  {
    var s := [call];
    assert s[..|s| - 1] == [] && s[|s| - 1] == call;
    assert TotalLatency(s) == TotalLatency(s[..|s| - 1]) + match call.latencyMs case Some(ms) => ms case None => 0;
  }

  lemma {:induction false} Sums(a: seq<CallRecord>, b: seq<CallRecord>)
    ensures Made(a + b) == Made(a) + Made(b) && TotalLatency(a + b) == TotalLatency(a) + TotalLatency(b)
  {
    if b == [] {
      assert a + b == a;
    } else {
      Sums(a, b[..|b| - 1]);
      assert (a + b)[..|a + b| - 1] == a + b[..|b| - 1];
    }
  }

  /** Calls refused by an open circuit never move the average latency, wherever they
      fall among the others. */
  lemma OpenCallsKeepAverage(a: seq<CallRecord>, refused: CallRecord, b: seq<CallRecord>)
    requires refused.latencyMs == None
    ensures MetricsOf(a + [refused] + b).avgLatencyMs == MetricsOf(a + b).avgLatencyMs
    ensures MetricsOf(a + [refused] + b).totalCalls == MetricsOf(a + b).totalCalls + 1
  {
    Sums(a, [refused]);
    Sums(a + [refused], b);
    Sums(a, b);
    assert Made([refused]) == 0 && TotalLatency([refused]) == 0;
    assert a + b == [] ==> Made(b) == 0;
  }

  lemma {:induction false} LatencyBounds(calls: seq<CallRecord>, lo: int, hi: int)
    requires forall i :: 0 <= i < |calls| && calls[i].latencyMs.Some? ==> lo <= calls[i].latencyMs.value <= hi
    ensures Made(calls) * lo <= TotalLatency(calls) <= Made(calls) * hi
  {
    if calls != [] { LatencyBounds(calls[..|calls| - 1], lo, hi); }
  }

  /** The average lies between the fastest and the slowest call made. */
  lemma AverageBetween(calls: seq<CallRecord>, lo: int, hi: int)
    requires Made(calls) > 0
    requires forall i :: 0 <= i < |calls| && calls[i].latencyMs.Some? ==> lo <= calls[i].latencyMs.value <= hi
    ensures lo as real <= MetricsOf(calls).avgLatencyMs <= hi as real
  {
    LatencyBounds(calls, lo, hi);
    Quotient(TotalLatency(calls), Made(calls), lo, hi);
  }

  lemma Quotient(total: int, count: int, lo: int, hi: int)
    requires count > 0 && count * lo <= total <= count * hi
    ensures lo as real <= total as real / count as real <= hi as real
  {
    var q := total as real / count as real;
    assert q * count as real == total as real;
    assert (count * lo) as real == count as real * lo as real && (count * hi) as real == count as real * hi as real;
    assert count as real * (q - lo as real) >= 0.0 && count as real * (hi as real - q) >= 0.0;
  }

  // ------------------------------------------------------------------
  // Pruning
  // ------------------------------------------------------------------

  ghost predicate InOrder(calls: seq<CallRecord>, clock: int) {
    && (forall i, j :: 0 <= i < j < |calls| ==> calls[i].timestamp <= calls[j].timestamp)
    && (forall i :: 0 <= i < |calls| ==> calls[i].timestamp <= clock)
  }

  /** The cut keeps exactly the calls made at that time or later, in order. */
  lemma {:induction false} FromSelects(calls: seq<CallRecord>, cutoff: int)
    ensures Selects(calls, From(calls, cutoff), (c: CallRecord) => c.timestamp >= cutoff)
    decreases |calls|
  {
    if calls == [] {
      SelectsNone((c: CallRecord) => c.timestamp >= cutoff);
    } else {
      var init, c := calls[..|calls| - 1], calls[|calls| - 1];
      FromSelects(init, cutoff);
      SelectsNext(init, From(init, cutoff), (c: CallRecord) => c.timestamp >= cutoff, c, calls, From(calls, cutoff));
    }
  }

  /** Pruning early does not change what a later cut keeps. */
  lemma {:induction false} CutTwice(calls: seq<CallRecord>, first: int, second: int)
    requires first <= second
    ensures From(From(calls, first), second) == From(calls, second)
  {
    if calls != [] {
      var n := |calls| - 1;
      CutTwice(calls[..n], first, second);
      if calls[n].timestamp >= first {
        FromNext(From(calls[..n], first), calls[n], second);
      } else {
        assert From(calls, first) == From(calls[..n], first);
        assert From(calls, second) == From(calls[..n], second);
      }
    }
  }

  lemma FromNext(calls: seq<CallRecord>, call: CallRecord, cutoff: int)
    ensures From(calls + [call], cutoff) == From(calls, cutoff) + if call.timestamp >= cutoff then [call] else []
  {
    assert (calls + [call])[..|calls|] == calls;
  }

  /** The list kept for one insurer: all of its calls since the last reset, cut to
      five minutes before its newest call. */
  ghost predicate Pruned(kept: Option<seq<CallRecord>>, calls: seq<CallRecord>) {
    if calls == [] then kept == None
    else kept == Some(From(calls, calls[|calls| - 1].timestamp - WINDOW_MS)) && kept.value != []
  }

  lemma QueryAgrees(kept: seq<CallRecord>, calls: seq<CallRecord>, now: int)
    requires Pruned(Some(kept), calls) && InOrder(calls, now)
    ensures From(kept, now - WINDOW_MS) == From(calls, now - WINDOW_MS)
  {
    CutTwice(calls, calls[|calls| - 1].timestamp - WINDOW_MS, now - WINDOW_MS);
  }

  function Lookup(m: map<string, seq<CallRecord>>, code: string): Option<seq<CallRecord>> { if code in m then Some(m[code]) else None }

  ghost predicate Consistent(m: map<string, seq<CallRecord>>, h: seq<Event>, clock: int) {
    forall code :: Pruned(Lookup(m, code), SinceReset(h, code)) && InOrder(SinceReset(h, code), clock)
  }

  /** The list after a call has been pushed and the list pruned. */
  lemma PushAndPrune(kept: Option<seq<CallRecord>>, calls: seq<CallRecord>, call: CallRecord, clock: int)
    requires Pruned(kept, calls) && InOrder(calls, clock) && call.timestamp >= clock
    ensures From((if kept.Some? then kept.value else []) + [call], call.timestamp - WINDOW_MS)
         == From(calls + [call], call.timestamp - WINDOW_MS)
  {
    var base := if kept.Some? then kept.value else [];
    var cutoff := call.timestamp - WINDOW_MS;
    FromNext(base, call, cutoff);
    FromNext(calls, call, cutoff);
    if calls != [] { CutTwice(calls, calls[|calls| - 1].timestamp - WINDOW_MS, cutoff); }
  }

  lemma PushKeepsOrder(calls: seq<CallRecord>, call: CallRecord, clock: int)
    requires InOrder(calls, clock) && call.timestamp >= clock
    ensures InOrder(calls + [call], call.timestamp)
  {
  }

  // ------------------------------------------------------------------
  // The service
  // ------------------------------------------------------------------

  /** Keys are "tenant:insurer"; the insurer is what follows the first colon. */
  function CodeOf(key: string): (code: string)
    decreases key
  {
    if ':' !in key then key else if key[0] == ':' then key[1..] else CodeOf(key[1..])
  }

  lemma {:induction false} CodeOfKey(tenant: string, code: string)
    requires ':' !in tenant
    ensures CodeOf(tenant + ":" + code) == code
  {
    var key := tenant + ":" + code;
    assert key[|tenant|] == ':';
    if tenant == "" {
      assert key[1..] == code;
    } else {
      assert key[0] == tenant[0];
      assert key[1..] == tenant[1..] + ":" + code;
      CodeOfKey(tenant[1..], code);
    }
  }

  class CircuitBreakerService {
    var breakers: map<string, BreakerState>
    var callMetrics: map<string, seq<CallRecord>>
    ghost var history: seq<Event>
    ghost var clock: int

    ghost predicate Valid()
      reads this
    {
      Consistent(callMetrics, history, clock)
    }

    constructor ()
      ensures Valid() && history == [] && breakers == map[]
    {
      breakers, callMetrics, history, clock := map[], map[], [], 0;
    }

    /** No call is lost: the record is what the complete history says, and the branch
        that drops an insurer with an empty list is never taken. */
    method RecordMetric(code: string, latencyMs: Option<int>, isError: bool, now: int)
      requires Valid() && now >= clock
      modifies `callMetrics, `history, `clock
      ensures Valid() && clock == now
      ensures history == old(history) + [Recorded(code, CallRecord(now, latencyMs, isError))]
      ensures code in callMetrics && callMetrics[code] != []
      ensures forall c :: c != code ==> Lookup(callMetrics, c) == Lookup(old(callMetrics), c)
    {
      ghost var before := callMetrics;
      var call := CallRecord(now, latencyMs, isError);
      var records := (if code in callMetrics then callMetrics[code] else []) + [call];
      var pruned := From(records, now - WINDOW_MS);
      callMetrics := if pruned == [] then callMetrics - {code} else callMetrics[code := pruned];
      Recording(before, history, clock, code, call, pruned);
      history, clock := history + [Recorded(code, call)], now;
    }

    /** A call refused by an open breaker is an error without latency; a call that is
        made is recorded with the time it took, whether it succeeds or not. */
    method Call(code: string, refused: bool, succeeds: bool, start: int, end: int)
      requires Valid() && clock <= start <= end
      modifies `callMetrics, `history, `clock
      ensures Valid() && clock == if refused then start else end
      ensures refused ==> history == old(history) + [Recorded(code, CallRecord(start, None, true))]
      ensures !refused ==> history == old(history) + [Recorded(code, CallRecord(end, Some(end - start), !succeeds))]
    {
      if refused {
        RecordMetric(code, None, true, start);
      } else {
        RecordMetric(code, Some(end - start), !succeeds, end);
      }
    }

    /** Every insurer with a call since its last reset is reported, with the metrics
        of its complete history cut to the last five minutes. */
    method GetInsurerMetrics(now: int) returns (result: map<string, Metrics>)
      requires Valid() && now >= clock
      ensures forall code :: code in result <==> SinceReset(history, code) != []
      ensures forall code :: code in result ==> result[code] == MetricsOf(From(SinceReset(history, code), now - WINDOW_MS))
    {
      result := map[];
      var todo := callMetrics.Keys;
      while todo != {}
        invariant todo <= callMetrics.Keys && result.Keys == callMetrics.Keys - todo
        invariant forall code :: code in result ==> result[code] == MetricsOf(From(SinceReset(history, code), now - WINDOW_MS))
        decreases |todo|
      {
        var code :| code in todo;
        assert Pruned(Lookup(callMetrics, code), SinceReset(history, code)) && InOrder(SinceReset(history, code), clock);
        QueryAgrees(callMetrics[code], SinceReset(history, code), now);
        result := result[code := MetricsOf(From(callMetrics[code], now - WINDOW_MS))];
        todo := todo - {code};
      }
      forall code ensures code in result <==> SinceReset(history, code) != [] {
        assert Pruned(Lookup(callMetrics, code), SinceReset(history, code));
      }
    }

    /** Open beats half-open beats closed among the insurer's breakers of all tenants. */
    method GetAggregatedCircuitState(code: string) returns (state: BreakerState)
      ensures state == Open <==> exists key :: key in breakers && CodeOf(key) == code && breakers[key] == Open
      ensures state == Closed <==> forall key :: key in breakers && CodeOf(key) == code ==> breakers[key] == Closed
    {
      state := Closed;
      var todo := breakers.Keys;
      while todo != {}
        invariant todo <= breakers.Keys
        invariant forall key :: key in breakers && key !in todo && CodeOf(key) == code ==> breakers[key] != Open
        invariant state != Open
        invariant state == HalfOpen ==> exists key :: key in breakers && CodeOf(key) == code && breakers[key] == HalfOpen
        invariant state == Closed ==> forall key :: key in breakers && key !in todo && CodeOf(key) == code ==> breakers[key] == Closed
        decreases |todo|
      {
        var key :| key in todo;
        todo := todo - {key};
        if CodeOf(key) == code {
          if breakers[key] == Open { return Open; }
          if breakers[key] == HalfOpen { state := HalfOpen; }
        }
      }
    }

    /** Closes exactly the insurer's breakers and forgets exactly its calls. */
    method ResetBreakersForInsurer(code: string)
      requires Valid()
      modifies `breakers, `callMetrics, `history
      ensures Valid() && history == old(history) + [WasReset(code)]
      ensures breakers.Keys == old(breakers).Keys
      ensures forall key :: key in breakers ==> breakers[key] == if CodeOf(key) == code then Closed else old(breakers)[key]
      ensures callMetrics == old(callMetrics) - {code}
    {
      ghost var before := callMetrics;
      var todo := breakers.Keys;
      while todo != {}
        invariant breakers.Keys == old(breakers).Keys && todo <= breakers.Keys
        invariant forall key :: key in breakers ==>
                    breakers[key] == if key !in todo && CodeOf(key) == code then Closed else old(breakers)[key]
        invariant callMetrics == old(callMetrics) && history == old(history)
        decreases |todo|
      {
        var key :| key in todo;
        todo := todo - {key};
        if CodeOf(key) == code { breakers := breakers[key := Closed]; }
      }
      callMetrics := callMetrics - {code};
      Resetting(before, history, clock, code);
      history := history + [WasReset(code)];
    }
  }

  /** The insurer whose call it is. */
  lemma RecordingOwn(kept: Option<seq<CallRecord>>, calls: seq<CallRecord>, call: CallRecord, clock: int, pruned: seq<CallRecord>)
    requires Pruned(kept, calls) && InOrder(calls, clock) && call.timestamp >= clock
    requires pruned == From((if kept.Some? then kept.value else []) + [call], call.timestamp - WINDOW_MS)
    ensures pruned != [] && Pruned(Some(pruned), calls + [call]) && InOrder(calls + [call], call.timestamp)
  {
    PushAndPrune(kept, calls, call, clock);
    FromNext(calls, call, call.timestamp - WINDOW_MS);
    PushKeepsOrder(calls, call, clock);
  }

  lemma Recording(m: map<string, seq<CallRecord>>, h: seq<Event>, clock: int, code: string, call: CallRecord, pruned: seq<CallRecord>)
    requires Consistent(m, h, clock) && call.timestamp >= clock
    requires pruned == From((if code in m then m[code] else []) + [call], call.timestamp - WINDOW_MS)
    ensures pruned != [] && Consistent(m[code := pruned], h + [Recorded(code, call)], call.timestamp)
  {
    var e := Recorded(code, call);
    assert Pruned(Lookup(m, code), SinceReset(h, code)) && InOrder(SinceReset(h, code), clock);
    RecordingOwn(Lookup(m, code), SinceReset(h, code), call, clock, pruned);
    forall c ensures Pruned(Lookup(m[code := pruned], c), SinceReset(h + [e], c)) && InOrder(SinceReset(h + [e], c), call.timestamp) {
      SinceResetNext(h, e, c);
      if c != code {
        assert Pruned(Lookup(m, c), SinceReset(h, c)) && InOrder(SinceReset(h, c), clock);
        assert Lookup(m[code := pruned], c) == Lookup(m, c);
      }
    }
  }

  lemma Resetting(m: map<string, seq<CallRecord>>, h: seq<Event>, clock: int, code: string)
    requires Consistent(m, h, clock)
    ensures Consistent(m - {code}, h + [WasReset(code)], clock)
  {
    var e := WasReset(code);
    forall c ensures Pruned(Lookup(m - {code}, c), SinceReset(h + [e], c)) && InOrder(SinceReset(h + [e], c), clock) {
      SinceResetNext(h, e, c);
      assert Pruned(Lookup(m, c), SinceReset(h, c)) && InOrder(SinceReset(h, c), clock);
    }
  }
}
