/** The OCR service's request limiter: per client address a deque of the times of
    admitted requests, from which times that left the window are dropped. Times are
    real seconds of a monotone clock. */
module RateLimiter {

  const LIMIT := 10
  const WINDOW := 60.0
  const METERED_PATH := "/ocr/talon"

  datatype Request = Request(ip: string, path: string, now: real)

  datatype Response = Passed | TooManyRequests

  predicate Metered(r: Request) { METERED_PATH <= r.path }

  /** Only paths that begin so are limited; the path itself is one of them. */
  lemma MeteredIs(r: Request)
    ensures Metered(r) <==> |r.path| >= 10 && r.path[..10] == "/ocr/talon"
  {
    assert |METERED_PATH| == 10;
  }

  ghost predicate Monotone(h: seq<Request>) { forall i, j :: 0 <= i < j < |h| ==> h[i].now <= h[j].now }

  ghost predicate Sorted(times: seq<real>) { forall i, j :: 0 <= i < j < |times| ==> times[i] <= times[j] }

  /** How many of the times are no more than a window before `now`. */
  function Recent(times: seq<real>, now: real): nat {
    if times == [] then 0 else Recent(times[..|times| - 1], now) + if now - times[|times| - 1] <= WINDOW then 1 else 0
  }

  /** The rule, over the complete history: a metered request is admitted when fewer
      than ten of its client's admitted requests lie in the last window. */
  ghost function Admitted(h: seq<Request>, ip: string): seq<real> {
    if h == [] then [] else Admit(Admitted(h[..|h| - 1], ip), h[|h| - 1], ip)
  }

  ghost function Admit(before: seq<real>, r: Request, ip: string): seq<real> {
    if r.ip == ip && Metered(r) && Recent(before, r.now) < LIMIT then before + [r.now] else before
  }

  lemma AdmittedNext(h: seq<Request>, r: Request, ip: string)
    ensures Admitted(h + [r], ip) == Admit(Admitted(h, ip), r, ip)
  {
    assert (h + [r])[..|h|] == h;
  }

  /** How many of the times lie in the closed interval. */
  function CountIn(times: seq<real>, from: real, to: real): nat {
    if times == [] then 0 else CountIn(times[..|times| - 1], from, to) + if from <= times[|times| - 1] <= to then 1 else 0
  }

  // ------------------------------------------------------------------
  // The rule bounds every window
  // ------------------------------------------------------------------

  /** Ten admissions later more than a window has passed. */
  ghost predicate Spaced(times: seq<real>) { forall i :: 0 <= i && i + LIMIT < |times| ==> times[i + LIMIT] - times[i] > WINDOW }

  /** The last k times are in the window as soon as the first of them is. */
  lemma {:induction false} RecentOfSorted(times: seq<real>, now: real, k: nat)
    requires Sorted(times) && k <= |times|
    ensures k > 0 && now - times[|times| - k] <= WINDOW ==> Recent(times, now) >= k
    ensures k < |times| && now - times[|times| - k - 1] > WINDOW ==> Recent(times, now) <= k
    decreases |times|
  {
    if times != [] {
      var n := |times| - 1;
      RecentOfSorted(times[..n], now, if k > 0 then k - 1 else 0);
      if k == 0 && now - times[n] > WINDOW { NoneRecent(times, now); }
    }
  }

  lemma {:induction false} NoneRecent(times: seq<real>, now: real)
    requires forall i :: 0 <= i < |times| ==> now - times[i] > WINDOW
    ensures Recent(times, now) == 0
  {
    if times != [] { NoneRecent(times[..|times| - 1], now); }
  }

  /** A request is admitted exactly when the tenth admission before it has left the
      window, whatever was turned away since. */
  lemma TenthDecides(times: seq<real>, now: real)
    requires Sorted(times)
    ensures Recent(times, now) < LIMIT <==> |times| < LIMIT || now - times[|times| - LIMIT] > WINDOW
  {
    if |times| >= LIMIT {
      RecentOfSorted(times, now, LIMIT);
      RecentOfSorted(times, now, LIMIT - 1);
    } else {
      RecentAtMost(times, now);
    }
  }

  lemma {:induction false} RecentAtMost(times: seq<real>, now: real)
    ensures Recent(times, now) <= |times|
  {
    if times != [] { RecentAtMost(times[..|times| - 1], now); }
  }

  lemma MonotoneNext(h: seq<Request>, r: Request)
    ensures Monotone(h + [r]) <==> Monotone(h) && (h == [] || h[|h| - 1].now <= r.now)
  {
    var g := h + [r];
    if Monotone(g) {
      forall i, j | 0 <= i < j < |h| ensures h[i].now <= h[j].now { assert g[i].now <= g[j].now; }
      if h != [] { assert g[|h| - 1].now <= g[|h|].now; }
    }
  }

  lemma AppendSpaced(times: seq<real>, now: real)
    requires Sorted(times) && Spaced(times) && Recent(times, now) < LIMIT
    requires times == [] || times[|times| - 1] <= now
    ensures Sorted(times + [now]) && Spaced(times + [now])
  {
    TenthDecides(times, now);
    var more := times + [now];
    forall i | 0 <= i && i + LIMIT < |more| ensures more[i + LIMIT] - more[i] > WINDOW {
      if i + LIMIT < |times| { assert times[i + LIMIT] - times[i] > WINDOW; }
    }
  }

  /** What the admitted times keep to, `now` being the time of the last request. */
  ghost predicate Orderly(times: seq<real>, h: seq<Request>) {
    && Sorted(times) && Spaced(times)
    && (times == [] || (h != [] && times[|times| - 1] <= h[|h| - 1].now))
  }

  lemma AdmitOrderly(times: seq<real>, h: seq<Request>, r: Request, ip: string)
    requires Orderly(times, h) && (h == [] || h[|h| - 1].now <= r.now)
    ensures Orderly(Admit(times, r, ip), h + [r])
  {
    if Recent(times, r.now) < LIMIT { AppendSpaced(times, r.now); }
  }

  lemma {:induction false} AdmittedIsSpaced(h: seq<Request>, ip: string)
    requires Monotone(h)
    ensures Orderly(Admitted(h, ip), h)
  {
    if h != [] {
      var n := |h| - 1;
      assert h == h[..n] + [h[n]];
      MonotoneNext(h[..n], h[n]);
      AdmittedIsSpaced(h[..n], ip);
      AdmittedNext(h[..n], h[n], ip);
      AdmitOrderly(Admitted(h[..n], ip), h[..n], h[n], ip);
    }
  }

  lemma {:induction false} SpacedCount(times: seq<real>, from: real)
    requires Sorted(times) && Spaced(times)
    ensures CountIn(times, from, from + WINDOW) <= LIMIT
  {
    if |times| > LIMIT {
      var n := |times| - 1;
      SpacedCount(times[..n], from);
      if times[n] <= from + WINDOW {
        assert times[n - LIMIT + LIMIT] - times[n - LIMIT] > WINDOW;
        CountSince(times[..n], from, from + WINDOW, n - LIMIT + 1);
      }
    } else {
      CountAtMost(times, from, from + WINDOW);
    }
  }

  lemma {:induction false} CountAtMost(times: seq<real>, from: real, to: real)
    ensures CountIn(times, from, to) <= |times|
  {
    if times != [] { CountAtMost(times[..|times| - 1], from, to); }
  }

  /** Times before position k are too early to count. */
  lemma {:induction false} CountSince(times: seq<real>, from: real, to: real, k: nat)
    requires k <= |times| && forall i :: 0 <= i < k ==> times[i] < from
    ensures CountIn(times, from, to) <= |times| - k
  {
    if |times| > k { CountSince(times[..|times| - 1], from, to, k); }
    else if times != [] { CountSince(times[..|times| - 1], from, to, k - 1); }
  }

  function Within(times: seq<real>, from: real, to: real): set<nat> { set i: nat | i < |times| && from <= times[i] <= to }

  lemma {:induction false} CountInIsSize(times: seq<real>, from: real, to: real)
    ensures CountIn(times, from, to) == |Within(times, from, to)|
  {
    if times != [] {
      var n := |times| - 1;
      CountInIsSize(times[..n], from, to);
      assert Within(times, from, to) == Within(times[..n], from, to) + if from <= times[n] <= to then {n} else {};
    }
  }

  /** In no closed window of the whole run are more than ten requests of one client
      admitted. */
  lemma AtMostTenPerWindow(h: seq<Request>, ip: string, from: real)
    requires Monotone(h)
    ensures CountIn(Admitted(h, ip), from, from + WINDOW) <= LIMIT
    ensures |Within(Admitted(h, ip), from, from + 60.0)| <= 10
  {
    CountInIsSize(Admitted(h, ip), from, from + WINDOW);
    AdmittedIsSpaced(h, ip);
    SpacedCount(Admitted(h, ip), from);
  }

  /** The retry-after header of a refused client: one that keeps quiet for exactly a
      window is served, unless all ten admissions that blocked it fell on the very
      instant of the refusal. */
  lemma RetryAfter(h: seq<Request>, r: Request, times: seq<real>)
    requires Monotone(h + [r]) && times == Admitted(h, r.ip)
    requires Recent(times, r.now) >= LIMIT
    ensures Admitted(h + [r], r.ip) == times && |times| >= LIMIT
    ensures Recent(times, r.now + WINDOW) < LIMIT <==> times[|times| - LIMIT] < r.now
  {
    assert Orderly(times, h) && Monotone(h) && (h == [] || h[|h| - 1].now <= r.now) by {
      MonotoneNext(h, r);
      AdmittedIsSpaced(h, r.ip);
    }
    AdmittedNext(h, r, r.ip);
    RetryOrderly(times, h, r.now);
  }

  lemma RetryOrderly(times: seq<real>, h: seq<Request>, now: real)
    requires Orderly(times, h) && (h == [] || h[|h| - 1].now <= now) && Recent(times, now) >= LIMIT
    ensures |times| >= LIMIT
    ensures Recent(times, now + WINDOW) < LIMIT <==> times[|times| - LIMIT] < now
  {
    RecentAtMost(times, now);
    RetryDecides(times, now);
  }

  lemma RetryDecides(times: seq<real>, now: real)
    requires Sorted(times) && |times| >= LIMIT && times[|times| - 1] <= now
    ensures Recent(times, now + WINDOW) < LIMIT <==> times[|times| - LIMIT] < now
  {
    TenthDecides(times, now + WINDOW);
  }

  // ------------------------------------------------------------------
  // The deques keep to the rule
  // ------------------------------------------------------------------

  /** A deque is what is left of the admitted times after dropping some that are out
      of the window as of `now`. */
  ghost predicate Pruned(bucket: seq<real>, times: seq<real>, now: real) {
    && |bucket| <= |times| && bucket == times[|times| - |bucket|..]
    && forall i :: 0 <= i < |times| - |bucket| ==> now - times[i] > WINDOW
  }

  lemma {:induction false} PrunedRecent(bucket: seq<real>, times: seq<real>, now: real)
    requires Pruned(bucket, times, now)
    ensures Recent(bucket, now) == Recent(times, now)
  {
    if bucket == [] {
      NoneRecent(times, now);
    } else {
      var b, n := |bucket| - 1, |times| - 1;
      assert bucket[..b] == times[..n][n - b..];
      PrunedRecent(bucket[..b], times[..n], now);
    }
  }

  lemma {:induction false} AllRecent(times: seq<real>, now: real)
    requires forall i :: 0 <= i < |times| ==> now - times[i] <= WINDOW
    ensures Recent(times, now) == |times|
  {
    if times != [] { AllRecent(times[..|times| - 1], now); }
  }

  /** What a deque keeps to: sorted, at most ten long, a pruned form of the record. */
  ghost predicate Kept(bucket: seq<real>, times: seq<real>, now: real) {
    |bucket| <= LIMIT && Sorted(bucket) && Pruned(bucket, times, now)
  }

  /** `popleft` while the head is out of the window. */
  method Evict(bucket: seq<real>, now: real, ghost times: seq<real>) returns (rest: seq<real>)
    requires Kept(bucket, times, now)
    ensures Kept(rest, times, now)
    ensures |rest| == Recent(times, now)
  {
    rest := bucket;
    while rest != [] && now - rest[0] > WINDOW
      invariant Kept(rest, times, now)
    {
      rest := rest[1..];
    }
    AllRecent(rest, now);
    PrunedRecent(rest, times, now);
  }

  /** A metered request against its client's deque. */
  method Decide(bucket: seq<real>, r: Request, ghost times: seq<real>) returns (bucket': seq<real>, response: Response)
    requires Metered(r) && Kept(bucket, times, r.now)
    requires times == [] || times[|times| - 1] <= r.now
    ensures response == TooManyRequests <==> Recent(times, r.now) >= LIMIT
    ensures Kept(bucket', Admit(times, r, r.ip), r.now)
  {
    bucket' := Evict(bucket, r.now, times);
    if |bucket'| >= LIMIT {
      response := TooManyRequests;
    } else {
      assert bucket' + [r.now] == (times + [r.now])[|times| - |bucket'|..];
      bucket' := bucket' + [r.now];
      response := Passed;
    }
  }

  function Clock(h: seq<Request>): real { if h == [] then 0.0 else h[|h| - 1].now }

  function Bucket(buckets: map<string, seq<real>>, ip: string): seq<real> { if ip in buckets then buckets[ip] else [] }

  /** The deques stand for the complete history. */
  ghost predicate Consistent(buckets: map<string, seq<real>>, h: seq<Request>) {
    Monotone(h) && forall ip :: Kept(Bucket(buckets, ip), Admitted(h, ip), Clock(h))
  }

  /** What was out of the window stays out when the clock moves on. */
  lemma Later(buckets: map<string, seq<real>>, h: seq<Request>, r: Request, ip: string)
    requires Consistent(buckets, h) && Monotone(h + [r])
    ensures Kept(Bucket(buckets, ip), Admitted(h, ip), r.now)
    ensures Admitted(h, ip) == [] || Admitted(h, ip)[|Admitted(h, ip)| - 1] <= r.now
  {
    MonotoneNext(h, r);
    AdmittedIsSpaced(h, ip);
    assert Kept(Bucket(buckets, ip), Admitted(h, ip), Clock(h));
  }

  lemma OthersKept(bucket: seq<real>, times: seq<real>, r: Request, ip: string)
    requires ip != r.ip && Kept(bucket, times, r.now)
    ensures Kept(bucket, Admit(times, r, ip), r.now)
  {
  }

  lemma StaysConsistent(buckets: map<string, seq<real>>, h: seq<Request>, r: Request, buckets': map<string, seq<real>>)
    requires Consistent(buckets, h) && Monotone(h + [r])
    requires Kept(Bucket(buckets', r.ip), Admit(Admitted(h, r.ip), r, r.ip), r.now)
    requires forall ip :: ip != r.ip ==> Bucket(buckets', ip) == Bucket(buckets, ip)
    ensures Consistent(buckets', h + [r])
  {
    var g := h + [r];
    assert Clock(g) == r.now;
    forall ip ensures Kept(Bucket(buckets', ip), Admitted(g, ip), Clock(g)) {
      AdmittedNext(h, r, ip);
      Later(buckets, h, r, ip);
      if ip != r.ip { OthersKept(Bucket(buckets, ip), Admitted(h, ip), r, ip); }
    }
  }

  class Limiter {
    var buckets: map<string, seq<real>>
    ghost var history: seq<Request>

    ghost predicate Valid()
      reads this
    {
      Consistent(buckets, history)
    }

    constructor ()
      ensures Valid() && history == [] && buckets == map[]
    {
      buckets, history := map[], [];
    }

    /** The middleware refuses a request exactly when the rule over the complete
        history does; `AdmittedNext` says how the record grows. */
    method Handle(r: Request) returns (response: Response)
      requires Valid() && Monotone(history + [r])
      modifies this
      ensures Valid() && history == old(history) + [r]
      ensures !Metered(r) ==> response == Passed && buckets == old(buckets)
      ensures response == TooManyRequests <==> Metered(r) && Recent(Admitted(old(history), r.ip), r.now) >= LIMIT
      ensures forall ip :: ip != r.ip ==> Bucket(buckets, ip) == Bucket(old(buckets), ip)
    {
      Later(buckets, history, r, r.ip);
      response := Passed;
      ghost var before := buckets;
      if Metered(r) {
        var bucket: seq<real>;
        bucket, response := Decide(Bucket(buckets, r.ip), r, Admitted(history, r.ip));
        buckets := buckets[r.ip := bucket];
      }
      StaysConsistent(before, history, r, buckets);
      history := history + [r];
    }
  }
}
