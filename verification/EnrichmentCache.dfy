/** When the cache that the workers share cannot be noticed, and when it can. */
module EnrichmentCache {
  import opened Wrappers
  import opened Enrichment

  // ------------------------------------------------------------------
  // When the cache is invisible
  // ------------------------------------------------------------------

  ghost predicate SameHost(web: Web, rows: seq<Row>, i: nat, j: nat)
    requires i < |rows| && j < |rows|
  {
    Host(web, rows[i]).Some? && Host(web, rows[i]) == Host(web, rows[j])
  }

  /** A page that row i can leave in the cache is what row j would have found. */
  ghost predicate Agree(web: Web, rows: seq<Row>, i: nat, j: nat)
    requires i < |rows| && j < |rows|
  {
    SameHost(web, rows, i, j) && Page(web, rows[i]).Some? ==> Page(web, rows[i]).value == Alone(web, rows[j])
  }

  /** The given cache holds something else than row j would find. */
  predicate CachedWrongly(web: Web, rows: seq<Row>, cache: map<string, Details>, j: nat)
    requires j < |rows|
  {
    var host := Host(web, rows[j]);
    host.Some? && host.value in cache && cache[host.value] != Alone(web, rows[j])
  }

  /** Row i has a host that the given cache does not know. */
  predicate Fetches(web: Web, rows: seq<Row>, cache: map<string, Details>, i: nat)
    requires i < |rows|
  {
    Host(web, rows[i]).Some? && Host(web, rows[i]).value !in cache
  }

  function Fetchers(web: Web, rows: seq<Row>, cache: map<string, Details>, j: nat): set<nat>
    requires j <= |rows|
  {
    set i: nat | i < j && Fetches(web, rows, cache, i)
  }

  /** Six earlier rows fetch, and all workers wait for their pages before one takes
      row j. Rows without a host, or with a cached one, keep no worker waiting. */
  predicate Waits(web: Web, rows: seq<Row>, cache: map<string, Details>, j: nat)
    requires j <= |rows|
  {
    LIMIT <= |Fetchers(web, rows, cache, j)|
  }

  /** The cache given to the pool already holds what the rows would find, and a row
      behind six that fetch finds what the earlier rows of its host do. */
  ghost predicate HostsAgree(web: Web, rows: seq<Row>, cache: map<string, Details>) {
    && (forall j :: 0 <= j < |rows| ==> !CachedWrongly(web, rows, cache, j))
    && (forall i, j :: 0 <= i < j < |rows| && Waits(web, rows, cache, j) ==> Agree(web, rows, i, j))
  }

  // ----- who is fetching -----

  function InFetch(ws: seq<Worker>): set<nat> {
    if ws == [] then {}
    else InFetch(ws[..|ws| - 1]) + (if ws[|ws| - 1].Fetching? then {ws[|ws| - 1].row} else {})
  }

  lemma {:induction false} InFetchIs(ws: seq<Worker>)
    ensures forall r :: r in InFetch(ws) <==> exists w :: 0 <= w < |ws| && ws[w].Fetching? && ws[w].row == r
  {
    if ws != [] {
      var init := ws[..|ws| - 1];
      InFetchIs(init);
      forall r ensures r in InFetch(ws) <==> exists w :: 0 <= w < |ws| && ws[w].Fetching? && ws[w].row == r {
        if w :| 0 <= w < |ws| && ws[w].Fetching? && ws[w].row == r { assert w < |init| ==> init[w] == ws[w]; }
        if r in InFetch(init) {
          var w :| 0 <= w < |init| && init[w].Fetching? && init[w].row == r;
          assert ws[w] == init[w];
        }
      }
    }
  }

  lemma {:induction false} InFetchAtMost(ws: seq<Worker>)
    ensures |InFetch(ws)| <= |ws|
    ensures AnyReturned(ws) ==> |InFetch(ws)| < |ws|
  {
    if ws != [] {
      InFetchAtMost(ws[..|ws| - 1]);
      if AnyReturned(ws) && !ws[|ws| - 1].Returned? {
        var w :| 0 <= w < |ws| && ws[w].Returned?;
        assert ws[..|ws| - 1][w].Returned?;
      }
    }
  }

  lemma {:induction false} InFetchAll(ws: seq<Worker>)
    requires forall w :: 0 <= w < |ws| ==> ws[w].Fetching?
    requires forall w, x :: 0 <= w < x < |ws| ==> ws[w].row != ws[x].row
    ensures |InFetch(ws)| == |ws|
  {
    if ws != [] {
      var init := ws[..|ws| - 1];
      InFetchAll(init);
      InFetchIs(init);
      assert ws[|ws| - 1].row !in InFetch(init);
    }
  }

  /** Where a cached entry came from. */
  ghost predicate Source(web: Web, rows: seq<Row>, cache: map<string, Details>, idx: nat, h: string, d: Details) {
    (h in cache && cache[h] == d) ||
    exists i :: 0 <= i < idx && i < |rows| && Host(web, rows[i]) == Some(h) && Page(web, rows[i]) == Some(d)
  }

  /** No page is in before the workers have taken six rows that fetch, or all rows. */
  ghost predicate Late(web: Web, rows: seq<Row>, cache: map<string, Details>, s: Pool)
    requires s.idx <= |rows|
  {
    s.idx == |rows| || Waits(web, rows, cache, s.idx)
  }

  ghost predicate Faithful(web: Web, rows: seq<Row>, cache: map<string, Details>, s: Pool) {
    && WellFormed(web, rows, s)
    && s.idx >= (if LIMIT < |rows| then LIMIT else |rows|)
    && (s.cache == cache || Late(web, rows, cache, s))
    && (forall h :: h in s.cache ==> Source(web, rows, cache, s.idx, h, s.cache[h]))
    && (forall w :: 0 <= w < |s.workers| && s.workers[w].Returned? ==> s.workers[w].details == Alone(web, rows[s.workers[w].row]))
    && (forall i :: i in s.used ==> s.used[i] == Alone(web, rows[i]))
  }

  lemma WaitsGrows(web: Web, rows: seq<Row>, cache: map<string, Details>, j: nat)
    requires j < |rows| && Waits(web, rows, cache, j)
    ensures Waits(web, rows, cache, j + 1)
  {
    SubsetSize(Fetchers(web, rows, cache, j), Fetchers(web, rows, cache, j + 1));
  }

  lemma CallFaithful(web: Web, rows: seq<Row>, cache: map<string, Details>, s: Pool)
    requires HostsAgree(web, rows, cache) && Faithful(web, rows, cache, s) && s.idx < |rows|
    ensures var c := Call(web, rows, s.cache, s.idx); c.Returned? ==> c.details == Alone(web, rows[s.idx])
  {
    var host := Host(web, rows[s.idx]);
    assert !CachedWrongly(web, rows, cache, s.idx);
    if host.Some? && host.value in s.cache && !(host.value in cache && cache[host.value] == s.cache[host.value]) {
      assert Source(web, rows, cache, s.idx, host.value, s.cache[host.value]);
      var i :| 0 <= i < s.idx && Host(web, rows[i]) == host && Page(web, rows[i]) == Some(s.cache[host.value]);
      assert Agree(web, rows, i, s.idx) && SameHost(web, rows, i, s.idx);
    }
  }

  /** When a page arrives, every worker is fetching or done. */
  lemma PageIsLate(web: Web, rows: seq<Row>, cache: map<string, Details>, s: Pool, w: nat)
    requires WellFormed(web, rows, s) && Covered(rows, s) && Stale(web, rows, cache, s)
    requires s.idx >= (if LIMIT < |rows| then LIMIT else |rows|)
    requires Ready(s, w) && s.workers[w].Fetching?
    ensures Late(web, rows, cache, s)
  {
    if s.idx < |rows| {
      assert forall x :: 0 <= x < |s.workers| ==> s.workers[x].Fetching?;
      InFetchAll(s.workers);
      InFetchIs(s.workers);
      forall r | r in InFetch(s.workers) ensures r in Fetchers(web, rows, cache, s.idx) {
        var x :| 0 <= x < |s.workers| && s.workers[x].Fetching? && s.workers[x].row == r;
        assert FromCache(web, rows, cache, s.workers[x]);
      }
      SubsetSize(InFetch(s.workers), Fetchers(web, rows, cache, s.idx));
    }
  }

  lemma SourcesGrow(web: Web, rows: seq<Row>, cache: map<string, Details>, s: Pool, idx: nat, h: string)
    requires s.idx <= idx && h in s.cache && Source(web, rows, cache, s.idx, h, s.cache[h])
    ensures Source(web, rows, cache, idx, h, s.cache[h])
  {
  }

  /** A worker with an answer writes it and takes the next row. */
  lemma TakeFaithful(web: Web, rows: seq<Row>, cache: map<string, Details>, s: Pool, w: nat)
    requires HostsAgree(web, rows, cache) && Faithful(web, rows, cache, s) && w < |s.workers| && s.workers[w].Returned?
    ensures Faithful(web, rows, cache, Resume(web, rows, s, w))
  {
    if s.idx < |rows| {
      CallFaithful(web, rows, cache, s);
      if Waits(web, rows, cache, s.idx) { WaitsGrows(web, rows, cache, s.idx); }
    }
    var t := Resume(web, rows, s, w);
    forall h | h in t.cache ensures Source(web, rows, cache, t.idx, h, t.cache[h]) { SourcesGrow(web, rows, cache, s, t.idx, h); }
  }

  /** A page arrives. */
  lemma FetchFaithful(web: Web, rows: seq<Row>, cache: map<string, Details>, s: Pool, w: nat)
    requires Faithful(web, rows, cache, s) && Covered(rows, s) && Stale(web, rows, cache, s)
    requires Ready(s, w) && s.workers[w].Fetching?
    ensures Faithful(web, rows, cache, Resume(web, rows, s, w))
  {
    PageIsLate(web, rows, cache, s, w);
    var t, i := Resume(web, rows, s, w), s.workers[w].row;
    forall h | h in t.cache ensures Source(web, rows, cache, t.idx, h, t.cache[h]) {
      if Host(web, rows[i]) == Some(h) && Page(web, rows[i]).Some? {
        assert Page(web, rows[i]) == Some(t.cache[h]);
      } else {
        SourcesGrow(web, rows, cache, s, t.idx, h);
      }
    }
  }

  lemma {:induction false} RunFaithful(web: Web, rows: seq<Row>, cache: map<string, Details>, schedule: seq<nat>)
    requires HostsAgree(web, rows, cache)
    ensures Faithful(web, rows, cache, Run(web, rows, cache, schedule))
  {
    if schedule != [] {
      var before := schedule[..|schedule| - 1];
      RunFaithful(web, rows, cache, before);
      RunCovers(web, rows, cache, before);
      RunStale(web, rows, cache, before);
      var s, w := Run(web, rows, cache, before), schedule[|schedule| - 1];
      if Ready(s, w) {
        if s.workers[w].Fetching? { FetchFaithful(web, rows, cache, s, w); } else { TakeFaithful(web, rows, cache, s, w); }
      }
    } else {
      StartFaithful(web, rows, cache);
    }
  }

  lemma StartFaithful(web: Web, rows: seq<Row>, cache: map<string, Details>)
    requires HostsAgree(web, rows, cache)
    ensures Faithful(web, rows, cache, Start(web, rows, cache))
  {
    var s := Start(web, rows, cache);
    forall w | 0 <= w < |s.workers| && s.workers[w].Returned?
      ensures s.workers[w].details == Alone(web, rows[s.workers[w].row])
    {
      assert !CachedWrongly(web, rows, cache, w);
    }
  }

  // ------------------------------------------------------------------
  // ... and when it is not
  // ------------------------------------------------------------------

  predicate NotItsOwn(web: Web, rows: seq<Row>, w: Worker) {
    w.Returned? && w.row < |rows| && w.details != Alone(web, rows[w.row])
  }

  /** Some row got details that are not its own. */
  ghost predicate Mixed(web: Web, rows: seq<Row>, s: Pool) {
    || (exists i :: i in s.used && i < |rows| && s.used[i] != Alone(web, rows[i]))
    || (exists w :: 0 <= w < |s.workers| && NotItsOwn(web, rows, s.workers[w]))
  }

  /** Nothing repairs such a row later. */
  lemma StaysMixed(web: Web, rows: seq<Row>, s: Pool, w: nat)
    requires WellFormed(web, rows, s) && Covered(rows, s) && Mixed(web, rows, s)
    ensures Mixed(web, rows, Resume(web, rows, s, w))
  {
    if i :| i in s.used && i < |rows| && s.used[i] != Alone(web, rows[i]) {
      WrittenStays(web, rows, s, w, i);
    } else {
      var x :| 0 <= x < |s.workers| && NotItsOwn(web, rows, s.workers[x]);
      HeldStays(web, rows, s, w, x);
    }
  }

  lemma WrittenStays(web: Web, rows: seq<Row>, s: Pool, w: nat, i: nat)
    requires WellFormed(web, rows, s) && Covered(rows, s)
    requires i in s.used && i < |rows| && s.used[i] != Alone(web, rows[i])
    ensures Mixed(web, rows, Resume(web, rows, s, w))
  {
    var t := Resume(web, rows, s, w);
    assert i in t.used && t.used[i] == s.used[i];
  }

  lemma HeldStays(web: Web, rows: seq<Row>, s: Pool, w: nat, x: nat)
    requires WellFormed(web, rows, s) && x < |s.workers| && NotItsOwn(web, rows, s.workers[x])
    ensures Mixed(web, rows, Resume(web, rows, s, w))
  {
    var t := Resume(web, rows, s, w);
    if x == w {
      assert t.used[s.workers[x].row] == s.workers[x].details;
    } else {
      assert t.workers[x] == s.workers[x];
    }
  }

  /** Every run can be carried on until all workers are done. */
  lemma {:induction false} Complete(web: Web, rows: seq<Row>, cache: map<string, Details>, schedule: seq<nat>) returns (full: seq<nat>)
    ensures Finished(Run(web, rows, cache, full))
    ensures Mixed(web, rows, Run(web, rows, cache, schedule)) ==> Mixed(web, rows, Run(web, rows, cache, full))
    decreases ToDo(rows, Run(web, rows, cache, schedule))
  {
    var s := Run(web, rows, cache, schedule);
    if Finished(s) {
      full := schedule;
    } else {
      var w := SomeoneIsReady(s);
      assert (schedule + [w])[..|schedule|] == schedule;
      Progress(web, rows, s, w);
      RunCovers(web, rows, cache, schedule);
      if Mixed(web, rows, s) { StaysMixed(web, rows, s, w); }
      full := Complete(web, rows, cache, schedule + [w]);
    }
  }

  /** Rows whose host was cached from the start never see their own page. */
  ghost predicate Stale(web: Web, rows: seq<Row>, cache: map<string, Details>, s: Pool) {
    && WellFormed(web, rows, s)
    && (forall h :: h in cache ==> h in s.cache && s.cache[h] == cache[h])
    && (forall i :: i in s.used && Host(web, rows[i]).Some? && Host(web, rows[i]).value in cache ==>
          s.used[i] == cache[Host(web, rows[i]).value])
    && (forall w :: 0 <= w < |s.workers| && !s.workers[w].Done? ==> FromCache(web, rows, cache, s.workers[w]))
  }

  ghost predicate FromCache(web: Web, rows: seq<Row>, cache: map<string, Details>, w: Worker)
    requires !w.Done? && w.row < |rows|
  {
    Host(web, rows[w.row]).Some? && Host(web, rows[w.row]).value in cache ==>
      w.Returned? && w.details == cache[Host(web, rows[w.row]).value]
  }

  lemma {:induction false} RunStale(web: Web, rows: seq<Row>, cache: map<string, Details>, schedule: seq<nat>)
    ensures Stale(web, rows, cache, Run(web, rows, cache, schedule))
  {
    if schedule != [] {
      RunStale(web, rows, cache, schedule[..|schedule| - 1]);
      ResumeStale(web, rows, cache, Run(web, rows, cache, schedule[..|schedule| - 1]), schedule[|schedule| - 1]);
    }
  }

  lemma ResumeStale(web: Web, rows: seq<Row>, cache: map<string, Details>, s: Pool, w: nat)
    requires Stale(web, rows, cache, s)
    ensures Stale(web, rows, cache, Resume(web, rows, s, w))
  {
  }

  // ----- a run in which one worker goes ahead -----

  /** Nothing has been fetched, and no row that fetches has got an answer. */
  ghost predicate Quiet(web: Web, rows: seq<Row>, cache: map<string, Details>, s: Pool) {
    && WellFormed(web, rows, s) && Covered(rows, s) && s.cache == cache
    && (forall i :: i in s.used ==> !Fetches(web, rows, cache, i))
    && (forall w :: 0 <= w < |s.workers| && s.workers[w].Returned? ==> !Fetches(web, rows, cache, s.workers[w].row))
  }

  /** A free worker means that fewer than six rows that fetch have been taken. */
  lemma NotYetTaken(web: Web, rows: seq<Row>, cache: map<string, Details>, s: Pool, j: nat)
    requires Quiet(web, rows, cache, s) && AnyReturned(s.workers) && s.idx <= j <= |rows| && Waits(web, rows, cache, j)
    ensures s.idx < j
  {
    if s.idx == j {
      InFetchIs(s.workers);
      InFetchAtMost(s.workers);
      forall i | i in Fetchers(web, rows, cache, j) ensures i in InFetch(s.workers) {
        assert InHand(s, i);
        var w :| 0 <= w < |s.workers| && !s.workers[w].Done? && s.workers[w].row == i;
        assert s.workers[w].Fetching?;
      }
      SubsetSize(Fetchers(web, rows, cache, j), InFetch(s.workers));
    }
  }

  lemma StaysQuiet(web: Web, rows: seq<Row>, cache: map<string, Details>, s: Pool, w: nat)
    requires Quiet(web, rows, cache, s) && w < |s.workers| && s.workers[w].Returned?
    ensures Quiet(web, rows, cache, Resume(web, rows, s, w))
  {
    ResumeCovers(web, rows, s, w);
  }

  /** The free workers go on until all six are fetching, before row j is taken. */
  lemma {:induction false} Drain(web: Web, rows: seq<Row>, cache: map<string, Details>, before: seq<nat>, j: nat)
    returns (schedule: seq<nat>)
    requires j < |rows| && Waits(web, rows, cache, j)
    requires Quiet(web, rows, cache, Run(web, rows, cache, before)) && Run(web, rows, cache, before).idx <= j
    ensures var s := Run(web, rows, cache, schedule); Quiet(web, rows, cache, s) && s.idx <= j && !AnyReturned(s.workers)
    decreases ToDo(rows, Run(web, rows, cache, before))
  {
    var s := Run(web, rows, cache, before);
    if AnyReturned(s.workers) {
      var w: nat :| 0 <= w < |s.workers| && s.workers[w].Returned?;
      assert (before + [w])[..|before|] == before;
      NotYetTaken(web, rows, cache, s, j);
      StaysQuiet(web, rows, cache, s, w);
      Progress(web, rows, s, w);
      schedule := Drain(web, rows, cache, before + [w], j);
    } else {
      schedule := before;
    }
  }

  lemma {:induction false} AtMostAll(web: Web, rows: seq<Row>, cache: map<string, Details>, j: nat)
    requires j <= |rows|
    ensures |Fetchers(web, rows, cache, j)| <= j
  {
    if j > 0 {
      AtMostAll(web, rows, cache, j - 1);
      var init := Fetchers(web, rows, cache, j - 1);
      SubsetSize(Fetchers(web, rows, cache, j), init + {j - 1});
    }
  }

  lemma AllFetching(web: Web, rows: seq<Row>, cache: map<string, Details>, j: nat) returns (schedule: seq<nat>)
    requires j < |rows| && Waits(web, rows, cache, j)
    ensures var s := Run(web, rows, cache, schedule);
            && Quiet(web, rows, cache, s) && s.idx <= j && |s.workers| == LIMIT
            && forall w :: 0 <= w < |s.workers| ==> s.workers[w].Fetching?
  {
    AtMostAll(web, rows, cache, j);
    RunCovers(web, rows, cache, []);
    schedule := Drain(web, rows, cache, [], j);
  }

  /** Worker w alone goes ahead, from row `first` in its hands when the index is `base`. */
  datatype Lone = Lone(w: nat, first: nat, base: nat)

  /** Row r's page, if it has one, is what its host is cached with. */
  ghost predicate LeftBehind(web: Web, rows: seq<Row>, s: Pool, r: nat)
    requires r < |rows|
  {
    Host(web, rows[r]).Some? && Page(web, rows[r]).Some? ==>
      Host(web, rows[r]).value in s.cache && s.cache[Host(web, rows[r]).value] == Alone(web, rows[r])
  }

  predicate LoneOk(rows: seq<Row>, l: Lone, m: nat) { l.w < LIMIT && l.first < l.base <= m <= |rows| }

  ghost predicate SoloPast(web: Web, rows: seq<Row>, s: Pool, l: Lone, m: nat)
    requires LoneOk(rows, l, m)
  {
    (m > l.base ==> LeftBehind(web, rows, s, l.first)) && forall r :: l.base <= r < m - 1 ==> LeftBehind(web, rows, s, r)
  }

  function SoloRow(l: Lone, m: nat): nat { if m <= l.base then l.first else m - 1 }

  ghost predicate SoloReached(web: Web, rows: seq<Row>, s: Pool, l: Lone, m: nat)
    requires LoneOk(rows, l, m)
  {
    && WellFormed(web, rows, s) && Covered(rows, s) && s.idx == m && |s.workers| == LIMIT
    && (forall x :: 0 <= x < |s.workers| && x != l.w ==> s.workers[x].Fetching?)
    && s.workers[l.w] == Call(web, rows, s.cache, SoloRow(l, m))
    && (Mixed(web, rows, s) || SoloPast(web, rows, s, l, m))
  }

  /** Worker w finishes the row in its hands and takes the next one. */
  function SoloAfter(web: Web, rows: seq<Row>, s: Pool, w: nat): (t: Pool)
    requires WellFormed(web, rows, s) && w < |s.workers|
    ensures WellFormed(web, rows, t)
  {
    if s.workers[w].Fetching? then Resume(web, rows, Resume(web, rows, s, w), w) else Resume(web, rows, s, w)
  }

  lemma SoloStaysMixed(web: Web, rows: seq<Row>, s: Pool, w: nat)
    requires WellFormed(web, rows, s) && w < |s.workers| && Covered(rows, s) && Mixed(web, rows, s)
    ensures Mixed(web, rows, SoloAfter(web, rows, s, w))
  {
    StaysMixed(web, rows, s, w);
    ResumeCovers(web, rows, s, w);
    if s.workers[w].Fetching? { StaysMixed(web, rows, Resume(web, rows, s, w), w); }
  }

  lemma SoloGoesOn(web: Web, rows: seq<Row>, s: Pool, l: Lone, m: nat)
    requires m > 0 && LoneOk(rows, l, m - 1) && m <= |rows| && SoloReached(web, rows, s, l, m - 1)
    ensures SoloReached(web, rows, SoloAfter(web, rows, s, l.w), l, m)
  {
    ResumeCovers(web, rows, s, l.w);
    if s.workers[l.w].Fetching? {
      SoloFetched(web, rows, s, l, m);
      ResumeCovers(web, rows, Resume(web, rows, s, l.w), l.w);
    } else {
      SoloHit(web, rows, s, l, m);
    }
  }

  lemma SoloStep(web: Web, rows: seq<Row>, cache: map<string, Details>, before: seq<nat>, s: Pool, l: Lone, m: nat)
    returns (schedule: seq<nat>)
    requires m > 0 && LoneOk(rows, l, m - 1) && m <= |rows|
    requires s == Run(web, rows, cache, before) && SoloReached(web, rows, s, l, m - 1)
    ensures SoloReached(web, rows, Run(web, rows, cache, schedule), l, m)
  {
    SoloGoesOn(web, rows, s, l, m);
    schedule := before + [l.w];
    assert schedule[..|before|] == before;
    if s.workers[l.w].Fetching? {
      assert (schedule + [l.w])[..|schedule|] == schedule;
      schedule := schedule + [l.w];
    }
  }

  /** Worker w alone processes its first row and all that follow up to m - 1, while
      the others wait for their pages. */
  lemma {:induction false} Solo(web: Web, rows: seq<Row>, cache: map<string, Details>, before: seq<nat>, l: Lone, m: nat)
    returns (schedule: seq<nat>)
    requires LoneOk(rows, l, m) && SoloReached(web, rows, Run(web, rows, cache, before), l, l.base)
    ensures SoloReached(web, rows, Run(web, rows, cache, schedule), l, m)
    decreases m
  {
    schedule := before;
    if m > l.base {
      var shorter := Solo(web, rows, cache, before, l, m - 1);
      schedule := SoloStep(web, rows, cache, shorter, Run(web, rows, cache, shorter), l, m);
    }
  }

  /** What worker w got was in the cache, so its row leaves that behind. */
  lemma HitLeavesBehind(web: Web, rows: seq<Row>, s: Pool, t: Pool, w: nat, r: nat)
    requires w < |s.workers| && r < |rows| && t.cache == s.cache
    requires s.workers[w] == Call(web, rows, s.cache, r) && s.workers[w].Returned?
    requires s.workers[w].details == Alone(web, rows[r])
    ensures LeftBehind(web, rows, t, r)
  {
  }

  lemma HitState(web: Web, rows: seq<Row>, s: Pool, w: nat)
    requires WellFormed(web, rows, s) && w < |s.workers| && s.workers[w].Returned? && s.idx < |rows|
    ensures var t := SoloAfter(web, rows, s, w);
            t.idx == s.idx + 1 && t.cache == s.cache && t.workers == s.workers[w := Call(web, rows, s.cache, s.idx)]
    ensures s.workers[w].details != Alone(web, rows[s.workers[w].row]) ==> Mixed(web, rows, SoloAfter(web, rows, s, w))
  {
    var t := SoloAfter(web, rows, s, w);
    assert t.used[s.workers[w].row] == s.workers[w].details;
  }

  lemma SoloHit(web: Web, rows: seq<Row>, s: Pool, l: Lone, m: nat)
    requires m > 0 && LoneOk(rows, l, m - 1) && m <= |rows| && SoloReached(web, rows, s, l, m - 1) && s.workers[l.w].Returned?
    ensures var t := SoloAfter(web, rows, s, l.w); t.idx == m && t.workers == s.workers[l.w := Call(web, rows, t.cache, SoloRow(l, m))]
    ensures var t := SoloAfter(web, rows, s, l.w); SoloPast(web, rows, t, l, m) || Mixed(web, rows, t)
  {
    if Mixed(web, rows, s) { SoloStaysMixed(web, rows, s, l.w); }
    HitState(web, rows, s, l.w);
    var r := SoloRow(l, m - 1);
    if SoloPast(web, rows, s, l, m - 1) && s.workers[l.w].details == Alone(web, rows[r]) {
      var t := SoloAfter(web, rows, s, l.w);
      HitLeavesBehind(web, rows, s, t, l.w, r);
      PastKept(web, rows, s, t, l, m);
    }
  }

  lemma PastKept(web: Web, rows: seq<Row>, s: Pool, t: Pool, l: Lone, m: nat)
    requires m > 0 && LoneOk(rows, l, m - 1) && m <= |rows| && SoloPast(web, rows, s, l, m - 1)
    requires LeftBehind(web, rows, t, SoloRow(l, m - 1))
    requires forall h :: h in s.cache ==> h in t.cache && t.cache[h] == s.cache[h]
    ensures SoloPast(web, rows, t, l, m)
  {
    forall q | 0 <= q < |rows| && LeftBehind(web, rows, s, q) ensures LeftBehind(web, rows, t, q) {}
  }

  lemma FetchedState(web: Web, rows: seq<Row>, s: Pool, w: nat) returns (d: Details, cache: map<string, Details>)
    requires WellFormed(web, rows, s) && w < |s.workers| && s.idx < |rows|
    requires forall x :: 0 <= x < |s.workers| ==> s.workers[x].Fetching?
    ensures d == Alone(web, rows[s.workers[w].row])
    ensures cache == if Page(web, rows[s.workers[w].row]).Some? then s.cache[Host(web, rows[s.workers[w].row]).value := d] else s.cache
    ensures SoloAfter(web, rows, s, w).idx == s.idx + 1
    ensures SoloAfter(web, rows, s, w).cache == cache
    ensures SoloAfter(web, rows, s, w).workers == s.workers[w := Call(web, rows, cache, s.idx)]
  {
    var r := s.workers[w].row;
    d := Alone(web, rows[r]);
    cache := if Page(web, rows[r]).Some? then s.cache[Host(web, rows[r]).value := d] else s.cache;
    assert Ready(s, w);
    assert Resume(web, rows, s, w).workers[w] == Returned(r, d);
  }

  lemma SoloFetched(web: Web, rows: seq<Row>, s: Pool, l: Lone, m: nat)
    requires m > 0 && LoneOk(rows, l, m - 1) && m <= |rows| && SoloReached(web, rows, s, l, m - 1) && s.workers[l.w].Fetching?
    ensures var t := SoloAfter(web, rows, s, l.w); t.idx == m && t.workers == s.workers[l.w := Call(web, rows, t.cache, SoloRow(l, m))]
    ensures var t := SoloAfter(web, rows, s, l.w); SoloPast(web, rows, t, l, m) || Mixed(web, rows, t)
  {
    if Mixed(web, rows, s) { SoloStaysMixed(web, rows, s, l.w); }
    var t := SoloAfter(web, rows, s, l.w);
    var d, cache := FetchedState(web, rows, s, l.w);
    if SoloPast(web, rows, s, l, m - 1) { FetchedPast(web, rows, s, t, l, m, d); }
  }

  lemma FetchedPast(web: Web, rows: seq<Row>, s: Pool, t: Pool, l: Lone, m: nat, d: Details)
    requires m > 0 && LoneOk(rows, l, m - 1) && m <= |rows| && SoloPast(web, rows, s, l, m - 1)
    requires Call(web, rows, s.cache, SoloRow(l, m - 1)).Fetching? && d == Alone(web, rows[SoloRow(l, m - 1)])
    requires var r := SoloRow(l, m - 1);
             t.cache == if Page(web, rows[r]).Some? then s.cache[Host(web, rows[r]).value := d] else s.cache
    ensures SoloPast(web, rows, t, l, m)
  {
    assert LeftBehind(web, rows, t, SoloRow(l, m - 1));
    PastKept(web, rows, s, t, l, m);
  }

  /** If the hosts do not agree, some run gives a row another row's details. */
  lemma Exposed(web: Web, rows: seq<Row>, cache: map<string, Details>) returns (schedule: seq<nat>, i: nat)
    requires !HostsAgree(web, rows, cache)
    ensures Finished(Run(web, rows, cache, schedule))
    ensures i < |rows| && i in Run(web, rows, cache, schedule).used
    ensures Run(web, rows, cache, schedule).used[i] != Alone(web, rows[i])
  {
    if j :| 0 <= j < |rows| && CachedWrongly(web, rows, cache, j) {
      schedule := Complete(web, rows, cache, []);
      AllWritten(web, rows, cache, schedule);
      RunStale(web, rows, cache, schedule);
      i := j;
    } else {
      var k, j :| 0 <= k < j < |rows| && Waits(web, rows, cache, j) && !Agree(web, rows, k, j);
      assert !CachedWrongly(web, rows, cache, k) && !CachedWrongly(web, rows, cache, j);
      schedule := Disagreeing(web, rows, cache, k, j);
      AllWritten(web, rows, cache, schedule);
      i :| i in Run(web, rows, cache, schedule).used && i < |rows| && Run(web, rows, cache, schedule).used[i] != Alone(web, rows[i]);
    }
  }

  /** The worker that has row k in its hands, or will have it if it goes ahead alone. */
  lemma Holder(web: Web, rows: seq<Row>, cache: map<string, Details>, s: Pool, k: nat) returns (l: Lone)
    requires Quiet(web, rows, cache, s) && Stale(web, rows, cache, s) && |s.workers| == LIMIT && k < |rows| && Fetches(web, rows, cache, k)
    requires forall w :: 0 <= w < |s.workers| ==> s.workers[w].Fetching?
    ensures LoneOk(rows, l, s.idx) && l.base == s.idx && (k == l.first || l.base <= k)
    ensures SoloReached(web, rows, s, l, s.idx)
  {
    var w: nat := 0;
    if k < s.idx {
      assert InHand(s, k);
      w :| 0 <= w < |s.workers| && !s.workers[w].Done? && s.workers[w].row == k;
    }
    l := Lone(w, s.workers[w].row, s.idx);
    assert FromCache(web, rows, cache, s.workers[w]);
  }

  lemma Disagreeing(web: Web, rows: seq<Row>, cache: map<string, Details>, k: nat, j: nat) returns (schedule: seq<nat>)
    requires k < j < |rows| && Waits(web, rows, cache, j) && !Agree(web, rows, k, j)
    requires !CachedWrongly(web, rows, cache, k) && !CachedWrongly(web, rows, cache, j)
    ensures Finished(Run(web, rows, cache, schedule))
    ensures Mixed(web, rows, Run(web, rows, cache, schedule))
  {
    var start := AllFetching(web, rows, cache, j);
    RunStale(web, rows, cache, start);
    var l := Holder(web, rows, cache, Run(web, rows, cache, start), k);
    var prefix := Solo(web, rows, cache, start, l, j + 1);
    MixedAtLast(web, rows, Run(web, rows, cache, prefix), k, j, l);
    schedule := Complete(web, rows, cache, prefix);
  }

  /** Row j finds what row k left behind. */
  lemma MixedAtLast(web: Web, rows: seq<Row>, s: Pool, k: nat, j: nat, l: Lone)
    requires k < j < |rows| && !Agree(web, rows, k, j)
    requires LoneOk(rows, l, j) && (k == l.first || l.base <= k) && SoloReached(web, rows, s, l, j + 1)
    ensures Mixed(web, rows, s)
  {
    if SoloPast(web, rows, s, l, j + 1) {
      assert LeftBehind(web, rows, s, k);
      assert s.workers[l.w] == Returned(j, Alone(web, rows[k]));
    }
  }

  /** The pool gives every row exactly what enriching it alone would, in every run,
      if and only if the hosts agree. */
  ghost predicate Transparent(web: Web, rows: seq<Row>, cache: map<string, Details>) {
    forall schedule :: RunTransparent(web, rows, cache, schedule)
  }

  ghost predicate RunTransparent(web: Web, rows: seq<Row>, cache: map<string, Details>, schedule: seq<nat>) {
    var s := Run(web, rows, cache, schedule);
    Finished(s) ==> forall i :: 0 <= i < |rows| ==> i in s.used && s.used[i] == Alone(web, rows[i])
  }

  lemma CacheIsInvisible(web: Web, rows: seq<Row>, cache: map<string, Details>)
    ensures Transparent(web, rows, cache) <==> HostsAgree(web, rows, cache)
  {
    if HostsAgree(web, rows, cache) {
      forall schedule ensures RunTransparent(web, rows, cache, schedule) {
        RunFaithful(web, rows, cache, schedule);
        if Finished(Run(web, rows, cache, schedule)) { AllWritten(web, rows, cache, schedule); }
      }
    } else {
      var schedule, i := Exposed(web, rows, cache);
      assert !RunTransparent(web, rows, cache, schedule);
    }
  }
}
