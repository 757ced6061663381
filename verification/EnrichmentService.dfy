/** The insurer scraper: first-by-key filtering of strings and rows, and the worker
    pool as code over a shared host cache. `fold` stands for lower-casing. */
module EnrichmentService {
  import opened Wrappers
  import opened Enrichment
  import opened EnrichmentCache
  import opened Selections

  // ------------------------------------------------------------------
  // Keeping the first of each key
  // ------------------------------------------------------------------

  function Keys<T(==), K(==)>(key: T -> K, values: seq<T>): set<K> { set v | v in values :: key(v) }

  function Firsts<T(==), K(==)>(key: T -> K, values: seq<T>): seq<T> {
    if values == [] then []
    else
      var init, last := values[..|values| - 1], values[|values| - 1];
      if key(last) in Keys(key, init) then Firsts(key, init) else Firsts(key, init) + [last]
  }

  lemma KeysOfAppend<T, K>(key: T -> K, a: seq<T>, v: T)
    ensures Keys(key, a + [v]) == Keys(key, a) + {key(v)}
  {
    assert forall x :: x in a + [v] <==> x in a || x == v;
    forall k | k in Keys(key, a) + {key(v)} ensures k in Keys(key, a + [v]) {
      var x :| x in a + [v] && key(x) == k;
    }
  }

  ghost predicate DistinctKeys<T, K>(key: T -> K, values: seq<T>) {
    forall i, j :: 0 <= i < j < |values| ==> key(values[i]) != key(values[j])
  }

  /** Nothing with a new key is lost and no key is left twice. */
  lemma {:induction false} FirstsKeepEachKeyOnce<T, K>(key: T -> K, values: seq<T>)
    ensures DistinctKeys(key, Firsts(key, values))
    ensures Keys(key, Firsts(key, values)) == Keys(key, values)
    ensures forall v :: v in Firsts(key, values) ==> v in values
  {
    if values != [] {
      var init, last := values[..|values| - 1], values[|values| - 1];
      FirstsKeepEachKeyOnce(key, init);
      KeysOfAppend(key, init, last);
      assert init + [last] == values;
      if key(last) in Keys(key, init) {
        assert Keys(key, values) == Keys(key, init);
      } else {
        KeysOfAppend(key, Firsts(key, init), last);
        forall i | 0 <= i < |Firsts(key, init)| ensures key(Firsts(key, init)[i]) != key(last) {
          assert key(Firsts(key, init)[i]) in Keys(key, Firsts(key, init));
        }
      }
    }
  }

  /** What is kept is the earliest value with its key: filtering a longer list only
      adds at the end. */
  lemma {:induction false} FirstsOfPrefix<T, K>(key: T -> K, a: seq<T>, b: seq<T>)
    ensures Firsts(key, a) <= Firsts(key, a + b)
  {
    if b == [] {
      assert a + b == a;
    } else {
      FirstsOfPrefix(key, a, b[..|b| - 1]);
      assert (a + b)[..|a + b| - 1] == a + b[..|b| - 1];
    }
  }

  predicate NewAt<T, K(==)>(key: T -> K, values: seq<T>, i: nat)
    requires i < |values|
  {
    forall j :: 0 <= j < i ==> key(values[j]) != key(values[i])
  }

  /** The values at exactly those positions at which a key occurs for the first time. */
  ghost predicate FirstOfEach<T, K>(key: T -> K, values: seq<T>, result: seq<T>) {
    exists at :: Picks(values, result, at) && NewPositions(key, values, at)
  }

  ghost predicate NewPositions<T, K>(key: T -> K, values: seq<T>, at: seq<nat>) {
    forall i: nat :: i < |values| ==> (i in at <==> NewAt(key, values, i))
  }

  lemma NewEarlier<T, K>(key: T -> K, values: seq<T>, v: T, i: nat)
    requires i < |values|
    ensures NewAt(key, values + [v], i) <==> NewAt(key, values, i)
  {
    var all := values + [v];
    assert forall j :: 0 <= j <= i ==> all[j] == values[j];
  }

  lemma NewLast<T, K>(key: T -> K, values: seq<T>, v: T)
    ensures NewAt(key, values + [v], |values|) <==> key(v) !in Keys(key, values)
  {
    var all, n := values + [v], |values|;
    assert all[n] == v && forall j :: 0 <= j < n ==> all[j] == values[j];
    if key(v) in Keys(key, values) {
      var x :| x in values && key(x) == key(v);
      var j :| 0 <= j < n && values[j] == x;
      assert key(all[j]) == key(all[n]);
    } else {
      forall j | 0 <= j < n ensures key(all[j]) != key(all[n]) { assert values[j] in values; }
    }
  }

  lemma NewSnoc<T, K>(key: T -> K, values: seq<T>, v: T, at: seq<nat>)
    requires NewPositions(key, values, at) && forall k :: 0 <= k < |at| ==> at[k] < |values|
    ensures NewPositions(key, values + [v], if key(v) in Keys(key, values) then at else at + [|values|])
  {
    var all, n := values + [v], |values|;
    var next := if key(v) in Keys(key, values) then at else at + [n];
    NewLast(key, values, v);
    forall i: nat | i < |all| ensures i in next <==> NewAt(key, all, i) {
      if i < n { NewEarlier(key, values, v, i); }
    }
  }

  lemma {:induction false} FirstsAreFirst<T, K>(key: T -> K, values: seq<T>)
    ensures FirstOfEach(key, values, Firsts(key, values))
  {
    if values == [] {
      assert Picks<T>([], [], []) && NewPositions(key, values, []);
    } else {
      var init, v := values[..|values| - 1], values[|values| - 1];
      FirstsAreFirst(key, init);
      var at :| Picks(init, Firsts(key, init), at) && NewPositions(key, init, at);
      PicksSnoc(init, Firsts(key, init), at, v);
      NewSnoc(key, init, v, at);
      assert values == init + [v];
    }
  }

  /** Values that already have different keys all stay. */
  lemma {:induction false} FirstsOfDistinct<T, K>(key: T -> K, values: seq<T>)
    requires DistinctKeys(key, values)
    ensures Firsts(key, values) == values
  {
    if values != [] {
      var n := |values| - 1;
      FirstsOfDistinct(key, values[..n]);
      assert key(values[n]) !in Keys(key, values[..n]);
    }
  }

  lemma FirstsTwice<T, K>(key: T -> K, values: seq<T>)
    ensures Firsts(key, Firsts(key, values)) == Firsts(key, values)
  {
    FirstsKeepEachKeyOnce(key, values);
    FirstsOfDistinct(key, Firsts(key, values));
  }

  lemma FirstsNext<T, K>(key: T -> K, values: seq<T>, k: nat)
    requires k < |values|
    ensures Firsts(key, values[..k + 1]) ==
            if key(values[k]) in Keys(key, values[..k]) then Firsts(key, values[..k]) else Firsts(key, values[..k]) + [values[k]]
    ensures Keys(key, values[..k + 1]) == Keys(key, values[..k]) + {key(values[k])}
  {
    assert values[..k + 1][..k] == values[..k] && values[..k + 1] == values[..k] + [values[k]];
    KeysOfAppend(key, values[..k], values[k]);
  }

  method UniqueStrings(fold: string -> string, values: seq<string>) returns (result: seq<string>)
    ensures result == Firsts(fold, values)
    ensures DistinctKeys(fold, result) && Keys(fold, result) == Keys(fold, values)
    ensures FirstOfEach(fold, values, result)
  {
    var seen: set<string> := {};
    result := [];
    for k := 0 to |values|
      invariant seen == Keys(fold, values[..k])
      invariant result == Firsts(fold, values[..k])
    {
      var normalized := fold(values[k]);
      FirstsNext(fold, values, k);
      if normalized !in seen {
        seen := seen + {normalized};
        result := result + [values[k]];
      }
    }
    assert values[..|values|] == values;
    FirstsAreFirst(fold, values);
    FirstsKeepEachKeyOnce(fold, values);
  }

  // ------------------------------------------------------------------
  // Rows
  // ------------------------------------------------------------------

  datatype Enriched = Enriched(row: Row, details: Details, phone: Option<string>, emails: seq<string>)

  /** The row's own contact data goes first. */
  function Merge(fold: string -> string, row: Row, d: Details): Enriched {
    Enriched(row, d, if row.phone.Some? then row.phone else d.phone, Firsts(fold, row.emails + d.emails))
  }

  /** Each address of the row and of the page is there up to case, no two are equal up to
      case, and the row's own come first, in their order. */
  ghost predicate MergedEmails(fold: string -> string, own: seq<string>, page: seq<string>, emails: seq<string>) {
    && (forall e :: e in own || e in page ==> fold(e) in Keys(fold, emails))
    && DistinctKeys(fold, emails)
    && exists n :: 0 <= n <= |emails| && FirstOfEach(fold, own, emails[..n]) && forall k :: n <= k < |emails| ==> emails[k] in page
  }

  lemma EmailsAreMerged(fold: string -> string, own: seq<string>, page: seq<string>)
    ensures MergedEmails(fold, own, page, Firsts(fold, own + page))
  {
    var all, mine := Firsts(fold, own + page), Firsts(fold, own);
    FirstsKeepEachKeyOnce(fold, own + page);
    FirstsKeepEachKeyOnce(fold, own);
    FirstsOfPrefix(fold, own, page);
    FirstsAreFirst(fold, own);
    forall e | e in own || e in page ensures fold(e) in Keys(fold, all) { assert e in own + page; }
    forall k | |mine| <= k < |all| ensures all[k] in page {
      assert all[k] in own + page;
      if all[k] in own { OwnIsEarlier(fold, own, all, k); }
    }
    assert all[..|mine|] == mine;
  }

  lemma OwnIsEarlier(fold: string -> string, own: seq<string>, all: seq<string>, k: nat)
    requires Firsts(fold, own) <= all && DistinctKeys(fold, all) && k < |all| && all[k] in own
    requires Keys(fold, Firsts(fold, own)) == Keys(fold, own)
    ensures k < |Firsts(fold, own)|
  {
    var mine := Firsts(fold, own);
    assert fold(all[k]) in Keys(fold, own);
    var v :| v in mine && fold(v) == fold(all[k]);
    var j :| 0 <= j < |mine| && mine[j] == v;
    assert all[j] == v;
  }

  /** What a merged row holds: the row and the details of the page; the row's own phone if
      it has one, and else the page's; and the addresses of both. */
  ghost predicate Merged(fold: string -> string, row: Row, d: Details, e: Enriched) {
    && e.row == row && e.details == d
    && (row.phone.Some? ==> e.phone == row.phone) && (row.phone == None ==> e.phone == d.phone)
    && MergedEmails(fold, row.emails, d.emails, e.emails)
  }

  function DedupKey(fold: string -> string, r: Enriched): string {
    (if r.row.eik.Some? then fold(r.row.eik.value) else fold("")) + "::" + fold(r.row.name)
  }

  method DeduplicateRows(fold: string -> string, rows: seq<Enriched>) returns (deduped: seq<Enriched>)
    ensures deduped == Firsts(r => DedupKey(fold, r), rows)
    ensures DistinctKeys(r => DedupKey(fold, r), deduped) && FirstOfEach(r => DedupKey(fold, r), rows, deduped)
  {
    ghost var key := r => DedupKey(fold, r);
    var seen: set<string> := {};
    deduped := [];
    for k := 0 to |rows|
      invariant seen == Keys(key, rows[..k])
      invariant deduped == Firsts(key, rows[..k])
    {
      FirstsNext(key, rows, k);
      if DedupKey(fold, rows[k]) !in seen {
        seen := seen + {DedupKey(fold, rows[k])};
        deduped := deduped + [rows[k]];
      }
    }
    assert rows[..|rows|] == rows;
    FirstsAreFirst(key, rows);
    FirstsKeepEachKeyOnce(key, rows);
  }

  /** Two rows with the same key are the same insurer, provided company numbers hold
      no colon. */
  lemma DedupKeyIdentifies(fold: string -> string, a: Enriched, b: Enriched)
    requires forall r :: r in [a, b] ==> ':' !in (if r.row.eik.Some? then fold(r.row.eik.value) else fold(""))
    requires DedupKey(fold, a) == DedupKey(fold, b)
    ensures fold(a.row.name) == fold(b.row.name)
    ensures (if a.row.eik.Some? then fold(a.row.eik.value) else fold("")) == (if b.row.eik.Some? then fold(b.row.eik.value) else fold(""))
  {
    var x := if a.row.eik.Some? then fold(a.row.eik.value) else fold("");
    var y := if b.row.eik.Some? then fold(b.row.eik.value) else fold("");
    assert a in [a, b] && b in [a, b];
    var k := DedupKey(fold, a);
    assert k == x + "::" + fold(a.row.name) == y + "::" + fold(b.row.name);
    assert k[|x|] == ':' && (forall i :: 0 <= i < |x| ==> k[i] == x[i]);
    assert k[|y|] == ':' && (forall i :: 0 <= i < |y| ==> k[i] == y[i]);
    assert x == k[..|x|] && y == k[..|y|];
    assert fold(a.row.name) == k[|x| + 2..] && fold(b.row.name) == k[|y| + 2..];
  }

  /** Rows whose name and company number are equal up to case have one key; a missing
      number counts as the empty one. */
  lemma SameInsurerSameKey(fold: string -> string, a: Enriched, b: Enriched)
    requires fold(a.row.name) == fold(b.row.name)
    requires fold(if a.row.eik.Some? then a.row.eik.value else "") == fold(if b.row.eik.Some? then b.row.eik.value else "")
    ensures DedupKey(fold, a) == DedupKey(fold, b)
  {
  }

  // ------------------------------------------------------------------
  // The pool
  // ------------------------------------------------------------------

  /** The map from host to details that all workers share. */
  class HostCache {
    var entries: map<string, Details>

    constructor ()
      ensures entries == map[]
    {
      entries := map[];
    }

    /** `enrich` up to its first suspension. */
    method BeginEnrich(web: Web, rows: seq<Row>, i: nat) returns (w: Worker)
      requires i < |rows|
      ensures w == Call(web, rows, entries, i)
    {
      if !HasSite(rows[i]) { return Returned(i, EMPTY); }
      var host := web.host(rows[i].website.value);
      if host == None { return Returned(i, EMPTY); }
      if host.value in entries { return Returned(i, entries[host.value]); }
      return Fetching(i);
    }

    /** The rest of `enrich` once the request has settled; a failed fetch is not cached. */
    method FinishEnrich(web: Web, row: Row) returns (d: Details)
      requires Host(web, row).Some?
      modifies this
      ensures d == Alone(web, row)
      ensures entries == if Page(web, row).Some? then old(entries)[Host(web, row).value := d] else old(entries)
    {
      match Page(web, row)
      case Some(page) =>
        entries := entries[Host(web, row).value := page];
        d := page;
      case None =>
        d := EMPTY;
    }
  }

  method StartWorkers(web: Web, rows: seq<Row>, cache: HostCache) returns (idx: nat, workers: seq<Worker>)
    ensures Start(web, rows, cache.entries) == Pool(idx, cache.entries, workers, map[])
  {
    var n := if LIMIT < |rows| then LIMIT else |rows|;
    idx, workers := 0, [];
    while idx < n
      invariant |workers| == idx <= n
      invariant forall k :: 0 <= k < idx ==> workers[k] == Call(web, rows, cache.entries, k)
    {
      var w := cache.BeginEnrich(web, rows, idx);
      workers, idx := workers + [w], idx + 1;
    }
  }

  /** A row's slot in the output holds what the pool says it was merged with. */
  ghost predicate Written(fold: string -> string, rows: seq<Row>, output: seq<Option<Enriched>>, used: map<nat, Details>) {
    && |output| == |rows|
    && forall i :: 0 <= i < |rows| ==> output[i] == if i in used then Some(Merge(fold, rows[i], used[i])) else None
  }

  /** A worker that is ready resumes; s is the pool before it does. */
  method Step(web: Web, fold: string -> string, rows: seq<Row>, cache: HostCache, ghost s: Pool,
              idx: nat, workers: seq<Worker>, output: seq<Option<Enriched>>, w: nat)
    returns (idx': nat, workers': seq<Worker>, output': seq<Option<Enriched>>)
    requires WellFormed(web, rows, s) && idx == s.idx && workers == s.workers
    requires cache.entries == s.cache && Written(fold, rows, output, s.used)
    requires Ready(s, w)
    modifies cache
    ensures var t := Resume(web, rows, s, w);
            idx' == t.idx && workers' == t.workers && cache.entries == t.cache && Written(fold, rows, output', t.used)
  {
    idx', workers', output' := idx, workers, output;
    match workers[w]
    case Fetching(i) =>
      var d := cache.FinishEnrich(web, rows[i]);
      workers' := workers[w := Returned(i, d)];
    case Returned(i, d) =>
      output' := output[i := Some(Merge(fold, rows[i], d))];
      if idx < |rows| {
        var next := cache.BeginEnrich(web, rows, idx);
        idx', workers' := idx + 1, workers[w := next];
      } else {
        workers' := workers[w := Done];
      }
  }

  /** The workers run until all are done; any of those that are ready may be next. */
  method RunWorkers(web: Web, fold: string -> string, rows: seq<Row>, cache: HostCache)
    returns (slots: seq<Option<Enriched>>, ghost schedule: seq<nat>)
    modifies cache
    ensures var s := Run(web, rows, old(cache.entries), schedule);
            Finished(s) && cache.entries == s.cache && Written(fold, rows, slots, s.used)
  {
    ghost var cache0 := cache.entries;
    var idx, workers := StartWorkers(web, rows, cache);
    slots := seq(|rows|, _ => None);
    schedule := [];
    while exists w :: 0 <= w < |workers| && !workers[w].Done?
      invariant var s := Run(web, rows, cache0, schedule);
                idx == s.idx && workers == s.workers && cache.entries == s.cache && Written(fold, rows, slots, s.used)
      decreases ToDo(rows, Run(web, rows, cache0, schedule))
    {
      ghost var s := Run(web, rows, cache0, schedule);
      var w: nat;
      if AnyReturned(workers) {
        w :| 0 <= w < |workers| && workers[w].Returned?;
      } else {
        w :| 0 <= w < |workers| && !workers[w].Done?;
      }
      Progress(web, rows, s, w);
      idx, workers, slots := Step(web, fold, rows, cache, s, idx, workers, slots, w);
      assert (schedule + [w])[..|schedule|] == schedule;
      schedule := schedule + [w];
    }
  }

  /** Whichever page arrives next, and whichever worker with an answer goes on, the
      result is that of a run of the pool; and it is, in row order, what one-by-one
      uncached enrichment gives whenever the hosts agree. The pool always stops. */
  method EnrichRows(web: Web, fold: string -> string, rows: seq<Row>, cache: HostCache)
    returns (output: seq<Enriched>, ghost schedule: seq<nat>)
    modifies cache
    ensures var s := Run(web, rows, old(cache.entries), schedule);
            && Finished(s) && cache.entries == s.cache && |output| == |rows|
            && forall i :: 0 <= i < |rows| ==>
                 i in s.used && output[i] == Merge(fold, rows[i], s.used[i]) && Merged(fold, rows[i], s.used[i], output[i])
    ensures HostsAgree(web, rows, old(cache.entries)) ==>
              forall i :: 0 <= i < |rows| ==>
                output[i] == Merge(fold, rows[i], Alone(web, rows[i])) && Merged(fold, rows[i], Alone(web, rows[i]), output[i])
  {
    ghost var cache0 := cache.entries;
    var slots;
    slots, schedule := RunWorkers(web, fold, rows, cache);
    ghost var s := Run(web, rows, cache0, schedule);
    AllWritten(web, rows, cache0, schedule);
    if HostsAgree(web, rows, cache0) { RunFaithful(web, rows, cache0, schedule); }
    output := seq(|rows|, i requires 0 <= i < |slots| && slots[i].Some? => slots[i].value);
    forall i: nat | i < |rows| ensures Merged(fold, rows[i], s.used[i], output[i]) { MergeMerges(fold, rows[i], s.used[i]); }
  }

  lemma MergeMerges(fold: string -> string, row: Row, d: Details)
    ensures Merged(fold, row, d, Merge(fold, row, d))
  {
    EmailsAreMerged(fold, row.emails, d.emails);
  }
}
