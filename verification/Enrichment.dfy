/** Six workers enrich scraped rows from their web sites and share a cache keyed by
    host name.

    A worker gives up control in two places: while a page is being fetched, and when
    `enrich` has returned but the row is not written yet. A schedule says which
    worker resumes next; it ranges over every order, except that a worker whose
    `enrich` has returned goes on before any page arrives: its resumption is a
    microtask, and a response is not. The time stamp of a fetch is not part of an
    enrichment here. */
module Enrichment {
  import opened Wrappers

  const LIMIT := 6

  datatype Row = Row(name: string, eik: Option<string>, website: Option<string>, phone: Option<string>, emails: seq<string>)

  datatype Details = Details(
    description: Option<string>,
    logo: Option<string>,
    social: seq<string>,
    trustpilot: Option<string>,
    phone: Option<string>,
    emails: seq<string>
  )

  const EMPTY := Details(None, None, [], None, None, [])

  /** What the outside world answers: the host name a web site parses to, if it does,
      and the details extracted from its page, if the fetch succeeds. */
  datatype Web = Web(host: string -> Option<string>, page: string -> Option<Details>)

  predicate HasSite(row: Row) { row.website.Some? && row.website.value != "" }

  function Host(web: Web, row: Row): Option<string> { if HasSite(row) then web.host(row.website.value) else None }

  /** What the row's own page gives. */
  function Page(web: Web, row: Row): Option<Details>
    requires HasSite(row)
  {
    web.page(row.website.value)
  }

  /** Enriching the row on its own, without any cache. */
  function Alone(web: Web, row: Row): Details {
    if Host(web, row) == None then EMPTY else match Page(web, row) case Some(d) => d case None => EMPTY
  }

  datatype Worker = Fetching(row: nat) | Returned(row: nat, details: Details) | Done

  /** `used[i]` holds the details row i of the output was merged with. */
  datatype Pool = Pool(idx: nat, cache: map<string, Details>, workers: seq<Worker>, used: map<nat, Details>)

  /** `enrich` called for row i, up to where it first gives up control. */
  function Call(web: Web, rows: seq<Row>, cache: map<string, Details>, i: nat): Worker
    requires i < |rows|
  {
    match Host(web, rows[i])
    case None => Returned(i, EMPTY)
    case Some(h) => if h in cache then Returned(i, cache[h]) else Fetching(i)
  }

  /** A row without a site, with an empty one, or with one that does not parse is answered
      at once with nothing, whatever the cache holds. */
  lemma NothingToAsk(web: Web, rows: seq<Row>, cache: map<string, Details>, i: nat)
    requires i < |rows|
    requires var site := rows[i].website; site == None || site == Some("") || web.host(site.value) == None
    ensures Call(web, rows, cache, i) == Returned(i, EMPTY) && Alone(web, rows[i]) == EMPTY
  {
  }

  function Start(web: Web, rows: seq<Row>, cache: map<string, Details>): Pool {
    var n := if LIMIT < |rows| then LIMIT else |rows|;
    Pool(n, cache, seq(n, i requires 0 <= i < |rows| => Call(web, rows, cache, i)), map[])
  }

  ghost predicate WellFormed(web: Web, rows: seq<Row>, s: Pool) {
    && s.idx <= |rows|
    && (forall w :: 0 <= w < |s.workers| && !s.workers[w].Done? ==> s.workers[w].row < s.idx)
    && (forall w :: 0 <= w < |s.workers| && s.workers[w].Fetching? ==> Host(web, rows[s.workers[w].row]).Some?)
    && (forall i :: i in s.used ==> i < s.idx)
  }

  function TakeNext(web: Web, rows: seq<Row>, s: Pool, w: nat): Pool
    requires w < |s.workers|
  {
    if s.idx < |rows| then
      s.(idx := s.idx + 1, workers := s.workers[w := Call(web, rows, s.cache, s.idx)])
    else
      s.(workers := s.workers[w := Done])
  }

  predicate AnyReturned(workers: seq<Worker>) { exists w :: 0 <= w < |workers| && workers[w].Returned? }

  /** Worker w may be the next one to resume. */
  predicate Ready(s: Pool, w: nat) {
    w < |s.workers| && (s.workers[w].Returned? || (s.workers[w].Fetching? && !AnyReturned(s.workers)))
  }

  /** Worker w, if it is ready, runs from its suspension point to the next one. */
  function Resume(web: Web, rows: seq<Row>, s: Pool, w: nat): (s': Pool)
    requires WellFormed(web, rows, s)
    ensures WellFormed(web, rows, s') && |s'.workers| == |s.workers|
  {
    if !Ready(s, w) then s else
      match s.workers[w]
      case Fetching(i) =>
        (match Page(web, rows[i])
         case Some(d) => s.(cache := s.cache[Host(web, rows[i]).value := d], workers := s.workers[w := Returned(i, d)])
         case None => s.(workers := s.workers[w := Returned(i, EMPTY)]))
      case Returned(i, d) => TakeNext(web, rows, s.(used := s.used[i := d]), w)
      case Done => s
  }

  function Run(web: Web, rows: seq<Row>, cache: map<string, Details>, schedule: seq<nat>): (s: Pool)
    ensures WellFormed(web, rows, s)
  {
    if schedule == [] then Start(web, rows, cache)
    else Resume(web, rows, Run(web, rows, cache, schedule[..|schedule| - 1]), schedule[|schedule| - 1])
  }

  ghost predicate Finished(s: Pool) { forall w :: 0 <= w < |s.workers| ==> s.workers[w].Done? }

  // ------------------------------------------------------------------
  // Every row is enriched once
  // ------------------------------------------------------------------

  ghost predicate InHand(s: Pool, i: nat) { exists w :: 0 <= w < |s.workers| && !s.workers[w].Done? && s.workers[w].row == i }

  /** Rows below the index are written or in the hands of exactly one worker, and a
      worker that is done has left no row behind. */
  ghost predicate Covered(rows: seq<Row>, s: Pool) {
    && |s.workers| == (if LIMIT < |rows| then LIMIT else |rows|)
    && (forall i :: 0 <= i < s.idx ==> i in s.used || InHand(s, i))
    && (forall w :: 0 <= w < |s.workers| && !s.workers[w].Done? ==> s.workers[w].row !in s.used)
    && (forall w, x :: 0 <= w < x < |s.workers| && !s.workers[w].Done? && !s.workers[x].Done? ==> s.workers[w].row != s.workers[x].row)
    && (forall w :: 0 <= w < |s.workers| && s.workers[w].Done? ==> s.idx == |rows|)
  }

  lemma Kept(s: Pool, t: Pool, w: nat, i: nat)
    requires InHand(s, i) && |t.workers| == |s.workers|
    requires forall x :: 0 <= x < |s.workers| && x != w ==> t.workers[x] == s.workers[x]
    requires w < |s.workers| ==> s.workers[w].Done? || s.workers[w].row != i || (!t.workers[w].Done? && t.workers[w].row == i)
    ensures InHand(t, i)
  {
    var x :| 0 <= x < |s.workers| && !s.workers[x].Done? && s.workers[x].row == i;
    assert !t.workers[x].Done? && t.workers[x].row == i;
  }

  /** A worker that goes on with the row in its hands. */
  lemma SameRowCovers(rows: seq<Row>, s: Pool, w: nat, next: Worker, cache: map<string, Details>)
    requires Covered(rows, s) && w < |s.workers| && !s.workers[w].Done? && !next.Done? && next.row == s.workers[w].row
    ensures Covered(rows, s.(workers := s.workers[w := next], cache := cache))
  {
    var t := s.(workers := s.workers[w := next], cache := cache);
    forall i | 0 <= i < t.idx && i !in t.used ensures InHand(t, i) { Kept(s, t, w, i); }
  }

  /** A worker that writes its row and takes the next one, or stops. */
  lemma NextRowCovers(rows: seq<Row>, s: Pool, w: nat, d: Details, next: Worker)
    requires Covered(rows, s) && w < |s.workers| && !s.workers[w].Done? && s.idx <= |rows|
    requires forall x :: 0 <= x < |s.workers| && !s.workers[x].Done? ==> s.workers[x].row < s.idx
    requires forall i :: i in s.used ==> i < s.idx
    requires if s.idx < |rows| then !next.Done? && next.row == s.idx else next == Done
    ensures Covered(rows, s.(workers := s.workers[w := next], used := s.used[s.workers[w].row := d],
                             idx := if s.idx < |rows| then s.idx + 1 else s.idx))
  {
    var t := s.(workers := s.workers[w := next], used := s.used[s.workers[w].row := d],
                idx := if s.idx < |rows| then s.idx + 1 else s.idx);
    forall i | 0 <= i < t.idx && i !in t.used ensures InHand(t, i) {
      if i == s.idx { assert t.workers[w].row == i; } else { Kept(s, t, w, i); }
    }
  }

  lemma ResumeCovers(web: Web, rows: seq<Row>, s: Pool, w: nat)
    requires WellFormed(web, rows, s) && Covered(rows, s)
    ensures Covered(rows, Resume(web, rows, s, w))
  {
    if Ready(s, w) {
      var t := Resume(web, rows, s, w);
      match s.workers[w]
      case Fetching(i) => SameRowCovers(rows, s, w, t.workers[w], t.cache);
      case Returned(i, d) => NextRowCovers(rows, s, w, d, t.workers[w]);
      case Done =>
    }
  }

  lemma {:induction false} RunCovers(web: Web, rows: seq<Row>, cache: map<string, Details>, schedule: seq<nat>)
    ensures Covered(rows, Run(web, rows, cache, schedule))
  {
    if schedule == [] {
      var s := Start(web, rows, cache);
      forall i | 0 <= i < s.idx ensures InHand(s, i) { assert s.workers[i].row == i; }
    } else {
      RunCovers(web, rows, cache, schedule[..|schedule| - 1]);
      ResumeCovers(web, rows, Run(web, rows, cache, schedule[..|schedule| - 1]), schedule[|schedule| - 1]);
    }
  }

  /** When all workers are done, every row has been written. */
  lemma AllWritten(web: Web, rows: seq<Row>, cache: map<string, Details>, schedule: seq<nat>)
    requires Finished(Run(web, rows, cache, schedule))
    ensures forall i :: i in Run(web, rows, cache, schedule).used <==> 0 <= i < |rows|
  {
    var s := Run(web, rows, cache, schedule);
    RunCovers(web, rows, cache, schedule);
    if rows != [] { assert s.workers[0].Done?; }
    forall i | 0 <= i < |rows| ensures i in s.used { assert !InHand(s, i); }
  }

  // ------------------------------------------------------------------
  // The pool stops
  // ------------------------------------------------------------------

  function Weight(w: Worker): nat { match w case Fetching(_) => 2 case Returned(_, _) => 1 case Done => 0 }

  function Pending(ws: seq<Worker>): nat { if ws == [] then 0 else Pending(ws[..|ws| - 1]) + Weight(ws[|ws| - 1]) }

  lemma {:induction false} PendingUpdate(ws: seq<Worker>, w: nat, v: Worker)
    requires w < |ws|
    ensures Pending(ws[w := v]) == Pending(ws) - Weight(ws[w]) + Weight(v)
  {
    var n := |ws| - 1;
    if w == n {
      assert ws[w := v][..n] == ws[..n];
    } else {
      PendingUpdate(ws[..n], w, v);
      assert ws[w := v][..n] == ws[..n][w := v];
    }
  }

  /** Until all workers are done one of them is ready. */
  lemma SomeoneIsReady(s: Pool) returns (w: nat)
    requires !Finished(s)
    ensures Ready(s, w)
  {
    if AnyReturned(s.workers) {
      w :| 0 <= w < |s.workers| && s.workers[w].Returned?;
    } else {
      w :| 0 <= w < |s.workers| && !s.workers[w].Done?;
    }
  }

  /** Resumptions that can still do something. */
  function ToDo(rows: seq<Row>, s: Pool): nat
    requires s.idx <= |rows|
  {
    2 * (|rows| - s.idx) + Pending(s.workers)
  }

  /** Resuming a worker that is ready is progress, so every fair run finishes. */
  lemma Progress(web: Web, rows: seq<Row>, s: Pool, w: nat)
    requires WellFormed(web, rows, s) && Ready(s, w)
    ensures ToDo(rows, Resume(web, rows, s, w)) < ToDo(rows, s)
  {
    PendingUpdate(s.workers, w, Resume(web, rows, s, w).workers[w]);
    assert Resume(web, rows, s, w).workers == s.workers[w := Resume(web, rows, s, w).workers[w]];
  }
}
