/** The rows of the audit table, the queries that order them, and what verifyChain
    accepts. SHA-256 is a function `h` of the hashed text. */
module AuditChain {
  import opened Wrappers
  import opened AuditEntry

  type Hash = string -> string

  /** Rows written before the chain was introduced have neither hash. */
  datatype Row = Row(id: nat, entry: Entry, prevHash: Option<string>, entryHash: Option<string>)

  // ----- ORDER BY created_at, id -----

  predicate KeyLess(a: Row, b: Row) {
    a.entry.createdAt.Before(b.entry.createdAt) || (a.entry.createdAt == b.entry.createdAt && a.id < b.id)
  }

  function Insert(rows: seq<Row>, r: Row): seq<Row> {
    if rows == [] || KeyLess(r, rows[0]) then [r] + rows
    else [rows[0]] + Insert(rows[1..], r)
  }

  function Sort(rows: seq<Row>): seq<Row> {
    if rows == [] then [] else Insert(Sort(rows[..|rows| - 1]), rows[|rows| - 1])
  }

  ghost predicate InOrder(rows: seq<Row>) {
    forall i, j :: 0 <= i < j < |rows| ==> KeyLess(rows[i], rows[j])
  }

  ghost predicate DistinctIds(rows: seq<Row>) {
    forall i, j :: 0 <= i < j < |rows| ==> rows[i].id != rows[j].id
  }

  lemma {:induction false} InsertMultiset(rows: seq<Row>, r: Row)
    ensures multiset(Insert(rows, r)) == multiset(rows) + multiset{r}
  {
    if rows != [] && !KeyLess(r, rows[0]) {
      InsertMultiset(rows[1..], r);
      assert rows == [rows[0]] + rows[1..];
    }
  }

  lemma {:induction false} InsertInOrder(rows: seq<Row>, r: Row)
    requires InOrder(rows) && forall x :: x in rows ==> x.id != r.id
    ensures InOrder(Insert(rows, r))
  {
    if rows != [] && !KeyLess(r, rows[0]) {
      InsertInOrder(rows[1..], r);
      InsertMultiset(rows[1..], r);
      var s := Insert(rows[1..], r);
      forall x | x in s ensures KeyLess(rows[0], x) {
        assert x in multiset(s);
        assert x in multiset(rows[1..]) || x == r;
      }
    }
  }

  lemma {:induction false} InsertLast(rows: seq<Row>, r: Row)
    requires forall x :: x in rows ==> KeyLess(x, r)
    ensures Insert(rows, r) == rows + [r]
  {
    if rows != [] {
      assert KeyLess(rows[0], r);
      InsertLast(rows[1..], r);
    }
  }

  lemma {:induction false} SortSorts(rows: seq<Row>)
    requires DistinctIds(rows)
    ensures InOrder(Sort(rows)) && multiset(Sort(rows)) == multiset(rows) && |Sort(rows)| == |rows|
    decreases |rows|
  {
    if rows != [] {
      var init, r := rows[..|rows| - 1], rows[|rows| - 1];
      assert rows == init + [r];
      SortSorts(init);
      InsertMultiset(Sort(init), r);
      forall x | x in Sort(init) ensures x.id != r.id {
        assert x in multiset(Sort(init));
        assert x in init;
      }
      InsertInOrder(Sort(init), r);
      assert |multiset(Sort(rows))| == |multiset(rows)|;
    }
  }

  lemma SameElements(rows: seq<Row>, x: Row)
    requires DistinctIds(rows)
    ensures x in Sort(rows) <==> x in rows
  {
    SortSorts(rows);
    assert x in multiset(Sort(rows)) <==> x in multiset(rows);
  }

  lemma {:induction false} SortInOrder(rows: seq<Row>)
    requires InOrder(rows)
    ensures Sort(rows) == rows
    decreases |rows|
  {
    if rows != [] {
      var init, r := rows[..|rows| - 1], rows[|rows| - 1];
      SortInOrder(init);
      InsertLast(init, r);
    }
  }

  // ----- WHERE tenant_id = $1, and the split on entry_hash -----

  function OfTenant(rows: seq<Row>, tenant: string): seq<Row> {
    if rows == [] then []
    else OfTenant(rows[..|rows| - 1], tenant) + (if rows[|rows| - 1].entry.tenantId == tenant then [rows[|rows| - 1]] else [])
  }

  function Chained(rows: seq<Row>): (chain: seq<Row>)
    ensures forall r :: r in chain ==> r.entryHash.Some?
  {
    if rows == [] then []
    else Chained(rows[..|rows| - 1]) + (if rows[|rows| - 1].entryHash.Some? then [rows[|rows| - 1]] else [])
  }

  function Min(a: nat, b: nat): nat { if a < b then a else b }

  const LIMIT := 50000

  /** The rows verifyChain reads. */
  function Query(table: seq<Row>, tenant: string): seq<Row> {
    var rows := Sort(OfTenant(table, tenant));
    rows[..Min(LIMIT, |rows|)]
  }

  /** The tenant's chained rows in the order in which they were committed. */
  function Committed(table: seq<Row>, tenant: string): seq<Row> {
    Chained(OfTenant(table, tenant))
  }

  /** The entry hash that `log` reads: the chained row with the greatest key. */
  function LastHash(chain: seq<Row>): string {
    var s := Sort(chain);
    if s == [] then GENESIS else OrGenesis(s[|s| - 1].entryHash)
  }

  function OrGenesis(hash: Option<string>): string {
    match hash case None => GENESIS case Some(x) => x
  }

  // ----- what a row says about its predecessor -----

  /** The text a row's hash is computed from. The results about chains hold for any
      such function that ends in the previous hash. */
  type Text = Row -> string

  function Input(r: Row): string { HashInput(r.entry, OrGenesis(r.prevHash)) }

  function Link(chain: seq<Row>, k: nat): string
    requires k < |chain|
  {
    if k == 0 then GENESIS else OrGenesis(chain[k - 1].entryHash)
  }

  predicate LinkOk(h: Hash, text: Text, chain: seq<Row>, k: nat)
    requires k < |chain|
  {
    chain[k].prevHash == Some(Link(chain, k)) && chain[k].entryHash == Some(h(text(chain[k])))
  }

  ghost predicate Accepts(h: Hash, text: Text, chain: seq<Row>) {
    forall k :: 0 <= k < |chain| ==> LinkOk(h, text, chain, k)
  }

  /** Cutting an accepted chain short leaves it accepted, so LIMIT does no harm. */
  lemma PrefixAccepted(h: Hash, text: Text, chain: seq<Row>, n: nat)
    requires Accepts(h, text, chain) && n <= |chain|
    ensures Accepts(h, text, chain[..n])
  {
    forall k | 0 <= k < n ensures LinkOk(h, text, chain[..n], k) { assert LinkOk(h, text, chain, k); }
  }

  // ----- tamper evidence -----

  /** Equal texts of rows with previous hashes of one length have equal previous hashes. */
  ghost predicate LinkInText(text: Text, x: Row, y: Row) {
    text(x) == text(y) && |OrGenesis(x.prevHash)| == |OrGenesis(y.prevHash)| ==>
      OrGenesis(x.prevHash) == OrGenesis(y.prevHash)
  }

  ghost predicate EndsInLink(text: Text) { forall x, y :: LinkInText(text, x, y) }

  /** What is assumed of SHA-256, on the texts of these rows only: 64 characters,
      never the genesis hash, no collision. */
  ghost predicate Sound(h: Hash, text: Text, rows: set<Row>) {
    && (forall x :: x in rows ==> |h(text(x))| == 64 && h(text(x)) != GENESIS)
    && (forall x, y :: x in rows && y in rows && h(text(x)) == h(text(y)) ==> text(x) == text(y))
  }

  function Elements(rows: seq<Row>): set<Row> { set r | r in rows }

  lemma LinkOf(h: Hash, text: Text, chain: seq<Row>, k: nat)
    requires Accepts(h, text, chain) && k < |chain| && Sound(h, text, Elements(chain))
    ensures |Link(chain, k)| == 64 && chain[k].prevHash == Some(Link(chain, k))
    ensures chain[k].entryHash == Some(h(text(chain[k])))
    ensures if k == 0 then Link(chain, k) == GENESIS else Link(chain, k) == h(text(chain[k - 1])) != GENESIS
  {
    assert LinkOk(h, text, chain, k);
    if k > 0 {
      assert LinkOk(h, text, chain, k - 1);
      assert chain[k - 1] in Elements(chain);
    }
  }

  /** If two accepted chains meet in one hash, they agree from there back to the
      start: at the same distance from it, and with the same text everywhere. */
  lemma {:induction false} SamePast(h: Hash, text: Text, a: seq<Row>, b: seq<Row>, i: nat, j: nat)
    requires Accepts(h, text, a) && Accepts(h, text, b) && Sound(h, text, Elements(a) + Elements(b)) && EndsInLink(text)
    requires i < |a| && j < |b| && h(text(a[i])) == h(text(b[j]))
    ensures i == j
    ensures forall k :: 0 <= k <= i ==> text(a[k]) == text(b[k])
    decreases i
  {
    assert a[i] in Elements(a) && b[j] in Elements(b);
    LinkOf(h, text, a, i);
    LinkOf(h, text, b, j);
    assert LinkInText(text, a[i], b[j]);
    if i > 0 && j > 0 {
      SamePast(h, text, a, b, i - 1, j - 1);
    }
  }

  // ----- which logs verifyChain accepts -----

  /** Every row was chained to the row with the greatest key at its commit. */
  ghost predicate Grown(h: Hash, text: Text, chain: seq<Row>) {
    forall m :: 0 <= m < |chain| ==> GrownAt(h, text, chain, m)
  }

  ghost predicate GrownAt(h: Hash, text: Text, chain: seq<Row>, m: nat)
    requires m < |chain|
  {
    chain[m].prevHash == Some(LastHash(chain[..m])) && chain[m].entryHash == Some(h(text(chain[m])))
  }

  /** If the keys increase in commit order, the sorted rows are the committed rows
      and verifyChain accepts them, whatever the hash function does. */
  lemma IncreasingAccepted(h: Hash, text: Text, chain: seq<Row>)
    requires Grown(h, text, chain) && InOrder(chain)
    ensures Sort(chain) == chain && Accepts(h, text, chain)
  {
    SortInOrder(chain);
    forall k | 0 <= k < |chain| ensures LinkOk(h, text, chain, k) {
      assert GrownAt(h, text, chain, k);
      SortInOrder(chain[..k]);
    }
  }

  lemma HashesDiffer(h: Hash, text: Text, s: seq<Row>, a: nat, b: nat)
    requires Accepts(h, text, s) && Sound(h, text, Elements(s)) && EndsInLink(text)
    requires a < |s| && b < |s| && h(text(s[a])) == h(text(s[b]))
    ensures a == b
  {
    assert Elements(s) + Elements(s) == Elements(s);
    SamePast(h, text, s, s, a, b);
  }

  /** The row that `log` read before committing row m. */
  lemma LatestOf(c: seq<Row>, m: nat) returns (z: Row)
    requires DistinctIds(c) && 0 < m <= |c|
    ensures z in c[..m] && LastHash(c[..m]) == OrGenesis(z.entryHash)
    ensures forall x :: x in c[..m] ==> x == z || KeyLess(x, z)
  {
    var e := Sort(c[..m]);
    SortSorts(c[..m]);
    z := e[m - 1];
    assert z in e;
    SameElements(c[..m], z);
    forall x | x in c[..m] ensures x == z || KeyLess(x, z) {
      SameElements(c[..m], x);
      var q :| 0 <= q < |e| && e[q] == x;
    }
  }

  /** If row i of an accepted chain was chained to row l, then l is i - 1. */
  lemma PreviousIs(h: Hash, text: Text, s: seq<Row>, i: nat, l: nat)
    requires Accepts(h, text, s) && Sound(h, text, Elements(s)) && EndsInLink(text)
    requires i < |s| && l < |s| && s[i].prevHash == Some(OrGenesis(s[l].entryHash))
    ensures l + 1 == i
  {
    LinkOf(h, text, s, i);
    LinkOf(h, text, s, l);
    assert s[l] in Elements(s);
    if i > 0 { HashesDiffer(h, text, s, l, i - 1); }
  }

  /** The i-th row of an accepted sorted chain is the i-th row committed: it was
      chained to row i - 1 as the latest one, so no later commit came before it. */
  lemma NextCommitted(h: Hash, text: Text, c: seq<Row>, s: seq<Row>, i: nat, m: nat)
    requires Grown(h, text, c) && DistinctIds(c) && s == Sort(c) && |s| == |c| && InOrder(s)
    requires Accepts(h, text, s) && Sound(h, text, Elements(s)) && EndsInLink(text)
    requires i < |s| && m < |c| && c[m] == s[i] && c[..i] == s[..i]
    ensures m <= i
  {
    if i < m {
      assert GrownAt(h, text, c, m);
      var z := LatestOf(c, m);
      var l := Position(c, z);
      PreviousIs(h, text, s, i, l);
      LatestIsLater(c, s, i, m, z, l);
    }
  }

  lemma LatestIsLater(c: seq<Row>, s: seq<Row>, i: nat, m: nat, z: Row, l: nat)
    requires DistinctIds(c) && s == Sort(c) && |s| == |c| && InOrder(s)
    requires i < m < |c| && c[..i] == s[..i] && l < |s| && s[l] == z
    requires forall x :: x in c[..m] ==> x == z || KeyLess(x, z)
    ensures l >= i
  {
    var p := Position(c, c[i]);
    AtOrAfter(c, s, i, p);
    assert c[i] == c[..m][i];
    NotBelow(s, l, p);
  }

  lemma NotBelow(s: seq<Row>, l: nat, p: nat)
    requires InOrder(s) && l < |s| && p < |s| && (s[p] == s[l] || KeyLess(s[p], s[l]))
    ensures p <= l
  {
  }

  lemma Position(c: seq<Row>, x: Row) returns (l: nat)
    requires DistinctIds(c) && x in c
    ensures |Sort(c)| == |c| && l < |c| && Sort(c)[l] == x
  {
    SortSorts(c);
    SameElements(c, x);
    l :| 0 <= l < |Sort(c)| && Sort(c)[l] == x;
  }

  /** A row that is not among the first i committed is not among the first i sorted. */
  lemma AtOrAfter(c: seq<Row>, s: seq<Row>, i: nat, p: nat)
    requires DistinctIds(c) && |s| == |c| && i < |c| && c[..i] == s[..i] && p < |s| && s[p] == c[i]
    ensures p >= i
  {
    if p < i { SamePrefixAt(c, s, i, p); }
  }

  lemma SamePrefixAt(c: seq<Row>, s: seq<Row>, i: nat, p: nat)
    requires |s| == |c| && p < i <= |c| && c[..i] == s[..i]
    ensures s[p] == c[p]
  {
    assert s[..i][p] == s[p] && c[..i][p] == c[p];
  }

  lemma PrefixGrows(s: seq<Row>, c: seq<Row>, n: nat)
    requires n < |s| == |c| && s[..n] == c[..n] && s[n] == c[n]
    ensures s[..n + 1] == c[..n + 1]
  {
    assert s[..n + 1] == s[..n] + [s[n]] && c[..n + 1] == c[..n] + [c[n]];
  }

  lemma {:induction false} AcceptedIsCommitOrder(h: Hash, text: Text, c: seq<Row>, n: nat)
    requires Grown(h, text, c) && DistinctIds(c) && EndsInLink(text)
    requires Accepts(h, text, Sort(c)) && Sound(h, text, Elements(Sort(c))) && n <= |c|
    ensures |Sort(c)| == |c| && Sort(c)[..n] == c[..n]
  {
    SortSorts(c);
    if n > 0 {
      AcceptedIsCommitOrder(h, text, c, n - 1);
      NextIsNext(h, text, c, Sort(c), n - 1);
      PrefixGrows(Sort(c), c, n - 1);
    }
  }

  /** The row that follows the rows already matched is the next one committed. */
  lemma NextIsNext(h: Hash, text: Text, c: seq<Row>, s: seq<Row>, n: nat)
    requires Grown(h, text, c) && DistinctIds(c) && EndsInLink(text) && s == Sort(c)
    requires Accepts(h, text, s) && Sound(h, text, Elements(s)) && n < |s| == |c| && s[..n] == c[..n]
    ensures s[n] == c[n]
  {
    SortSorts(c);
    SameElements(c, s[n]);
    var m :| 0 <= m < |c| && c[m] == s[n];
    NextCommitted(h, text, c, s, n, m);
    NotEarlier(c, s, n, m);
  }

  lemma NotEarlier(c: seq<Row>, s: seq<Row>, i: nat, m: nat)
    requires i < |s| == |c| && m < |c| && c[m] == s[i] && c[..i] == s[..i] && InOrder(s)
    ensures m >= i
  {
    if m < i {
      SamePrefixAt(c, s, i, m);
      assert false;
    }
  }

  lemma {:induction false} AcceptedIffInOrder(h: Hash, text: Text, c: seq<Row>)
    requires Grown(h, text, c) && DistinctIds(c) && EndsInLink(text) && Sound(h, text, Elements(Sort(c)))
    ensures Accepts(h, text, Sort(c)) <==> InOrder(c)
  {
    if Accepts(h, text, Sort(c)) {
      AcceptedIsCommitOrder(h, text, c, |c|);
      SortSorts(c);
      assert Sort(c)[..|c|] == Sort(c) && c[..|c|] == c;
    }
    if InOrder(c) { IncreasingAccepted(h, text, c); }
  }
}

/** The results of AuditChain for the text that computeEntryHash really hashes. */
module AuditTamper {
  import opened CanonicalJson
  import opened AuditEntry
  import opened AuditDecoding
  import opened AuditChain

  lemma Ends(a: string, b: string, p: string)
    requires |b| >= |p| && b[|b| - |p|..] == p
    ensures |a + b| >= |p| && (a + b)[|a + b| - |p|..] == p
  {
    assert (a + b)[|a + b| - |p|..] == b[|b| - |p|..];
  }

  lemma PipedEnds(a: string, b: string, p: string)
    requires |b| >= |p| && b[|b| - |p|..] == p
    ensures |a + ("|" + b)| >= |p| && (a + ("|" + b))[|a + ("|" + b)| - |p|..] == p
  {
    Ends("|", b, p);
    Ends(a, "|" + b, p);
  }

  lemma MetadataAndLinkEnds(e: Entry, p: string)
    ensures var s := MetadataAndLink(e, p); |s| >= |p| && s[|s| - |p|..] == p
  {
    PipedEnds(ToIso(e.createdAt), p, p);
    PipedEnds(CanonicalJsonStringify(e.metadata), ToIso(e.createdAt) + ("|" + p), p);
  }

  lemma FieldsEnd(a: string, b: string, c: string, d: string, e: string, s: string, p: string)
    requires |s| >= |p| && s[|s| - |p|..] == p
    ensures var t := a + ("|" + (b + ("|" + (c + ("|" + (d + ("|" + (e + ("|" + s)))))))));
            |t| >= |p| && t[|t| - |p|..] == p
  {
    PipedEnds(e, s, p);
    PipedEnds(d, e + ("|" + s), p);
    PipedEnds(c, d + ("|" + (e + ("|" + s))), p);
    PipedEnds(b, c + ("|" + (d + ("|" + (e + ("|" + s))))), p);
    PipedEnds(a, b + ("|" + (c + ("|" + (d + ("|" + (e + ("|" + s))))))), p);
  }

  lemma InputEnds(r: Row)
    ensures var p := OrGenesis(r.prevHash); |Input(r)| >= |p| && Input(r)[|Input(r)| - |p|..] == p
  {
    var e, p := r.entry, OrGenesis(r.prevHash);
    MetadataAndLinkEnds(e, p);
    FieldsEnd(e.tenantId, OrEmpty(e.userId), e.action, OrEmpty(e.entityType), OrEmpty(e.entityId), MetadataAndLink(e, p), p);
  }

  /** The hashed text ends in the previous hash. */
  lemma InputEndsInLink()
    ensures EndsInLink(Input)
  {
    forall x, y ensures LinkInText(Input, x, y) {
      InputEnds(x);
      InputEnds(y);
    }
  }

  /** Tamper evidence: two row lists that verifyChain accepts and that end in the
      same entry hash have the same length and, position by position, the same
      content and the same hashes, if one of them is without bars in its fields. */
  lemma TamperEvidence(h: Hash, a: seq<Row>, b: seq<Row>)
    requires Accepts(h, Input, a) && Accepts(h, Input, b) && Sound(h, Input, Elements(a) + Elements(b))
    requires a != [] && b != [] && a[|a| - 1].entryHash == b[|b| - 1].entryHash
    requires forall r :: r in a || r in b ==> MetadataOk(r.entry)
    requires forall r :: r in a ==> PipeFree(r.entry)
    ensures |a| == |b|
    ensures forall k :: 0 <= k < |a| ==>
              && SameContent(a[k].entry, b[k].entry)
              && a[k].prevHash == b[k].prevHash && a[k].entryHash == b[k].entryHash
  {
    InputEndsInLink();
    SameEverywhere(h, Input, a, b);
    forall k | 0 <= k < |a|
      ensures SameContent(a[k].entry, b[k].entry)
      ensures a[k].prevHash == b[k].prevHash && a[k].entryHash == b[k].entryHash
    {
      SameRow(h, a, b, k);
    }
  }

  lemma SameRow(h: Hash, a: seq<Row>, b: seq<Row>, k: nat)
    requires Accepts(h, Input, a) && Accepts(h, Input, b) && EndsInLink(Input)
    requires Sound(h, Input, Elements(a)) && Sound(h, Input, Elements(b))
    requires k < |a| && k < |b| && Input(a[k]) == Input(b[k])
    requires PipeFree(a[k].entry) && MetadataOk(a[k].entry) && MetadataOk(b[k].entry)
    ensures SameContent(a[k].entry, b[k].entry)
    ensures a[k].prevHash == b[k].prevHash && a[k].entryHash == b[k].entryHash
  {
    LinkOf(h, Input, a, k);
    LinkOf(h, Input, b, k);
    assert LinkInText(Input, a[k], b[k]);
    OnlyPipeFree(a[k].entry, b[k].entry, Link(a, k), Link(b, k));
    InputDeterminesContent(a[k].entry, b[k].entry, Link(a, k), Link(b, k));
  }

  lemma SameEverywhere(h: Hash, text: Text, a: seq<Row>, b: seq<Row>)
    requires Accepts(h, text, a) && Accepts(h, text, b) && Sound(h, text, Elements(a) + Elements(b)) && EndsInLink(text)
    requires a != [] && b != [] && a[|a| - 1].entryHash == b[|b| - 1].entryHash
    ensures |a| == |b| && forall k :: 0 <= k < |a| ==> text(a[k]) == text(b[k])
  {
    assert LinkOk(h, text, a, |a| - 1) && LinkOk(h, text, b, |b| - 1);
    SamePast(h, text, a, b, |a| - 1, |b| - 1);
  }

  /** A genuine log is accepted exactly when the tenant's keys increased in commit
      order: one equal timestamp with a smaller id, or a clock that stepped back, is
      enough for it to be rejected. */
  lemma GenuineLogAccepted(h: Hash, c: seq<Row>)
    requires Grown(h, Input, c) && DistinctIds(c) && Sound(h, Input, Elements(Sort(c)))
    ensures Accepts(h, Input, Sort(c)) <==> InOrder(c)
  {
    InputEndsInLink();
    AcceptedIffInOrder(h, Input, c);
  }
}
