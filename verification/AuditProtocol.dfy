/** Concurrent audit writes. Each call of `log` is a transaction of four
    statements (advisory lock, read the last hash, insert, commit) that may roll
    back anywhere; transactions of all tenants interleave between statements. */
module AuditProtocol {
  import opened Wrappers
  import opened CanonicalJson
  import opened AuditEntry
  import opened AuditChain
  import opened AuditTamper
  import opened AuditQuery

  /** `lockKey` is hashtext: two tenants may share a key and then wait for each other. */
  datatype Config = Config(h: Hash, lockKey: string -> int)

  datatype Params = Params(
    tenantId: string,
    userId: Option<string>,
    action: string,
    entityType: Option<string>,
    entityId: Option<string>,
    metadata: Option<Json>
  )

  datatype Pc = Start | Locked | HavePrev(prev: string) | Inserted(row: Row) | Ended

  datatype Tx = Tx(params: Params, pc: Pc) {
    /** The advisory lock is held until the transaction ends. */
    predicate Holds() { pc.Locked? || pc.HavePrev? || pc.Inserted? }
  }

  /** The committed rows in commit order, and the transactions ever started. */
  datatype State = State(table: seq<Row>, txs: seq<Tx>)

  datatype Label =
    | Begin(params: Params)
    | Acquire(t: nat)
    | ReadLast(t: nat)
    | InsertRow(t: nat, id: nat, now: Instant, stored: Option<Json>)
    | Commit(t: nat)
    | Rollback(t: nat)

  function EntryOf(p: Params, metadata: Option<Json>, now: Instant): Entry {
    Entry(p.tenantId, p.userId, p.action, p.entityType, p.entityId, metadata, now)
  }

  /** JSONB keeps the tree but not the order of the members. */
  ghost predicate Stores(given: Option<Json>, stored: Option<Json>) {
    && WellFormed(OrEmptyObject(given)) && WellFormed(OrEmptyObject(stored))
    && Meaning(OrEmptyObject(given)) == Meaning(OrEmptyObject(stored))
  }

  /** The hash is computed from the metadata as given, the row holds it as stored. */
  function NewRow(h: Hash, p: Params, prev: string, id: nat, now: Instant, stored: Option<Json>): Row {
    Row(id, EntryOf(p, stored, now), Some(prev), Some(h(HashInput(EntryOf(p, p.metadata, now), prev))))
  }

  ghost predicate LockFree(cfg: Config, s: State, tenant: string) {
    forall u :: 0 <= u < |s.txs| && s.txs[u].Holds() ==> cfg.lockKey(s.txs[u].params.tenantId) != cfg.lockKey(tenant)
  }

  ghost predicate FreshId(table: seq<Row>, id: nat) { forall r :: r in table ==> r.id != id }

  ghost predicate Enabled(cfg: Config, s: State, l: Label) {
    match l
    case Begin(_) => true
    case Acquire(t) => t < |s.txs| && s.txs[t].pc.Start? && LockFree(cfg, s, s.txs[t].params.tenantId)
    case ReadLast(t) => t < |s.txs| && s.txs[t].pc.Locked?
    case InsertRow(t, id, _, stored) =>
      t < |s.txs| && s.txs[t].pc.HavePrev? && Stores(s.txs[t].params.metadata, stored)
    case Commit(t) => t < |s.txs| && s.txs[t].pc.Inserted? && FreshId(s.table, s.txs[t].pc.row.id)
    case Rollback(t) => t < |s.txs|
  }

  function SetPc(s: State, t: nat, pc: Pc): State
    requires t < |s.txs|
  {
    s.(txs := s.txs[t := s.txs[t].(pc := pc)])
  }

  /** A label that is not enabled leaves the state alone; in particular a commit
      whose id is taken never succeeds. */
  ghost function Next(cfg: Config, s: State, l: Label): State {
    if !Enabled(cfg, s, l) then s else
    match l
    case Begin(p) => s.(txs := s.txs + [Tx(p, Start)])
    case Acquire(t) => SetPc(s, t, Locked)
    case ReadLast(t) => SetPc(s, t, HavePrev(LastHash(Committed(s.table, s.txs[t].params.tenantId))))
    case InsertRow(t, id, now, stored) =>
      SetPc(s, t, Inserted(NewRow(cfg.h, s.txs[t].params, s.txs[t].pc.prev, id, now, stored)))
    case Commit(t) => SetPc(s, t, Ended).(table := s.table + [s.txs[t].pc.row])
    case Rollback(t) => SetPc(s, t, Ended)
  }

  ghost function Exec(cfg: Config, s: State, run: seq<Label>): State
    decreases |run|
  {
    if run == [] then s else Next(cfg, Exec(cfg, s, run[..|run| - 1]), run[|run| - 1])
  }

  /** Only rows from before the chain was introduced. */
  ghost predicate Legacy(table: seq<Row>) {
    DistinctIds(table) && forall r :: r in table ==> r.entryHash.None?
  }

  // ----- the invariant -----

  ghost predicate TxOk(cfg: Config, table: seq<Row>, tx: Tx) {
    match tx.pc
    case HavePrev(prev) => prev == LastHash(Committed(table, tx.params.tenantId))
    case Inserted(row) =>
      && row.entry.tenantId == tx.params.tenantId
      && row.prevHash == Some(LastHash(Committed(table, tx.params.tenantId)))
      && row.entryHash == Some(cfg.h(Input(row)))
    case _ => true
  }

  ghost predicate Exclusive(cfg: Config, txs: seq<Tx>) {
    forall t, u :: 0 <= t < u < |txs| && txs[t].Holds() && txs[u].Holds() ==>
      cfg.lockKey(txs[t].params.tenantId) != cfg.lockKey(txs[u].params.tenantId)
  }

  ghost predicate Inv(cfg: Config, s: State) {
    && DistinctIds(s.table)
    && (forall tenant :: Grown(cfg.h, Input, Committed(s.table, tenant)))
    && Exclusive(cfg, s.txs)
    && forall t :: 0 <= t < |s.txs| ==> TxOk(cfg, s.table, s.txs[t])
  }

  lemma NoneChained(rows: seq<Row>)
    requires forall r :: r in rows ==> r.entryHash.None?
    ensures Chained(rows) == []
  {
  }

  lemma OfTenantSubset(rows: seq<Row>, tenant: string)
    ensures forall r :: r in OfTenant(rows, tenant) ==> r in rows
  {
  }

  lemma LegacyInv(cfg: Config, table: seq<Row>)
    requires Legacy(table)
    ensures Inv(cfg, State(table, []))
  {
    forall tenant ensures Grown(cfg.h, Input, Committed(table, tenant)) {
      OfTenantSubset(table, tenant);
      NoneChained(OfTenant(table, tenant));
    }
  }

  lemma CommittedSnoc(table: seq<Row>, r: Row, tenant: string)
    requires r.entryHash.Some?
    ensures Committed(table + [r], tenant)
         == if r.entry.tenantId == tenant then Committed(table, tenant) + [r] else Committed(table, tenant)
  {
    assert (table + [r])[..|table|] == table;
    var mine := OfTenant(table, tenant);
    if r.entry.tenantId == tenant {
      assert (mine + [r])[..|mine|] == mine;
    } else {
      assert mine + [] == mine;
    }
  }

  lemma GrownSnoc(h: Hash, text: Text, chain: seq<Row>, r: Row)
    requires Grown(h, text, chain)
    requires r.prevHash == Some(LastHash(chain)) && r.entryHash == Some(h(text(r)))
    ensures Grown(h, text, chain + [r])
  {
    forall m | 0 <= m < |chain| + 1 ensures GrownAt(h, text, chain + [r], m) {
      if m < |chain| {
        assert GrownAt(h, text, chain, m);
        assert (chain + [r])[..m] == chain[..m];
      } else {
        assert (chain + [r])[..m] == chain;
      }
    }
  }

  lemma GrownAfterCommit(h: Hash, text: Text, table: seq<Row>, row: Row, tenant: string)
    requires Grown(h, text, Committed(table, tenant))
    requires row.prevHash == Some(LastHash(Committed(table, row.entry.tenantId))) && row.entryHash == Some(h(text(row)))
    ensures Grown(h, text, Committed(table + [row], tenant))
  {
    CommittedSnoc(table, row, tenant);
    if row.entry.tenantId == tenant { GrownSnoc(h, text, Committed(table, tenant), row); }
  }

  lemma OtherTxAfterCommit(cfg: Config, table: seq<Row>, row: Row, tx: Tx)
    requires TxOk(cfg, table, tx) && row.entryHash.Some? && tx.params.tenantId != row.entry.tenantId
    ensures TxOk(cfg, table + [row], tx)
  {
    CommittedSnoc(table, row, tx.params.tenantId);
  }

  lemma CommitKeepsInv(cfg: Config, s: State, t: nat)
    requires Inv(cfg, s) && Enabled(cfg, s, Commit(t))
    ensures Inv(cfg, Next(cfg, s, Commit(t)))
  {
    var row := s.txs[t].pc.row;
    var s' := SetPc(s, t, Ended).(table := s.table + [row]);
    assert TxOk(cfg, s.table, s.txs[t]);
    forall tenant ensures Grown(cfg.h, Input, Committed(s'.table, tenant)) {
      assert Grown(cfg.h, Input, Committed(s.table, tenant));
      GrownAfterCommit(cfg.h, Input, s.table, row, tenant);
    }
    TxsAfterCommit(cfg, s, t);
  }

  lemma TxsAfterCommit(cfg: Config, s: State, t: nat)
    requires t < |s.txs| && s.txs[t].pc.Inserted? && s.txs[t].pc.row.entryHash.Some?
    requires s.txs[t].pc.row.entry.tenantId == s.txs[t].params.tenantId
    requires Exclusive(cfg, s.txs) && forall u :: 0 <= u < |s.txs| ==> TxOk(cfg, s.table, s.txs[u])
    ensures var txs := SetPc(s, t, Ended).txs;
            Exclusive(cfg, txs) && forall u :: 0 <= u < |txs| ==> TxOk(cfg, s.table + [s.txs[t].pc.row], txs[u])
  {
    var txs := SetPc(s, t, Ended).txs;
    forall u | 0 <= u < |txs| ensures TxOk(cfg, s.table + [s.txs[t].pc.row], txs[u]) {
      if u != t && s.txs[u].Holds() {
        assert TxOk(cfg, s.table, s.txs[u]);
        OtherTxAfterCommit(cfg, s.table, s.txs[t].pc.row, s.txs[u]);
      }
    }
  }

  /** The text hashed at insertion is the text recomputed from the stored row. */
  lemma StoredHashesAlike(h: Hash, p: Params, prev: string, id: nat, now: Instant, stored: Option<Json>)
    requires Stores(p.metadata, stored)
    ensures NewRow(h, p, prev, id, now, stored).entryHash == Some(h(Input(NewRow(h, p, prev, id, now, stored))))
  {
    CanonicalText(p.metadata, stored);
  }

  lemma InsertKeepsInv(cfg: Config, s: State, l: Label)
    requires Inv(cfg, s) && l.InsertRow? && Enabled(cfg, s, l)
    ensures Inv(cfg, Next(cfg, s, l))
  {
    var tx := s.txs[l.t];
    assert TxOk(cfg, s.table, tx);
    StoredHashesAlike(cfg.h, tx.params, tx.pc.prev, l.id, l.now, l.stored);
    var row := NewRow(cfg.h, tx.params, tx.pc.prev, l.id, l.now, l.stored);
    assert TxOk(cfg, s.table, tx.(pc := Inserted(row)));
  }

  lemma StepKeepsInv(cfg: Config, s: State, l: Label)
    requires Inv(cfg, s)
    ensures Inv(cfg, Next(cfg, s, l))
  {
    if Enabled(cfg, s, l) {
      match l
      case Begin(p) =>
      case Acquire(t) =>
      case ReadLast(t) =>
      case InsertRow(t, id, now, stored) => InsertKeepsInv(cfg, s, l);
      case Commit(t) => CommitKeepsInv(cfg, s, t);
      case Rollback(t) =>
    }
  }

  lemma {:induction false} Reachable(cfg: Config, table: seq<Row>, run: seq<Label>)
    requires Legacy(table)
    ensures Inv(cfg, Exec(cfg, State(table, []), run))
    decreases |run|
  {
    if run == [] {
      LegacyInv(cfg, table);
    } else {
      Reachable(cfg, table, run[..|run| - 1]);
      StepKeepsInv(cfg, Exec(cfg, State(table, []), run[..|run| - 1]), run[|run| - 1]);
    }
  }

  // ----- what verifyChain sees of the table -----

  lemma {:induction false} ChainedAppend(a: seq<Row>, b: seq<Row>)
    ensures Chained(a + b) == Chained(a) + Chained(b)
    decreases |b|
  {
    if b == [] {
      assert a + b == a;
    } else {
      ChainedAppend(a, b[..|b| - 1]);
      assert (a + b)[..|a + b| - 1] == a + b[..|b| - 1];
    }
  }

  lemma {:induction false} ChainedFirst(rows: seq<Row>)
    ensures forall r :: r in Chained(rows) ==> r in rows
    decreases |rows|
  {
    if rows != [] { ChainedFirst(rows[..|rows| - 1]); }
  }

  lemma KeyTransitive(a: Row, b: Row, c: Row)
    requires KeyLess(a, b) && KeyLess(b, c)
    ensures KeyLess(a, c)
  {
  }

  /** A row below all of `rows` goes in front. */
  lemma InsertFirst(rows: seq<Row>, r: Row)
    requires rows != [] && InOrder(rows) && KeyLess(r, rows[0])
    ensures Insert(Chained(rows), r) == [r] + Chained(rows)
  {
    ChainedFirst(rows);
    if Chained(rows) != [] {
      var x := Chained(rows)[0];
      assert x in Chained(rows);
      var i :| 0 <= i < |rows| && rows[i] == x;
      if i > 0 { KeyTransitive(r, rows[0], x); }
    }
  }

  lemma {:induction false} ChainedInsert(rows: seq<Row>, r: Row)
    requires InOrder(rows)
    ensures Chained(Insert(rows, r)) == if r.entryHash.Some? then Insert(Chained(rows), r) else Chained(rows)
  {
    if rows == [] {
      ChainedCons(r, rows);
    } else if KeyLess(r, rows[0]) {
      ChainedCons(r, rows);
      InsertFirst(rows, r);
    } else {
      ChainedInsert(rows[1..], r);
      ChainedCons(rows[0], Insert(rows[1..], r));
      ChainedCons(rows[0], rows[1..]);
      assert rows == [rows[0]] + rows[1..];
      if rows[0].entryHash.Some? { InsertAfter(rows[0], Chained(rows[1..]), r); }
    }
  }

  lemma InsertAfter(first: Row, rest: seq<Row>, r: Row)
    requires !KeyLess(r, first)
    ensures Insert([first] + rest, r) == [first] + Insert(rest, r)
  {
    assert ([first] + rest)[1..] == rest;
  }

  lemma {:induction false} ChainedSort(rows: seq<Row>)
    requires DistinctIds(rows)
    ensures Chained(Sort(rows)) == Sort(Chained(rows))
    decreases |rows|
  {
    if rows != [] {
      var init, r := rows[..|rows| - 1], rows[|rows| - 1];
      ChainedSort(init);
      SortSorts(init);
      ChainedInsert(Sort(init), r);
      if r.entryHash.Some? {
        assert (Chained(init) + [r])[..|Chained(init)|] == Chained(init);
      } else {
        assert Chained(init) + [] == Chained(init);
      }
    }
  }

  lemma {:induction false} ChainedDistinct(rows: seq<Row>)
    requires DistinctIds(rows)
    ensures DistinctIds(Chained(rows))
    decreases |rows|
  {
    if rows != [] {
      var init, r := rows[..|rows| - 1], rows[|rows| - 1];
      ChainedDistinct(init);
      ChainedFirst(init);
      assert forall x :: x in init ==> x.id != r.id;
    }
  }

  lemma QueryPrefix(table: seq<Row>, tenant: string)
    requires DistinctIds(table)
    ensures Chained(Query(table, tenant)) <= Sort(Committed(table, tenant))
    ensures |OfTenant(table, tenant)| <= LIMIT ==> Chained(Query(table, tenant)) == Sort(Committed(table, tenant))
    ensures DistinctIds(Committed(table, tenant))
  {
    var mine := OfTenant(table, tenant);
    DistinctMine(table, tenant);
    ChainedDistinct(mine);
    ChainedSort(mine);
    SortSorts(mine);
    var q := Query(table, tenant);
    ChainedAppend(q, Sort(mine)[|q|..]);
    assert Sort(mine) == q + Sort(mine)[|q|..];
    if |mine| <= LIMIT { assert q == Sort(mine); }
  }

  /** In every interleaving of the tenants' transactions, roll-backs included, each
      committed row continues the chain from the latest row of its tenant. If the
      tenant's (created_at, id) keys increased in commit order, verifyChain accepts
      what it reads, whether or not LIMIT cuts it short and whatever old unchained
      rows lie between; and if nothing is cut and SHA-256 is sound on these rows it
      accepts exactly then. */
  lemma LogIsVerifiable(cfg: Config, old_rows: seq<Row>, run: seq<Label>, tenant: string)
    requires Legacy(old_rows)
    ensures var table := Exec(cfg, State(old_rows, []), run).table;
            var mine := Committed(table, tenant);
            && Grown(cfg.h, Input, mine)
            && (InOrder(mine) ==> Accepts(cfg.h, Input, Chained(Query(table, tenant))))
            && (|OfTenant(table, tenant)| <= LIMIT && Sound(cfg.h, Input, Elements(Sort(mine))) ==>
                  (Accepts(cfg.h, Input, Chained(Query(table, tenant))) <==> InOrder(mine)))
  {
    Reachable(cfg, old_rows, run);
    var table := Exec(cfg, State(old_rows, []), run).table;
    var mine := Committed(table, tenant);
    assert Grown(cfg.h, Input, mine);
    QueryPrefix(table, tenant);
    if InOrder(mine) {
      IncreasingAccepted(cfg.h, Input, mine);
      PrefixAccepted(cfg.h, Input, mine, |Chained(Query(table, tenant))|);
      assert Chained(Query(table, tenant)) == mine[..|Chained(Query(table, tenant))|];
    }
    if Sound(cfg.h, Input, Elements(Sort(mine))) { GenuineLogAccepted(cfg.h, mine); }
  }
}
