/** The audit service over one table: `log` run from start to end, and the loop of
    verifyChain. */
module AuditService {
  import opened Wrappers
  import opened CanonicalJson
  import opened AuditEntry
  import opened AuditChain
  import opened AuditQuery
  import opened AuditProtocol

  /** The row keeps what the caller gave, its metadata as stored, and the hash of what was
      given and of the previous hash. */
  predicate Recorded(h: Hash, r: Row, p: Params, id: nat, now: Instant, stored: Option<Json>) {
    && r.id == id && r.entry.createdAt == now && r.entry.metadata == stored
    && r.entry.tenantId == p.tenantId && r.entry.userId == p.userId && r.entry.action == p.action
    && r.entry.entityType == p.entityType && r.entry.entityId == p.entityId
    && r.prevHash.Some? && r.entryHash == Some(h(HashInput(r.entry.(metadata := p.metadata), r.prevHash.value)))
  }

  class AuditLog {
    const cfg: Config
    var table: seq<Row>
    ghost const legacy: seq<Row>
    ghost var run: seq<Label>
    ghost var machine: State

    /** The table is the table of AuditProtocol after the run so far. */
    ghost predicate Valid()
      reads this
    {
      Legacy(legacy) && table == machine.table && machine == Exec(cfg, State(legacy, []), run)
    }

    constructor (cfg: Config, rows: seq<Row>)
      requires Legacy(rows)
      ensures Valid() && table == rows && this.cfg == cfg
    {
      this.cfg, table := cfg, rows;
      legacy, run, machine := rows, [], State(rows, []);
    }

    ghost method Move(l: Label)
      requires machine == Exec(cfg, State(legacy, []), run)
      modifies this`run, this`machine
      ensures machine == Exec(cfg, State(legacy, []), run) && run == old(run) + [l]
      ensures machine == Next(cfg, old(machine), l)
    {
      assert (run + [l])[..|run|] == run;
      run, machine := run + [l], Next(cfg, machine, l);
    }

    /** `works` tells of each statement (lock, read, insert, commit) whether it
        succeeds; an error rolls back and is not reported to the caller. */
    method Log(params: Params, id: nat, now: Instant, stored: Option<Json>, works: (bool, bool, bool, bool))
      requires Valid() && LockFree(cfg, machine, params.tenantId) && Stores(params.metadata, stored)
      modifies this
      ensures Valid() && old(run) <= run
      ensures machine.txs == old(machine).txs + [Tx(params, Ended)]
      ensures table == Logged(old(table), params, id, now, stored, works == (true, true, true, true))
      ensures works == (true, true, true, true) && FreshId(old(table), id) ==>
                |table| == |old(table)| + 1 && Recorded(cfg.h, table[|table| - 1], params, id, now, stored)
    {
      ghost var t := |machine.txs|;
      Move(Begin(params));
      if works.0 {
        Move(Acquire(t));
        ReadAndWrite(t, params, id, now, stored, (works.1, works.2, works.3));
      } else {
        Move(Rollback(t));
      }
    }

    /** The table after a call: the new row is chained to the tenant's latest one. */
    ghost function Logged(rows: seq<Row>, p: Params, id: nat, now: Instant, stored: Option<Json>, works: bool): seq<Row> {
      if works && FreshId(rows, id)
      then rows + [NewRow(cfg.h, p, LastHash(Committed(rows, p.tenantId)), id, now, stored)]
      else rows
    }

    method ReadAndWrite(ghost t: nat, params: Params, id: nat, now: Instant, stored: Option<Json>, works: (bool, bool, bool))
      requires Valid() && t < |machine.txs| && machine.txs[t] == Tx(params, Locked) && Stores(params.metadata, stored)
      modifies this
      ensures Valid() && old(run) <= run
      ensures machine.txs == old(machine).txs[t := Tx(params, Ended)]
      ensures table == Logged(old(table), params, id, now, stored, works == (true, true, true))
    {
      if works.0 {
        var prevHash := LastHash(Committed(table, params.tenantId));
        Move(ReadLast(t));
        Write(t, params, prevHash, id, now, stored, (works.1, works.2));
      } else {
        Move(Rollback(t));
      }
    }

    method Write(ghost t: nat, params: Params, prevHash: string, id: nat, now: Instant, stored: Option<Json>, works: (bool, bool))
      requires Valid() && t < |machine.txs| && machine.txs[t] == Tx(params, HavePrev(prevHash))
      requires Stores(params.metadata, stored)
      modifies this
      ensures Valid() && old(run) <= run
      ensures machine.txs == old(machine).txs[t := Tx(params, Ended)]
      ensures table == if works == (true, true) && FreshId(old(table), id)
                       then old(table) + [NewRow(cfg.h, params, prevHash, id, now, stored)] else old(table)
    {
      if works.0 {
        var entryHash := cfg.h(HashInput(EntryOf(params, params.metadata, now), prevHash));
        var row := Row(id, EntryOf(params, stored, now), Some(prevHash), Some(entryHash));
        Move(InsertRow(t, id, now, stored));
        if works.1 && forall r :: r in table ==> r.id != id {
          table := table + [row];
          Move(Commit(t));
          return;
        }
      }
      Move(Rollback(t));
    }

    /** Accepts exactly the chains of AuditChain; a rejection names the time of the
        first row that does not continue the chain or does not match its hash. */
    method VerifyChain(tenant: string)
      returns (valid: bool, chainedEntries: nat, unchainedEntries: nat, brokenAt: Option<string>)
      ensures var chain := Chained(Query(table, tenant));
              && chainedEntries == |chain| && chainedEntries + unchainedEntries == |Query(table, tenant)|
              && (|Mine(table, tenant)| <= 50000 ==>
                    chainedEntries == |MineWithHash(table, tenant)| && unchainedEntries == |MineWithoutHash(table, tenant)|)
              && (valid <==> Accepts(cfg.h, Input, chain))
              && (valid ==> brokenAt.None?)
              && (!valid ==> exists k: nat ::
                    FirstViolation(cfg.h, chain, k) && brokenAt == Some(ToIso(chain[k].entry.createdAt)))
    {
      var entries := Query(table, tenant);
      var chain := Chained(entries);
      ChainedLength(entries);
      if |Mine(table, tenant)| <= 50000 { QueryCounts(table, tenant); }
      chainedEntries, unchainedEntries := |chain|, |entries| - |chain|;
      valid, brokenAt := true, None;
      var expectedPrevHash := GENESIS;
      var n := 0;
      while n < |chain|
        invariant n <= |chain| && valid && brokenAt.None?
        invariant n < |chain| ==> expectedPrevHash == Link(chain, n)
        invariant forall i: nat :: i < n ==> LinkOk(cfg.h, Input, chain, i)
      {
        var entry := chain[n];
        var expectedHash := cfg.h(HashInput(entry.entry, OrGenesis(entry.prevHash)));
        if entry.prevHash != Some(expectedPrevHash) || entry.entryHash != Some(expectedHash) {
          valid, brokenAt := false, Some(ToIso(entry.entry.createdAt));
          assert FirstViolation(cfg.h, chain, n);
          return;
        }
        expectedPrevHash := OrGenesis(entry.entryHash);
        n := n + 1;
      }
    }
  }

  ghost predicate FirstViolation(h: Hash, chain: seq<Row>, k: nat) {
    && k < |chain| && !LinkOk(h, Input, chain, k)
    && forall i: nat :: i < k ==> LinkOk(h, Input, chain, i)
  }

  lemma {:induction false} ChainedLength(rows: seq<Row>)
    ensures |Chained(rows)| <= |rows|
    decreases |rows|
  {
    if rows != [] { ChainedLength(rows[..|rows| - 1]); }
  }
}
