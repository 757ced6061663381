/** Which rows verifyChain reads and counts, said of the table itself. */
module AuditQuery {
  import opened AuditChain
  import opened Selections

  predicate IsOf(tenant: string, r: Row) { r.entry.tenantId == tenant }

  predicate IsChained(r: Row) { r.entryHash.Some? }

  /** The positions of the tenant's rows in the table, of those with a hash, and of those
      without. */
  function Mine(table: seq<Row>, tenant: string): set<nat> { set i: nat | i < |table| && IsOf(tenant, table[i]) }

  function MineWithHash(table: seq<Row>, tenant: string): set<nat> {
    set i: nat | i < |table| && IsOf(tenant, table[i]) && IsChained(table[i])
  }

  function MineWithoutHash(table: seq<Row>, tenant: string): set<nat> {
    set i: nat | i < |table| && IsOf(tenant, table[i]) && !IsChained(table[i])
  }

  lemma {:induction false} OfTenantSelects(rows: seq<Row>, tenant: string)
    ensures Selects(rows, OfTenant(rows, tenant), r => IsOf(tenant, r))
    decreases |rows|
  {
    if rows == [] {
      SelectsNone((r: Row) => IsOf(tenant, r));
    } else {
      var init, x := rows[..|rows| - 1], rows[|rows| - 1];
      OfTenantSelects(init, tenant);
      SelectsSnoc(init, OfTenant(init, tenant), r => IsOf(tenant, r), x);
      assert rows == init + [x] && OfTenant(init, tenant) + [] == OfTenant(init, tenant);
    }
  }

  lemma {:induction false} ChainedSelects(rows: seq<Row>, p: Row -> bool)
    requires forall r :: p(r) == IsChained(r)
    ensures Selects(rows, Chained(rows), p)
    decreases |rows|
  {
    if rows == [] {
      SelectsNone(p);
    } else {
      var init, x := rows[..|rows| - 1], rows[|rows| - 1];
      ChainedSelects(init, p);
      SelectsNext(init, Chained(init), p, x, rows, Chained(rows));
    }
  }

  lemma {:induction false} SortMultiset(rows: seq<Row>)
    ensures multiset(Sort(rows)) == multiset(rows) && |Sort(rows)| == |rows|
    decreases |rows|
  {
    if rows != [] {
      var init, r := rows[..|rows| - 1], rows[|rows| - 1];
      assert rows == init + [r];
      SortMultiset(init);
      InsertMultiset(Sort(init), r);
      assert |multiset(Sort(rows))| == |multiset(rows)|;
    }
  }

  // ----- the query -----

  /** With at most 50000 rows of the tenant's the query returns each of them as often as
      the table holds it, and nothing else. Beyond, it returns the 50000 with the least
      keys. */
  lemma QueryReads(table: seq<Row>, tenant: string)
    ensures |Query(table, tenant)| == if |Mine(table, tenant)| <= 50000 then |Mine(table, tenant)| else 50000
    ensures |Mine(table, tenant)| <= 50000 ==>
              forall r :: multiset(Query(table, tenant))[r] == if r.entry.tenantId == tenant then multiset(table)[r] else 0
    ensures forall q :: q in Query(table, tenant) ==> q in table && q.entry.tenantId == tenant
  {
    var mine := OfTenant(table, tenant);
    var q := Query(table, tenant);
    OfTenantSelects(table, tenant);
    SelectionCounts(table, mine, r => IsOf(tenant, r));
    assert Positions(table, r => IsOf(tenant, r)) == Mine(table, tenant);
    SortMultiset(mine);
    if |mine| <= 50000 { assert q == Sort(mine); }
    forall r | r in q ensures r in table && r.entry.tenantId == tenant {
      assert r in Sort(mine) && r in multiset(Sort(mine)) && r in multiset(mine);
      assert multiset(mine)[r] > 0;
      assert r in multiset(table);
    }
  }

  /** The rows come in the order of their keys, and every row of the tenant's that is
      left out comes after every row that is read. */
  lemma QueryReadsTheFirst(table: seq<Row>, tenant: string)
    requires DistinctIds(table)
    ensures InOrder(Query(table, tenant))
    ensures forall q, r :: q in Query(table, tenant) && r in table && r.entry.tenantId == tenant && r !in Query(table, tenant) ==>
              KeyLess(q, r)
  {
    var mine := OfTenant(table, tenant);
    OfTenantSelects(table, tenant);
    SelectionCounts(table, mine, r => IsOf(tenant, r));
    DistinctMine(table, tenant);
    SortSorts(mine);
    var sorted, n := Sort(mine), |Query(table, tenant)|;
    forall q, r | q in Query(table, tenant) && r in table && r.entry.tenantId == tenant && r !in Query(table, tenant)
      ensures KeyLess(q, r)
    {
      assert r in multiset(table) && r in multiset(mine) && r in multiset(sorted) && r in sorted;
      var j :| 0 <= j < |sorted| && sorted[j] == r;
      var i :| 0 <= i < n && Query(table, tenant)[i] == q;
      PrefixHas(sorted, n, j);
      assert KeyLess(sorted[i], sorted[j]);
    }
  }

  lemma PrefixHas(rows: seq<Row>, n: nat, j: nat)
    requires n <= |rows| && j < |rows|
    ensures j < n ==> rows[j] in rows[..n]
  {
    if j < n { assert rows[..n][j] == rows[j]; }
  }

  lemma {:induction false} DistinctMine(rows: seq<Row>, tenant: string)
    requires DistinctIds(rows)
    ensures DistinctIds(OfTenant(rows, tenant))
    decreases |rows|
  {
    if rows != [] {
      var init := rows[..|rows| - 1];
      DistinctMine(init, tenant);
      OfTenantSelects(init, tenant);
      SelectedMembers(init, OfTenant(init, tenant), r => IsOf(tenant, r));
      forall k | 0 <= k < |OfTenant(init, tenant)| ensures OfTenant(init, tenant)[k].id != rows[|rows| - 1].id {
        assert OfTenant(init, tenant)[k] in init;
      }
    }
  }

  // ----- the counts -----

  lemma ChainedSnoc(rows: seq<Row>, r: Row)
    ensures Chained(rows + [r]) == Chained(rows) + if IsChained(r) then [r] else []
  {
    assert (rows + [r])[..|rows|] == rows;
  }

  lemma {:induction false} ChainedCons(r: Row, rows: seq<Row>)
    ensures Chained([r] + rows) == if r.entryHash.Some? then [r] + Chained(rows) else Chained(rows)
    decreases |rows|
  {
    if rows == [] {
      assert [r] + rows == [] + [r] && [r] + [] == [r];
      ChainedSnoc([], r);
    } else {
      var init, x := rows[..|rows| - 1], rows[|rows| - 1];
      assert [r] + rows == ([r] + init) + [x] && rows == init + [x];
      ChainedCons(r, init);
      ChainedSnoc([r] + init, x);
      ChainedSnoc(init, x);
    }
  }

  lemma {:induction false} InsertedChained(rows: seq<Row>, r: Row)
    ensures |Chained(Insert(rows, r))| == |Chained(rows)| + if IsChained(r) then 1 else 0
  {
    if rows == [] || KeyLess(r, rows[0]) {
      ChainedCons(r, rows);
    } else {
      var first, rest := rows[0], rows[1..];
      var more := Insert(rest, r);
      assert rows == [first] + rest && Insert(rows, r) == [first] + more;
      InsertedChained(rest, r);
      ChainedCons(first, more);
      ChainedCons(first, rest);
    }
  }

  lemma {:induction false} SortedChained(rows: seq<Row>)
    ensures |Chained(Sort(rows))| == |Chained(rows)|
    decreases |rows|
  {
    if rows != [] {
      var init, r := rows[..|rows| - 1], rows[|rows| - 1];
      SortedChained(init);
      InsertedChained(Sort(init), r);
      ChainedSnoc(init, r);
      assert rows == init + [r];
    }
  }

  lemma {:induction false} MineChained(table: seq<Row>, tenant: string, p: Row -> bool)
    requires forall r :: p(r) == (IsOf(tenant, r) && IsChained(r))
    ensures Selects(table, Chained(OfTenant(table, tenant)), p)
    decreases |table|
  {
    if table == [] {
      SelectsNone(p);
    } else {
      var init, x := table[..|table| - 1], table[|table| - 1];
      MineChained(init, tenant, p);
      MineChainedNext(table, init, x, tenant);
      SelectsNext(init, Chained(OfTenant(init, tenant)), p, x, table, Chained(OfTenant(table, tenant)));
    }
  }

  lemma MineChainedNext(table: seq<Row>, init: seq<Row>, x: Row, tenant: string)
    requires table != [] && init == table[..|table| - 1] && x == table[|table| - 1]
    ensures table == init + [x]
    ensures Chained(OfTenant(table, tenant)) ==
            Chained(OfTenant(init, tenant)) + (if IsOf(tenant, x) && IsChained(x) then [x] else [])
  {
    var mine := OfTenant(init, tenant);
    ChainedSnoc(mine, x);
    assert mine + [] == mine && Chained(mine) + [] == Chained(mine);
  }

  /** What the query's rows are counted as, if it returns them all: the tenant's rows
      with a hash and those without. */
  lemma QueryCounts(table: seq<Row>, tenant: string)
    requires |Mine(table, tenant)| <= 50000
    ensures |Chained(Query(table, tenant))| == |MineWithHash(table, tenant)|
    ensures |Query(table, tenant)| - |Chained(Query(table, tenant))| == |MineWithoutHash(table, tenant)|
  {
    var mine := OfTenant(table, tenant);
    QueryReads(table, tenant);
    SortMultiset(mine);
    OfTenantSelects(table, tenant);
    SelectionCounts(table, mine, r => IsOf(tenant, r));
    assert Positions(table, r => IsOf(tenant, r)) == Mine(table, tenant);
    assert Query(table, tenant) == Sort(mine);
    SortedChained(mine);
    var p := (r: Row) => IsOf(tenant, r) && IsChained(r);
    MineChained(table, tenant, p);
    SelectionCounts(table, Chained(mine), p);
    assert Positions(table, p) == MineWithHash(table, tenant);
    assert Mine(table, tenant) == MineWithHash(table, tenant) + MineWithoutHash(table, tenant);
  }
}
