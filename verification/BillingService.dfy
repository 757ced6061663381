/** Generating invoices against a table with a unique index on tenant and period.
    Several billing runs may be under way; one of them may insert an invoice between
    another's check and its insert. */
module BillingService {
  import opened Wrappers
  import opened Billing

  datatype Tenant = Tenant(active: bool, monthlyFee: nat, activatedAt: Option<int>)

  datatype Invoice = Invoice(tenant: string, period: Period, policiesCount: nat, totalPremium: nat, platformFee: nat,
                             subscriptionFee: int, amountDue: int, isProRata: bool, daysActive: Option<int>)

  datatype Failure = TenantNotActive | DuplicateKey

  /** The index: one invoice for a tenant and a period start. */
  ghost predicate Unique(invoices: seq<Invoice>) {
    forall i, j :: 0 <= i < j < |invoices| ==> !SameKey(invoices[i], invoices[j].tenant, invoices[j].period.start)
  }

  predicate SameKey(i: Invoice, tenant: string, start: int) { i.tenant == tenant && i.period.start == start }

  /** `findOne` by tenant and period start. */
  function Find(invoices: seq<Invoice>, tenant: string, start: int): (r: Option<Invoice>)
    ensures r.Some? ==> r.value in invoices && SameKey(r.value, tenant, start)
    ensures r == None ==> forall i :: 0 <= i < |invoices| ==> !SameKey(invoices[i], tenant, start)
  {
    if invoices == [] then None
    else if SameKey(invoices[|invoices| - 1], tenant, start) then Some(invoices[|invoices| - 1])
    else Find(invoices[..|invoices| - 1], tenant, start)
  }

  function FindMonth(invoices: seq<Invoice>, tenant: string, m: nat): Option<Invoice> { Find(invoices, tenant, PeriodOf(m).start) }

  /** Only its own invoice is found for a key, whatever was added since. */
  lemma {:induction false} FindIsStable(invoices: seq<Invoice>, i: Invoice)
    requires Unique(invoices) && i in invoices
    ensures Find(invoices, i.tenant, i.period.start) == Some(i)
  {
    var n := |invoices| - 1;
    if invoices[n] != i {
      var k :| 0 <= k < |invoices| && invoices[k] == i;
      assert !SameKey(invoices[k], invoices[n].tenant, invoices[n].period.start);
      FindIsStable(invoices[..n], i);
    }
  }

  /** What an invoice has to say about its tenant and period. */
  ghost predicate Correct(i: Invoice, t: Tenant, policies: seq<Policy>, tenant: string, m: nat) {
    && i.tenant == tenant && i.period == PeriodOf(m)
    && i.policiesCount == |CountedAt(policies, PeriodOf(m))|
    && i.policiesCount == Count(policies, PeriodOf(m)) && i.totalPremium == TotalPremium(policies, PeriodOf(m))
    && i.platformFee == PlatformFee(policies, PeriodOf(m))
    && i.amountDue == i.platformFee + i.subscriptionFee
    && i.isProRata == (t.activatedAt.Some? && t.activatedAt.value > PeriodOf(m).start)
    && (!i.isProRata ==> i.subscriptionFee == t.monthlyFee && i.daysActive == None)
    && (forall d :: i.isProRata && OnDay(t.activatedAt.value, m, d) ==>
          i.daysActive == Some(DaysIn(m) - d + 1) && Nearest(i.subscriptionFee, t.monthlyFee * (DaysIn(m) - d + 1), DaysIn(m)))
    && (i.isProRata && t.activatedAt.value >= MonthStart(m + 1) * DAY ==>
          i.daysActive.Some? && i.daysActive.value <= 0 && i.subscriptionFee <= 0)
  }

  class Service {
    var tenants: map<string, Tenant>
    var policies: map<string, seq<Policy>>
    var invoices: seq<Invoice>

    ghost predicate Valid()
      reads this
    {
      Unique(invoices) && tenants.Keys <= policies.Keys
    }

    constructor (tenants: map<string, Tenant>, policies: map<string, seq<Policy>>)
      requires tenants.Keys <= policies.Keys
      ensures Valid() && invoices == []
    {
      this.tenants, this.policies, invoices := tenants, policies, [];
    }

    /** Other runs insert invoices. */
    method Interleave()
      requires Valid()
      modifies `invoices
      ensures Valid() && old(invoices) <= invoices
    {
      var i: Invoice := *;
      var r := CreateInvoice(i);
    }

    /** The insert fails when the index has the key. */
    method CreateInvoice(i: Invoice) returns (ok: bool)
      requires Valid()
      modifies `invoices
      ensures Valid()
      ensures ok <==> Find(old(invoices), i.tenant, i.period.start) == None
      ensures invoices == if ok then old(invoices) + [i] else old(invoices)
    {
      ok := Find(invoices, i.tenant, i.period.start) == None;
      if ok { invoices := invoices + [i]; }
    }

    /** The subscription part: days and fee. */
    method ProRata(t: Tenant, m: nat) returns (fee: int, days: Option<int>, isProRata: bool)
      ensures isProRata == (t.activatedAt.Some? && t.activatedAt.value > PeriodOf(m).start)
      ensures !isProRata ==> fee == t.monthlyFee && days == None
      ensures isProRata ==> days == Some(DaysActive(PeriodOf(m), t.activatedAt.value))
      ensures isProRata ==> fee == SubscriptionFee(t.monthlyFee, days.value, DaysIn(m))
    {
      fee, days, isProRata := t.monthlyFee, None, false;
      if t.activatedAt.Some? && t.activatedAt.value > PeriodOf(m).start {
        var period := PeriodOf(m);
        StartsInMonth(m);
        var d := DaysActive(period, t.activatedAt.value);
        fee, days, isProRata := SubscriptionFee(t.monthlyFee, d, GetDaysInMonth(period.start)), Some(d), true;
      }
    }

    /** An invoice that exists is returned as it is; otherwise one is made, unless the
        tenant is not active or another run was faster. Nothing that exists changes. */
    method GenerateInvoiceForTenant(tenant: string, m: nat) returns (r: Result<Invoice, Failure>)
      requires Valid()
      modifies `invoices
      ensures Valid() && old(invoices) <= invoices
      ensures FindMonth(old(invoices), tenant, m).Some? ==>
                r == Ok(FindMonth(old(invoices), tenant, m).value) && invoices == old(invoices)
      ensures r.Ok? ==> r.value in invoices && SameKey(r.value, tenant, PeriodOf(m).start)
      ensures r.Ok? && FindMonth(old(invoices), tenant, m) == None ==>
                tenant in tenants && Correct(r.value, tenants[tenant], policies[tenant], tenant, m)
      ensures r == Err(TenantNotActive) <==>
              FindMonth(old(invoices), tenant, m) == None && (tenant !in tenants || !tenants[tenant].active)
      ensures r == Err(DuplicateKey) ==> FindMonth(invoices, tenant, m).Some?
    {
      var period := PeriodOf(m);
      var existing := Find(invoices, tenant, period.start);
      if existing.Some? { return Ok(existing.value); }
      if tenant !in tenants || !tenants[tenant].active { return Err(TenantNotActive); }
      var t := tenants[tenant];
      var fee, days, isProRata := ProRata(t, m);
      var count, premium := Count(policies[tenant], period), TotalPremium(policies[tenant], period);
      var platformFee := PlatformFee(policies[tenant], period);
      var invoice := Invoice(tenant, period, count, premium, platformFee, fee, platformFee + fee, isProRata, days);
      ProRataIsCorrect(invoice, t, policies[tenant], tenant, m);
      Interleave();
      var ok := CreateInvoice(invoice);
      if !ok { return Err(DuplicateKey); }
      return Ok(invoice);
    }

    /** After a run over the listed tenants each one that is active has exactly one
        invoice for the period; running it again adds nothing to them. */
    method RunAllTenants(ids: seq<string>, m: nat)
      requires Valid()
      modifies `invoices
      ensures Valid() && old(invoices) <= invoices
      ensures forall k :: 0 <= k < |ids| && ids[k] in tenants && tenants[ids[k]].active ==> FindMonth(invoices, ids[k], m).Some?
      ensures forall i :: i in old(invoices) ==> Find(invoices, i.tenant, i.period.start) == Some(i)
    {
      for k := 0 to |ids|
        invariant Valid() && old(invoices) <= invoices
        invariant forall j :: 0 <= j < k && ids[j] in tenants && tenants[ids[j]].active ==> FindMonth(invoices, ids[j], m).Some?
      {
        ghost var before := invoices;
        var r := GenerateInvoiceForTenant(ids[k], m);
        forall j | 0 <= j < k && ids[j] in tenants && tenants[ids[j]].active ensures FindMonth(invoices, ids[j], m).Some? {
          Kept(before, invoices, ids[j], PeriodOf(m).start);
        }
        if r.Ok? { FindIsStable(invoices, r.value); }
        assert r.Err? ==> r == Err(r.error) && (r.error == TenantNotActive || r.error == DuplicateKey);
        assert ids[k] in tenants && tenants[ids[k]].active ==> FindMonth(invoices, ids[k], m).Some?;
      }
      forall i | i in old(invoices) ensures Find(invoices, i.tenant, i.period.start) == Some(i) { FindIsStable(invoices, i); }
    }
  }

  lemma StartsInMonth(m: nat)
    ensures PeriodOf(m).start >= 0 && GetDaysInMonth(PeriodOf(m).start) == DaysIn(m)
  {
    assert InMonth(PeriodOf(m).start, m);
    MonthIsUnique(PeriodOf(m).start, m, MonthOf(PeriodOf(m).start));
  }

  lemma Kept(before: seq<Invoice>, after: seq<Invoice>, tenant: string, start: int)
    requires before <= after && Unique(after) && Find(before, tenant, start).Some?
    ensures Find(after, tenant, start) == Find(before, tenant, start)
  {
    FindIsStable(after, Find(before, tenant, start).value);
  }

  lemma ProRataIsCorrect(i: Invoice, t: Tenant, policies: seq<Policy>, tenant: string, m: nat)
    requires i.tenant == tenant && i.period == PeriodOf(m) && i.amountDue == i.platformFee + i.subscriptionFee
    requires i.policiesCount == Count(policies, PeriodOf(m)) && i.totalPremium == TotalPremium(policies, PeriodOf(m))
    requires i.platformFee == PlatformFee(policies, PeriodOf(m))
    requires i.isProRata == (t.activatedAt.Some? && t.activatedAt.value > PeriodOf(m).start)
    requires !i.isProRata ==> i.subscriptionFee == t.monthlyFee && i.daysActive == None
    requires i.isProRata ==> i.daysActive == Some(DaysActive(PeriodOf(m), t.activatedAt.value))
    requires i.isProRata ==> i.subscriptionFee == SubscriptionFee(t.monthlyFee, i.daysActive.value, DaysIn(m))
    ensures Correct(i, t, policies, tenant, m)
  {
    CountIsSize(policies, PeriodOf(m));
    if i.isProRata {
      var D, days := DaysIn(m), i.daysActive.value;
      RoundIsNearest(t.monthlyFee * days, D);
      forall d | OnDay(t.activatedAt.value, m, d) ensures days == D - d + 1 { DaysActiveCountsDays(m, t.activatedAt.value, d); }
      if t.activatedAt.value >= MonthStart(m + 1) * DAY {
        AfterMonth(m, t.activatedAt.value);
        RoundWhole(0, D);
        assert t.monthlyFee * days <= 0;
        RoundMonotone(t.monthlyFee * days, 0 * D, D);
      }
    }
  }
}
