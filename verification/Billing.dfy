/** Monthly invoices: billing periods, the pro-rata subscription fee, and which
    policies a period counts. Times are milliseconds since 1970 in UTC, months are
    counted from January 1970, and money is in hundredths. */
module Billing {
  const DAY := 86400000

  // ------------------------------------------------------------------
  // Calendar
  // ------------------------------------------------------------------

  predicate IsLeap(year: int) { year % 4 == 0 && (year % 100 != 0 || year % 400 == 0) }

  function DaysIn(m: nat): (d: nat)
    ensures 28 <= d <= 31
  {
    match m % 12
    case 1 => if IsLeap(1970 + m / 12) then 29 else 28
    case 3 => 30 case 5 => 30 case 8 => 30 case 10 => 30
    case _ => 31
  }

  /** The day a month begins on. */
  function MonthStart(m: nat): nat { if m == 0 then 0 else MonthStart(m - 1) + DaysIn(m - 1) }

  /** Leap days of the years before year Y, by the Gregorian rule. */
  function LeapDays(Y: nat): int
    requires Y > 0
  {
    (Y - 1) / 4 - (Y - 1) / 100 + (Y - 1) / 400
  }

  /** Year 1970 + y begins 365 days for each year, and a day for each leap year, after
      1970 did. */
  lemma {:induction false} YearStarts(y: nat)
    ensures MonthStart(12 * y) == 365 * y + LeapDays(1970 + y) - LeapDays(1970)
  {
    if y > 0 {
      YearStarts(y - 1);
      OneYear(y - 1);
      NextLeapDays(1969 + y);
    }
  }

  lemma OneMonth(y: nat, k: nat)
    requires k < 12
    ensures MonthStart(12 * y + k + 1) == MonthStart(12 * y + k) +
            if k == 1 then (if IsLeap(1970 + y) then 29 else 28) else if k in {3, 5, 8, 10} then 30 else 31
  {
    var m := 12 * y + k;
    assert m % 12 == k && m / 12 == y;
    assert MonthStart(m + 1) == MonthStart(m) + DaysIn(m);
  }

  lemma Quarter(y: nat, k: nat)
    requires k in {0, 3, 6, 9}
    ensures MonthStart(12 * y + k + 3) == MonthStart(12 * y + k) +
            if k == 0 then (if IsLeap(1970 + y) then 91 else 90) else if k == 3 then 91 else 92
  {
    OneMonth(y, k);
    OneMonth(y, k + 1);
    OneMonth(y, k + 2);
  }

  lemma OneYear(y: nat)
    ensures MonthStart(12 * y + 12) == MonthStart(12 * y) + 365 + if IsLeap(1970 + y) then 1 else 0
  {
    Quarter(y, 0);
    Quarter(y, 3);
    Quarter(y, 6);
    Quarter(y, 9);
  }

  lemma By4(n: nat)
    ensures (n + 1) / 4 == n / 4 + if (n + 1) % 4 == 0 then 1 else 0
  {
  }

  lemma By100(n: nat)
    ensures (n + 1) / 100 == n / 100 + if (n + 1) % 100 == 0 then 1 else 0
  {
  }

  lemma By400(n: nat)
    ensures (n + 1) / 400 == n / 400 + if (n + 1) % 400 == 0 then 1 else 0
  {
  }

  lemma Divides(n: nat)
    ensures n % 100 == 0 ==> n % 4 == 0
    ensures n % 400 == 0 ==> n % 100 == 0
  {
    if n % 100 == 0 { assert n == 4 * (25 * (n / 100)); }
    if n % 400 == 0 { assert n == 100 * (4 * (n / 400)); }
  }

  lemma NextLeapDays(Y: nat)
    requires Y > 0
    ensures LeapDays(Y + 1) == LeapDays(Y) + if IsLeap(Y) then 1 else 0
  {
    By4(Y - 1);
    By100(Y - 1);
    By400(Y - 1);
    Divides(Y);
  }

  predicate InMonth(t: int, m: nat) { MonthStart(m) * DAY <= t < MonthStart(m + 1) * DAY }

  function MonthFrom(t: nat, m: nat): (r: nat)
    requires MonthStart(m) * DAY <= t
    ensures InMonth(t, r)
    decreases t - MonthStart(m) * DAY
  {
    if t < MonthStart(m + 1) * DAY then m else MonthFrom(t, m + 1)
  }

  function MonthOf(t: nat): (m: nat)
    ensures InMonth(t, m)
  {
    MonthFrom(t, 0)
  }

  lemma {:induction false} MonthsAreApart(a: nat, b: nat)
    requires a < b
    ensures MonthStart(a) + DaysIn(a) <= MonthStart(b)
  {
    if a + 1 < b { MonthsAreApart(a, b - 1); }
  }

  lemma MonthIsUnique(t: int, a: nat, b: nat)
    requires InMonth(t, a) && InMonth(t, b)
    ensures a == b
  {
    if a < b { MonthsAreApart(a, b); } else if b < a { MonthsAreApart(b, a); }
  }

  /** `new Date(year, month + 1, 0).getDate()`. */
  function GetDaysInMonth(t: nat): nat { DaysIn(MonthOf(t)) }

  datatype Period = Period(start: int, end: int)

  /** Midnight of the first day to midnight of the last. */
  function PeriodOf(m: nat): Period { Period(MonthStart(m) * DAY, (MonthStart(m) + DaysIn(m) - 1) * DAY) }

  function GetPreviousMonthPeriod(now: nat): Period
    requires now >= MonthStart(1) * DAY
  {
    PeriodOf(if MonthOf(now) == 0 then 0 else MonthOf(now) - 1)
  }

  /** Billing in any month after the first bills the month before it, whatever the
      day and time of the run. */
  lemma PreviousMonth(now: nat, m: nat)
    requires InMonth(now, m + 1)
    ensures now >= MonthStart(1) * DAY && GetPreviousMonthPeriod(now) == PeriodOf(m)
  {
    MonthIsUnique(now, MonthOf(now), m + 1);
    if m > 0 { MonthsAreApart(1, m + 1); }
  }

  // ------------------------------------------------------------------
  // Pro rata
  // ------------------------------------------------------------------

  /** `Math.ceil` of a quotient. */
  function CeilDiv(a: int, b: int): int
    requires b > 0
  {
    -((-a) / b)
  }

  /** Days billed to a tenant activated after the period began. */
  function DaysActive(p: Period, activation: int): int { CeilDiv(p.end - activation, DAY) + 1 }

  /** `Math.round` of a quotient. */
  function Round(num: int, den: int): int
    requires den > 0
  {
    (2 * num + den) / (2 * den)
  }

  function SubscriptionFee(monthlyFee: int, days: int, daysInMonth: nat): int
    requires daysInMonth > 0
  {
    Round(monthlyFee * days, daysInMonth)
  }

  /** The instant lies on day d of month m, counted from one. */
  predicate OnDay(t: int, m: nat, d: int) {
    1 <= d <= DaysIn(m) && (MonthStart(m) + d - 1) * DAY <= t < (MonthStart(m) + d) * DAY
  }

  /** The millisecond formula counts calendar days: activation on day d of a month of
      D days is billed D - d + 1 days, whatever the time of day. */
  lemma DaysActiveCountsDays(m: nat, activation: int, d: int)
    requires OnDay(activation, m, d)
    ensures DaysActive(PeriodOf(m), activation) == DaysIn(m) - d + 1
  {
    var r := activation - (MonthStart(m) + d - 1) * DAY;
    CeilOfDays(DaysIn(m) - d, r);
    assert PeriodOf(m).end - activation == (DaysIn(m) - d) * DAY - r;
  }

  lemma CeilOfDays(days: int, r: int)
    requires 0 <= r < DAY
    ensures CeilDiv(days * DAY - r, DAY) == days
  {
    assert -(days * DAY - r) == -days * DAY + r;
    assert (-days * DAY + r) / DAY == -days;
  }

  lemma HasDay(m: nat, t: int) returns (d: int)
    requires InMonth(t, m)
    ensures OnDay(t, m, d)
  {
    d := t / DAY - MonthStart(m) + 1;
  }

  /** The number of days is one that exists in the month exactly for activations in
      the month; a tenant activated later is billed none, or fewer than none. */
  lemma DaysActiveInRange(m: nat, activation: int)
    requires activation > PeriodOf(m).start
    ensures 1 <= DaysActive(PeriodOf(m), activation) <= DaysIn(m) <==> InMonth(activation, m)
    ensures DaysActive(PeriodOf(m), activation) <= 0 <==> activation >= MonthStart(m + 1) * DAY
  {
    if InMonth(activation, m) {
      var d := HasDay(m, activation);
      DaysActiveCountsDays(m, activation, d);
    } else {
      AfterMonth(m, activation);
    }
  }

  lemma AfterMonth(m: nat, activation: int)
    requires activation >= MonthStart(m + 1) * DAY
    ensures DaysActive(PeriodOf(m), activation) <= 0
  {
    var a := PeriodOf(m).end - activation;
    assert -a >= DAY;
    assert (-a) / DAY >= 1;
  }

  /** Within half a hundredth of the exact quotient. */
  predicate Nearest(rounded: int, num: int, den: int) { -den <= 2 * den * rounded - 2 * num <= den }

  lemma RoundIsNearest(num: int, den: int)
    requires den > 0
    ensures Nearest(Round(num, den), num, den)
  {
    var q := (2 * num + den) / (2 * den);
    assert 2 * den * q <= 2 * num + den < 2 * den * q + 2 * den;
  }

  lemma QuotientIs(a: int, c: int, q: int, r: int)
    requires c > 0 && a == q * c + r && 0 <= r < c
    ensures a / c == q
  {
    var p := a / c;
    assert p * c <= a < p * c + c;
    assert (p - q) * c == p * c - q * c && (q - p) * c == q * c - p * c;
    if p > q { TimesAtLeast(p - q, c); } else if p < q { TimesAtLeast(q - p, c); }
  }

  lemma TimesAtLeast(a: int, c: int)
    requires a >= 1 && c > 0
    ensures a * c >= c
  {
  }

  lemma RoundMonotone(a: int, b: int, den: int)
    requires den > 0 && a <= b
    ensures Round(a, den) <= Round(b, den)
  {
    QuotientMonotone(2 * a + den, 2 * b + den, 2 * den);
  }

  lemma QuotientMonotone(a: int, b: int, c: int)
    requires c > 0 && a <= b
    ensures a / c <= b / c
  {
    var x, y := a / c, b / c;
    assert x * c <= a && b < y * c + c;
    assert (x - y) * c == x * c - y * c;
    if x > y { TimesAtLeast(x - y, c); }
  }

  lemma RoundWhole(n: int, den: int)
    requires den > 0
    ensures Round(n * den, den) == n
  {
    assert 2 * (n * den) + den == n * (2 * den) + den;
    QuotientIs(2 * (n * den) + den, 2 * den, n, den);
  }

  /** For an activation in the billed month the fee is within half a hundredth of the
      exact share, not negative, at most the monthly fee, and not higher for a later
      activation. */
  lemma FeeIsFair(monthlyFee: nat, m: nat, activation: int, later: int)
    requires InMonth(activation, m) && InMonth(later, m) && activation <= later
    ensures var D, days := DaysIn(m), DaysActive(PeriodOf(m), activation);
            && Nearest(SubscriptionFee(monthlyFee, days, D), monthlyFee * days, D)
            && 0 <= SubscriptionFee(monthlyFee, days, D) <= monthlyFee
            && SubscriptionFee(monthlyFee, DaysActive(PeriodOf(m), later), D) <= SubscriptionFee(monthlyFee, days, D)
  {
    var D := DaysIn(m);
    var d := HasDay(m, activation);
    var e := HasDay(m, later);
    DaysActiveCountsDays(m, activation, d);
    DaysActiveCountsDays(m, later, e);
    LaterDay(m, activation, later, d, e);
    FeeBounds(monthlyFee, D - d + 1, D - e + 1, D);
  }

  lemma LaterDay(m: nat, t: int, u: int, d: int, e: int)
    requires OnDay(t, m, d) && OnDay(u, m, e) && t <= u
    ensures d <= e
  {
  }

  lemma FeeBounds(fee: nat, days: nat, fewer: nat, D: nat)
    requires 1 <= fewer <= days <= D
    ensures Nearest(SubscriptionFee(fee, days, D), fee * days, D)
    ensures 0 <= SubscriptionFee(fee, fewer, D) <= SubscriptionFee(fee, days, D) <= fee
  {
    RoundIsNearest(fee * days, D);
    assert 0 <= fee * fewer <= fee * days <= fee * D;
    RoundWhole(0, D);
    RoundWhole(fee, D);
    RoundMonotone(0 * D, fee * fewer, D);
    RoundMonotone(fee * fewer, fee * days, D);
    RoundMonotone(fee * days, fee * D, D);
  }

  /** Whoever was active on the first day pays the whole fee, by either branch. */
  lemma FirstDayPaysAll(monthlyFee: nat, m: nat, activation: int)
    requires OnDay(activation, m, 1)
    ensures SubscriptionFee(monthlyFee, DaysActive(PeriodOf(m), activation), DaysIn(m)) == monthlyFee
  {
    DaysActiveCountsDays(m, activation, 1);
    RoundWhole(monthlyFee, DaysIn(m));
  }

  // ------------------------------------------------------------------
  // Policies
  // ------------------------------------------------------------------

  /** The row query, for a tenant's active policies: both ends belong to the period. */
  predicate Counted(p: Period, t: int) { p.start <= t <= p.end }

  /** No policy is counted in two periods. */
  lemma PeriodsAreDisjoint(t: int, a: nat, b: nat)
    requires Counted(PeriodOf(a), t) && Counted(PeriodOf(b), t)
    ensures a == b
  {
    if a < b { MonthsAreApart(a, b); } else if b < a { MonthsAreApart(b, a); }
  }

  /** After midnight on the month's last day. */
  predicate LastDay(m: nat, t: int) { PeriodOf(m).end < t < MonthStart(m + 1) * DAY }

  /** A policy is counted in some period exactly when it was not made after midnight
      on the last day of its month. */
  lemma CountedExactlyWhen(t: nat)
    ensures (exists m :: Counted(PeriodOf(m), t)) <==> !LastDay(MonthOf(t), t)
  {
    if m :| Counted(PeriodOf(m), t) {
      assert InMonth(t, m);
      MonthIsUnique(t, m, MonthOf(t));
    }
    if !LastDay(MonthOf(t), t) { assert Counted(PeriodOf(MonthOf(t)), t); }
  }

  datatype Policy = Policy(createdAt: nat, premium: nat, commission: nat)

  /** Commissions of the policies made in [from, to). */
  function Between(policies: seq<Policy>, from: int, to: int): nat {
    if policies == [] then 0
    else
      var last := policies[|policies| - 1];
      Between(policies[..|policies| - 1], from, to) + if from <= last.createdAt < to then last.commission else 0
  }

  /** `SUM(commission_amount)` of a period. */
  function PlatformFee(policies: seq<Policy>, p: Period): nat { Between(policies, p.start, p.end + 1) }

  function TotalPremium(policies: seq<Policy>, p: Period): nat {
    if policies == [] then 0
    else
      var last := policies[|policies| - 1];
      TotalPremium(policies[..|policies| - 1], p) + if Counted(p, last.createdAt) then last.premium else 0
  }

  function Count(policies: seq<Policy>, p: Period): nat {
    if policies == [] then 0
    else Count(policies[..|policies| - 1], p) + if Counted(p, policies[|policies| - 1].createdAt) then 1 else 0
  }

  lemma {:induction false} BetweenCut(policies: seq<Policy>, a: int, b: int, c: int)
    requires a <= b <= c
    ensures Between(policies, a, c) == Between(policies, a, b) + Between(policies, b, c)
  {
    if policies != [] { BetweenCut(policies[..|policies| - 1], a, b, c); }
  }

  lemma {:induction false} BetweenAppend(a: seq<Policy>, b: seq<Policy>, from: int, to: int)
    ensures Between(a + b, from, to) == Between(a, from, to) + Between(b, from, to)
    decreases |b|
  {
    if b == [] {
      assert a + b == a;
    } else {
      BetweenAppend(a, b[..|b| - 1], from, to);
      assert (a + b)[..|a + b| - 1] == a + b[..|b| - 1];
    }
  }

  /** The three numbers of a period add up over lists of policies ... */
  lemma {:induction false} PeriodSums(a: seq<Policy>, b: seq<Policy>, p: Period)
    ensures TotalPremium(a + b, p) == TotalPremium(a, p) + TotalPremium(b, p)
    ensures Count(a + b, p) == Count(a, p) + Count(b, p)
    ensures PlatformFee(a + b, p) == PlatformFee(a, p) + PlatformFee(b, p)
    decreases |b|
  {
    BetweenAppend(a, b, p.start, p.end + 1);
    if b == [] {
      assert a + b == a;
    } else {
      PeriodSums(a, b[..|b| - 1], p);
      assert (a + b)[..|a + b| - 1] == a + b[..|b| - 1];
    }
  }

  /** ... and a single policy adds its premium, one, and its commission, if it was made
      from the first midnight of the period to the last, and nothing otherwise. */
  lemma SinglePolicy(q: Policy, p: Period)
    ensures p.start <= q.createdAt <= p.end ==>
              TotalPremium([q], p) == q.premium && Count([q], p) == 1 && PlatformFee([q], p) == q.commission
    ensures !(p.start <= q.createdAt <= p.end) ==>
              TotalPremium([q], p) == 0 && Count([q], p) == 0 && PlatformFee([q], p) == 0
    ensures TotalPremium([], p) == 0 && Count([], p) == 0 && PlatformFee([], p) == 0
  {
    var s := [q];
    assert s[..|s| - 1] == [] && s[|s| - 1] == q;
    assert TotalPremium(s, p) == TotalPremium(s[..|s| - 1], p) + if Counted(p, q.createdAt) then q.premium else 0;
    assert Count(s, p) == Count(s[..|s| - 1], p) + if Counted(p, q.createdAt) then 1 else 0;
    SingleBetween(q, p.start, p.end + 1);
  }

  lemma SingleBetween(q: Policy, from: int, to: int)
    ensures Between([q], from, to) == (if from <= q.createdAt < to then q.commission else 0) && Between([], from, to) == 0
  {
    var s := [q];
    assert s[..|s| - 1] == [] && s[|s| - 1] == q;
    assert Between(s, from, to) == Between(s[..|s| - 1], from, to) + if from <= q.createdAt < to then q.commission else 0;
  }

  /** The policies of a period, by their place in the list. */
  function CountedAt(policies: seq<Policy>, p: Period): set<nat> {
    set i: nat | i < |policies| && p.start <= policies[i].createdAt <= p.end
  }

  lemma {:induction false} CountIsSize(policies: seq<Policy>, p: Period)
    ensures Count(policies, p) == |CountedAt(policies, p)|
  {
    if policies != [] {
      var n := |policies| - 1;
      var init := policies[..n];
      CountIsSize(init, p);
      assert CountedAt(policies, p) == CountedAt(init, p) + if Counted(p, policies[n].createdAt) then {n} else {};
    }
  }

  /** What the invoices of the first n months bill, and what no invoice bills. */
  function Billed(policies: seq<Policy>, n: nat): nat {
    if n == 0 then 0 else Billed(policies, n - 1) + PlatformFee(policies, PeriodOf(n - 1))
  }

  function Missed(policies: seq<Policy>, n: nat): nat {
    if n == 0 then 0 else Missed(policies, n - 1) + Between(policies, PeriodOf(n - 1).end + 1, MonthStart(n) * DAY)
  }

  /** Every commission is billed once or falls on the last day of a month. */
  lemma {:induction false} CommissionsAreConserved(policies: seq<Policy>, n: nat)
    ensures Billed(policies, n) + Missed(policies, n) == Between(policies, 0, MonthStart(n) * DAY)
  {
    if n == 0 {
      NothingBefore(policies);
    } else {
      CommissionsAreConserved(policies, n - 1);
      var p := PeriodOf(n - 1);
      BetweenCut(policies, 0, p.start, MonthStart(n) * DAY);
      BetweenCut(policies, p.start, p.end + 1, MonthStart(n) * DAY);
    }
  }

  lemma {:induction false} NothingBefore(policies: seq<Policy>)
    ensures Between(policies, 0, 0) == 0
  {
    if policies != [] { NothingBefore(policies[..|policies| - 1]); }
  }
}
