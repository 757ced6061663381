/** Failed logins of one account. A login reads the user row and checks the lock, then
    compares the password, then updates the row in one statement; between the check
    and the update other logins of the same account may run. At most `slots` of them
    are under way at a time. Times are milliseconds. */
module Lockout {
  import opened Wrappers

  const MAX_FAILED_ATTEMPTS := 5
  const LOCKOUT_MS := 900000

  /** The account's columns. */
  datatype Row = Row(failedLoginCount: nat, lockedUntil: Option<int>)

  const FRESH := Row(0, None)

  datatype Event = Begin(slot: nat, now: int) | Finish(slot: nat, now: int, correct: bool)

  /** A failed password comparison: when it was recorded, by which slot, and how many
      failures had been recorded when its login passed the lock. */
  datatype Failure = Failure(at: int, slot: nat, seen: nat)

  /** `underWay[s]` is the number of failures login s had seen when it began;
      `failures` are those since the last success. */
  datatype State = State(row: Row, underWay: seq<Option<nat>>, failures: seq<Failure>)

  predicate Locked(row: Row, now: int) { row.lockedUntil.Some? && row.lockedUntil.value > now }

  /** The update statement. */
  function Increment(row: Row, now: int): Row {
    Row(row.failedLoginCount + 1,
        if row.failedLoginCount + 1 >= MAX_FAILED_ATTEMPTS then Some(now + LOCKOUT_MS) else row.lockedUntil)
  }

  function Start(slots: nat): State { State(FRESH, seq(slots, _ => None), []) }

  function Next(s: State, e: Event): (t: State)
    ensures |t.underWay| == |s.underWay|
  {
    if e.slot >= |s.underWay| then s
    else match e
      case Begin(slot, now) =>
        if s.underWay[slot].Some? || Locked(s.row, now) then s
        else s.(underWay := s.underWay[slot := Some(|s.failures|)])
      case Finish(slot, now, correct) =>
        if s.underWay[slot] == None then s
        else if correct then State(FRESH, Restarted(s.underWay[slot := None]), [])
        else State(Increment(s.row, now), s.underWay[slot := None],
                   s.failures + [Failure(now, slot, s.underWay[slot].value)])
  }

  /** After a success the count starts over for the logins still under way. */
  function Restarted(underWay: seq<Option<nat>>): (r: seq<Option<nat>>)
    ensures |r| == |underWay| && forall i :: 0 <= i < |r| ==> r[i] == if underWay[i].Some? then Some(0) else None
  {
    seq(|underWay|, i requires 0 <= i < |underWay| => if underWay[i].Some? then Some(0) else None)
  }

  function Run(slots: nat, events: seq<Event>): (s: State)
    ensures |s.underWay| == slots
  {
    if events == [] then Start(slots) else Next(Run(slots, events[..|events| - 1]), events[|events| - 1])
  }

  ghost predicate Monotone(events: seq<Event>) { forall i, j :: 0 <= i < j < |events| ==> events[i].now <= events[j].now }

  // ------------------------------------------------------------------
  // What every state keeps
  // ------------------------------------------------------------------

  /** A login that saw s failures, five or more, waited out the lock of the last of them. */
  ghost predicate Waited(failures: seq<Failure>, seen: nat, at: int) {
    seen <= |failures| && (seen >= MAX_FAILED_ATTEMPTS ==> at >= failures[seen - 1].at + LOCKOUT_MS)
  }

  ghost predicate RowMatches(row: Row, failures: seq<Failure>) {
    && row.failedLoginCount == |failures|
    && row.lockedUntil == if |failures| >= MAX_FAILED_ATTEMPTS then Some(failures[|failures| - 1].at + LOCKOUT_MS) else None
  }

  ghost predicate History(failures: seq<Failure>, slots: nat, clock: int) {
    && (forall i :: 0 <= i < |failures| ==> failures[i].at <= clock && failures[i].slot < slots && failures[i].seen <= i)
    && (forall i, j :: 0 <= i < j < |failures| ==> failures[i].at <= failures[j].at)
    && (forall i :: 0 <= i < |failures| ==> Waited(failures[..i], failures[i].seen, failures[i].at))
    && (forall i, j :: 0 <= i < j < |failures| && failures[i].slot == failures[j].slot ==> i < failures[j].seen)
  }

  ghost predicate UnderWay(underWay: seq<Option<nat>>, failures: seq<Failure>, clock: int) {
    && (forall w :: 0 <= w < |underWay| && underWay[w].Some? ==> Waited(failures, underWay[w].value, clock))
    && (forall w, i :: 0 <= w < |underWay| && underWay[w].Some? && 0 <= i < |failures| && failures[i].slot == w ==> i < underWay[w].value)
  }

  ghost predicate Inv(s: State, slots: nat, clock: int) {
    |s.underWay| == slots && RowMatches(s.row, s.failures) && History(s.failures, slots, clock) && UnderWay(s.underWay, s.failures, clock)
  }

  lemma BeginKeeps(s: State, slots: nat, clock: int, slot: nat, now: int)
    requires Inv(s, slots, clock) && now >= clock
    ensures Inv(Next(s, Begin(slot, now)), slots, now)
  {
    LaterUnderWay(s.underWay, s.failures, clock, now);
    if slot < slots && s.underWay[slot] == None && !Locked(s.row, now) {
      BeginKeepsUnderWay(s.underWay, s.failures, slots, now, slot);
    }
  }

  lemma LaterUnderWay(underWay: seq<Option<nat>>, failures: seq<Failure>, clock: int, now: int)
    requires UnderWay(underWay, failures, clock) && now >= clock
    ensures UnderWay(underWay, failures, now)
  {
  }

  /** A login that passes the lock has waited it out. */
  lemma BeginKeepsUnderWay(underWay: seq<Option<nat>>, failures: seq<Failure>, slots: nat, now: int, slot: nat)
    requires UnderWay(underWay, failures, now) && slot < |underWay|
    requires |failures| >= MAX_FAILED_ATTEMPTS ==> failures[|failures| - 1].at + LOCKOUT_MS <= now
    ensures UnderWay(underWay[slot := Some(|failures|)], failures, now)
  {
  }

  lemma FailureKeepsHistory(failures: seq<Failure>, slots: nat, clock: int, f: Failure)
    requires History(failures, slots, clock) && f.at >= clock && f.slot < slots && Waited(failures, f.seen, f.at)
    requires forall i :: 0 <= i < |failures| && failures[i].slot == f.slot ==> i < f.seen
    ensures History(failures + [f], slots, f.at)
  {
    var more := failures + [f];
    forall i | 0 <= i < |more| ensures Waited(more[..i], more[i].seen, more[i].at) {
      assert more[..i] == if i < |failures| then failures[..i] else failures;
    }
  }

  lemma FailureKeepsUnderWay(underWay: seq<Option<nat>>, failures: seq<Failure>, clock: int, f: Failure)
    requires UnderWay(underWay, failures, clock) && f.at >= clock
    requires f.slot < |underWay| && underWay[f.slot].Some?
    ensures UnderWay(underWay[f.slot := None], failures + [f], f.at)
  {
  }

  lemma FinishKeeps(s: State, slots: nat, clock: int, slot: nat, now: int, correct: bool)
    requires Inv(s, slots, clock) && now >= clock
    ensures Inv(Next(s, Finish(slot, now, correct)), slots, now)
  {
    if slot < slots && s.underWay[slot].Some? && !correct {
      var f := Failure(now, slot, s.underWay[slot].value);
      FailureKeepsHistory(s.failures, slots, clock, f);
      FailureKeepsUnderWay(s.underWay, s.failures, clock, f);
    }
  }

  function Clock(events: seq<Event>, start: int): int { if events == [] then start else events[|events| - 1].now }

  lemma {:induction false} RunKeeps(slots: nat, events: seq<Event>, start: int)
    requires Monotone(events) && (events != [] ==> start <= events[0].now)
    ensures Inv(Run(slots, events), slots, Clock(events, start))
  {
    if events != [] {
      var before, e := events[..|events| - 1], events[|events| - 1];
      RunKeeps(slots, before, start);
      match e
      case Begin(slot, now) => BeginKeeps(Run(slots, before), slots, Clock(before, start), slot, now);
      case Finish(slot, now, correct) => FinishKeeps(Run(slots, before), slots, Clock(before, start), slot, now, correct);
    }
  }

  /** In every state of every run the lock is set exactly when five failures or more
      have been counted since the last success, and it ends fifteen minutes after the
      last of them. */
  lemma LockedIffFive(slots: nat, events: seq<Event>)
    requires Monotone(events)
    ensures var s := Run(slots, events);
            && s.row.failedLoginCount == |s.failures|
            && (s.row.lockedUntil.Some? <==> |s.failures| >= MAX_FAILED_ATTEMPTS)
            && (s.row.lockedUntil.Some? ==> s.row.lockedUntil.value == s.failures[|s.failures| - 1].at + LOCKOUT_MS)
  {
    RunKeeps(slots, events, if events == [] then 0 else events[0].now);
  }

  // ------------------------------------------------------------------
  // How many passwords can be tried
  // ------------------------------------------------------------------

  /** Among more failures than slots, two share a slot. */
  lemma Pigeonhole(failures: seq<Failure>, slots: nat, from: nat) returns (a: nat, b: nat)
    requires from + slots < |failures| && forall i :: 0 <= i < |failures| ==> failures[i].slot < slots
    ensures from <= a < b <= from + slots && failures[a].slot == failures[b].slot
  {
    if forall i, j :: from <= i < j <= from + slots ==> failures[i].slot != failures[j].slot {
      DistinctSlots(failures, from, slots + 1);
      var used := SlotsOf(failures, from, slots + 1);
      assert used <= Below(slots);
      SubsetSize(used, Below(slots));
      assert false;
    }
    a, b :| from <= a < b <= from + slots && failures[a].slot == failures[b].slot;
  }

  ghost function SlotsOf(failures: seq<Failure>, from: nat, n: nat): set<nat>
    requires from + n <= |failures|
  {
    set i | from <= i < from + n :: failures[i].slot
  }

  lemma {:induction false} DistinctSlots(failures: seq<Failure>, from: nat, n: nat)
    requires from + n <= |failures|
    requires forall i, j :: from <= i < j < from + n ==> failures[i].slot != failures[j].slot
    ensures |SlotsOf(failures, from, n)| == n
  {
    if n > 0 {
      DistinctSlots(failures, from, n - 1);
      assert SlotsOf(failures, from, n) == SlotsOf(failures, from, n - 1) + {failures[from + n - 1].slot};
    } else {
      assert SlotsOf(failures, from, 0) == {};
    }
  }

  ghost function Below(n: nat): (r: set<nat>)
    ensures |r| == n && forall x: nat :: x in r <==> x < n
  {
    if n == 0 then {} else Below(n - 1) + {n - 1}
  }

  /** From the fifth failure on, as many failures later as there are slots at least a
      full lockout has passed. */
  lemma Spacing(failures: seq<Failure>, slots: nat, clock: int, i: nat)
    requires History(failures, slots, clock) && MAX_FAILED_ATTEMPTS - 1 <= i && i + slots < |failures|
    ensures failures[i + slots].at >= failures[i].at + LOCKOUT_MS
  {
    var a, b := Pigeonhole(failures, slots, i);
    SameSlot(failures, slots, clock, a, b);
    Ordered(failures, slots, clock, i, a);
    Ordered(failures, slots, clock, b, i + slots);
  }

  /** A slot's next failure comes from a login that began after the previous one. */
  lemma SameSlot(failures: seq<Failure>, slots: nat, clock: int, a: nat, b: nat)
    requires History(failures, slots, clock) && MAX_FAILED_ATTEMPTS - 1 <= a < b < |failures| && failures[a].slot == failures[b].slot
    ensures failures[b].at >= failures[a].at + LOCKOUT_MS
  {
    var seen := failures[b].seen;
    assert a < seen <= b;
    assert Waited(failures[..b], seen, failures[b].at);
    assert failures[..b][seen - 1] == failures[seen - 1];
    Ordered(failures, slots, clock, a, seen - 1);
  }

  lemma Ordered(failures: seq<Failure>, slots: nat, clock: int, i: nat, j: nat)
    requires History(failures, slots, clock) && i <= j < |failures|
    ensures failures[i].at <= failures[j].at
  {
  }

  lemma {:induction false} SpacingTimes(failures: seq<Failure>, slots: nat, clock: int, m: nat)
    requires History(failures, slots, clock) && MAX_FAILED_ATTEMPTS - 1 + m * slots < |failures|
    ensures failures[MAX_FAILED_ATTEMPTS - 1 + m * slots].at >= failures[MAX_FAILED_ATTEMPTS - 1].at + m * LOCKOUT_MS
  {
    if m > 0 {
      assert m * slots == (m - 1) * slots + slots;
      SpacingTimes(failures, slots, clock, m - 1);
      Spacing(failures, slots, clock, MAX_FAILED_ATTEMPTS - 1 + (m - 1) * slots);
    }
  }

  /** By a time T after the fifth failure, at most 4 + slots * (1 + floor(T / 15 min))
      passwords have been tried since the last success. Without overlapping logins
      that is 5 + floor(T / 15 min). */
  lemma TriesAreBounded(slots: nat, events: seq<Event>, until: int)
    requires Monotone(events) && forall i :: 0 <= i < |events| ==> events[i].now <= until
    ensures Bounded(Run(slots, events).failures, slots, until)
  {
    RunKeeps(slots, events, if events == [] then until else events[0].now);
    BoundOfHistory(Run(slots, events).failures, slots, Clock(events, until), until);
  }

  ghost predicate Bounded(f: seq<Failure>, slots: nat, until: int) {
    |f| >= MAX_FAILED_ATTEMPTS ==>
      |f| <= MAX_FAILED_ATTEMPTS - 1 + slots * (1 + (until - f[MAX_FAILED_ATTEMPTS - 1].at) / LOCKOUT_MS)
  }

  lemma BoundOfHistory(f: seq<Failure>, slots: nat, clock: int, until: int)
    requires History(f, slots, clock) && clock <= until
    ensures Bounded(f, slots, until)
  {
    if |f| >= MAX_FAILED_ATTEMPTS {
      var first := f[MAX_FAILED_ATTEMPTS - 1].at;
      var q := (until - first) / LOCKOUT_MS;
      assert first <= until && until - first < (1 + q) * LOCKOUT_MS;
      if |f| > MAX_FAILED_ATTEMPTS - 1 + slots * (1 + q) {
        assert (1 + q) * slots == slots * (1 + q);
        SpacingTimes(f, slots, clock, 1 + q);
        assert false;
      }
    }
  }

  // ------------------------------------------------------------------
  // The bound is reached
  // ------------------------------------------------------------------

  /** A run that ends at `now` with nothing under way. */
  ghost predicate Quiet(slots: nat, events: seq<Event>, now: int) {
    && Monotone(events) && (events != [] ==> events[0].now == 0 && events[|events| - 1].now <= now) && now >= 0
    && forall w :: 0 <= w < slots ==> Run(slots, events).underWay[w] == None
  }

  lemma Append(slots: nat, events: seq<Event>, e: Event)
    requires Monotone(events) && (events != [] ==> events[|events| - 1].now <= e.now)
    ensures Run(slots, events + [e]) == Next(Run(slots, events), e)
    ensures Monotone(events + [e])
  {
    assert (events + [e])[..|events|] == events;
  }

  /** Under way in the first n slots, all having seen the same failures. */
  function FirstUnderWay(slots: nat, n: nat, seen: nat): (u: seq<Option<nat>>)
    ensures |u| == slots && forall w :: 0 <= w < slots ==> u[w] == if w < n then Some(seen) else None
  {
    seq(slots, w => if w < n then Some(seen) else None)
  }

  lemma BeginOne(s: State, slots: nat, n: nat, now: int)
    requires n < slots && s.underWay == FirstUnderWay(slots, n, |s.failures|) && !Locked(s.row, now)
    ensures Next(s, Begin(n, now)) == s.(underWay := FirstUnderWay(slots, n + 1, |s.failures|))
  {
    assert s.underWay[n := Some(|s.failures|)] == FirstUnderWay(slots, n + 1, |s.failures|);
  }

  /** Logins begin in the slots from 0 to n - 1. */
  lemma {:induction false} BeginSome(slots: nat, events: seq<Event>, now: int, n: nat) returns (r: seq<Event>)
    requires Quiet(slots, events, now) && n <= slots && !Locked(Run(slots, events).row, now) && (events == [] ==> now == 0)
    ensures Monotone(r) && (r != [] ==> r[0].now == 0 && r[|r| - 1].now <= now) && (r == [] ==> events == [] && n == 0)
    ensures var s := Run(slots, events); Run(slots, r) == s.(underWay := FirstUnderWay(slots, n, |s.failures|))
  {
    var s := Run(slots, events);
    if n == 0 {
      r := events;
      assert s.underWay == FirstUnderWay(slots, 0, |s.failures|);
    } else {
      var before := BeginSome(slots, events, now, n - 1);
      Append(slots, before, Begin(n - 1, now));
      BeginOne(Run(slots, before), slots, n - 1, now);
      r := before + [Begin(n - 1, now)];
    }
  }

  /** The logins in the slots from 0 to n - 1 fail. */
  lemma {:induction false} FailSome(slots: nat, events: seq<Event>, now: int, n: nat) returns (r: seq<Event>)
    requires Monotone(events) && events != [] && events[0].now == 0 && events[|events| - 1].now <= now && n <= slots
    requires forall w :: 0 <= w < slots ==> Run(slots, events).underWay[w].Some?
    ensures Monotone(r) && r != [] && r[0].now == 0 && r[|r| - 1].now <= now
    ensures var s, t := Run(slots, events), Run(slots, r);
            |t.failures| == |s.failures| + n && s.failures <= t.failures
            && (forall i :: |s.failures| <= i < |t.failures| ==> t.failures[i].at == now)
            && (forall w :: 0 <= w < slots ==> (t.underWay[w].Some? <==> w >= n))
  {
    RunKeeps(slots, events, 0);
    if n == 0 {
      r := events;
    } else {
      var before := FailSome(slots, events, now, n - 1);
      RunKeeps(slots, before, 0);
      Append(slots, before, Finish(n - 1, now, false));
      r := before + [Finish(n - 1, now, false)];
    }
  }

  /** Every slot tries one password at the same moment. */
  lemma Round(slots: nat, events: seq<Event>, now: int) returns (r: seq<Event>)
    requires slots > 0 && Quiet(slots, events, now) && !Locked(Run(slots, events).row, now) && (events == [] ==> now == 0)
    ensures Quiet(slots, r, now) && r != []
    ensures var f, g := Run(slots, events).failures, Run(slots, r).failures;
            |g| == |f| + slots && f <= g && forall i :: |f| <= i < |g| ==> g[i].at == now
  {
    var begun := BeginSome(slots, events, now, slots);
    r := FailSome(slots, begun, now, slots);
  }

  /** One slot tries one password while the others stay idle. */
  lemma Single(slots: nat, events: seq<Event>) returns (r: seq<Event>)
    requires slots > 0 && Quiet(slots, events, 0) && |Run(slots, events).failures| < MAX_FAILED_ATTEMPTS
    ensures Quiet(slots, r, 0) && r != []
    ensures |Run(slots, r).failures| == |Run(slots, events).failures| + 1
    ensures Run(slots, events).failures <= Run(slots, r).failures
  {
    RunKeeps(slots, events, 0);
    Append(slots, events, Begin(0, 0));
    Append(slots, events + [Begin(0, 0)], Finish(0, 0, false));
    r := events + [Begin(0, 0)] + [Finish(0, 0, false)];
  }

  lemma {:induction false} Singles(slots: nat, n: nat) returns (r: seq<Event>)
    requires slots > 0 && n < MAX_FAILED_ATTEMPTS
    ensures Quiet(slots, r, 0) && |Run(slots, r).failures| == n
  {
    if n == 0 {
      r := [];
    } else {
      var before := Singles(slots, n - 1);
      r := Single(slots, before);
    }
  }

  /** For every number of slots and every multiple of the lockout time some run tries
      as many passwords as the bound allows. */
  lemma {:induction false} BoundIsReached(slots: nat, m: nat) returns (r: seq<Event>)
    requires slots > 0
    ensures Quiet(slots, r, m * LOCKOUT_MS) && r != []
    ensures var f := Run(slots, r).failures;
            |f| == MAX_FAILED_ATTEMPTS - 1 + slots * (1 + m) && f[MAX_FAILED_ATTEMPTS - 1].at == 0 && f[|f| - 1].at == m * LOCKOUT_MS
  {
    if m == 0 {
      r := FirstRound(slots);
    } else {
      var before := BoundIsReached(slots, m - 1);
      r := NextRound(slots, before, m);
      assert slots * (1 + m) == slots * m + slots;
    }
  }

  lemma FirstRound(slots: nat) returns (r: seq<Event>)
    requires slots > 0
    ensures Quiet(slots, r, 0) && r != []
    ensures var f := Run(slots, r).failures;
            |f| == MAX_FAILED_ATTEMPTS - 1 + slots && f[MAX_FAILED_ATTEMPTS - 1].at == 0 && f[|f| - 1].at == 0
  {
    var four := Singles(slots, MAX_FAILED_ATTEMPTS - 1);
    RunKeeps(slots, four, 0);
    r := Round(slots, four, 0);
  }

  lemma NextRound(slots: nat, events: seq<Event>, m: nat) returns (r: seq<Event>)
    requires slots > 0 && m > 0 && Quiet(slots, events, (m - 1) * LOCKOUT_MS) && events != []
    requires var f := Run(slots, events).failures; |f| >= MAX_FAILED_ATTEMPTS && f[|f| - 1].at == (m - 1) * LOCKOUT_MS
    ensures Quiet(slots, r, m * LOCKOUT_MS) && r != []
    ensures var f, g := Run(slots, events).failures, Run(slots, r).failures;
            |g| == |f| + slots && g[MAX_FAILED_ATTEMPTS - 1] == f[MAX_FAILED_ATTEMPTS - 1] && g[|g| - 1].at == m * LOCKOUT_MS
  {
    RunKeeps(slots, events, 0);
    assert m * LOCKOUT_MS == (m - 1) * LOCKOUT_MS + LOCKOUT_MS;
    r := Round(slots, events, m * LOCKOUT_MS);
  }
}
