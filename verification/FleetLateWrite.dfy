/** What the PROCESSING write at the end of createBatchExport can do to an export that
    has been claimed already: exactly when it lets a second job claim it, and exactly
    when it hides the archive. */
module FleetLateWrite {
  import opened FleetProtocol
  import opened FleetSafety
  import opened FleetRuns

  // ----- a second claim -----

  /** The row is, or can still be made, open again. */
  predicate Reopenable(s: State) { s.creatorDone ==> s.row.status.Open() }

  predicate Trying(job: Job) { job.pc.Read? || job.pc.TryClaim? }

  /** Another job than the claimer's has still to try. */
  ghost predicate OtherTries(s: State, j: nat) {
    s.first.Some? && j < |s.jobs| && j != s.first.value.owner && Trying(s.jobs[j])
  }

  ghost predicate SecondClaimOpen(s: State) {
    && Reopenable(s)
    && s.row.completedCount + s.row.failedCount == s.row.totalCount
    && exists j :: OtherTries(s, j)
  }

  ghost predicate CanClaimAgain(s: State) {
    exists more :: FaultFree(more) && Exec(s, more).claims == 2
  }

  /** The late write comes, if it is still to come, and job j tries. */
  lemma ClaimAgain(s: State, j: nat, ids: seq<PolicyId>)
    requires Distinct(ids) && Inv(s, ids) && s.claims == 1 && SecondClaimOpen(s) && OtherTries(s, j)
    ensures CanClaimAgain(s)
  {
    var r, a := [], s;
    if !s.creatorDone { r, a := MarkNow(s, r, a); }
    if a.jobs[j].pc.Read? { r, a := ReadNow(s, r, a, j); }
    r, a := ClaimNow(s, r, a, j);
  }

  lemma ExecFaultFree(s: State, more: seq<Label>)
    requires FaultFree(more) && more != []
    ensures FaultFree(more[..|more| - 1]) && (more[|more| - 1].Handler? ==> !more[|more| - 1].o.ReadFault?)
  {
    assert more[|more| - 1] in more;
  }

  lemma OnlyWhenOpen(s: State, j: nat, o: Outcome, ids: seq<PolicyId>)
    requires Distinct(ids) && Inv(s, ids) && s.claims == 1 && Claims(s, j, o)
    ensures SecondClaimOpen(s)
  {
    OwnerNeverClaims(s, o, ids);
    assert OtherOk(s.jobs[j], s.first.value.jobs[j], s.row.totalCount);
    assert OtherTries(s, j);
  }

  lemma StaysUnopenable(s: State, j: nat, o: Outcome)
    requires j < |s.jobs| && !Reopenable(s)
    ensures !Reopenable(HandlerStep(s, j, o))
  {
  }

  lemma StaysOverfull(s: State, j: nat, o: Outcome)
    requires j < |s.jobs| && s.row.completedCount + s.row.failedCount > s.row.totalCount
    ensures var r := HandlerStep(s, j, o).row; r.completedCount + r.failedCount > r.totalCount
  {
    StepCounts(s.row, s.jobs[j], o);
  }

  lemma NobodyStarts(s: State, j: nat, o: Outcome, k: nat)
    requires Claimed(s) && j < |s.jobs| && !OtherTries(s, k)
    ensures !OtherTries(HandlerStep(s, j, o), k)
  {
    if j == k && j != s.first.value.owner { assert s.jobs[j].pc.Done?; }
  }

  /** A step that does not claim opens nothing. */
  lemma StaysClosed(s: State, l: Label, ids: seq<PolicyId>)
    requires Distinct(ids) && Inv(s, ids) && s.claims == 1 && !SecondClaimOpen(s)
    ensures Next(s, l).claims == 1 && !SecondClaimOpen(Next(s, l))
  {
    CountersAfterClaim(s, ids);
    if l.Handler? && l.j < |s.jobs| {
      if Claims(s, l.j, l.o) { OnlyWhenOpen(s, l.j, l.o, ids); }
      if !Reopenable(s) {
        StaysUnopenable(s, l.j, l.o);
      } else if s.row.completedCount + s.row.failedCount != s.row.totalCount {
        StaysOverfull(s, l.j, l.o);
      } else {
        forall k ensures !OtherTries(HandlerStep(s, l.j, l.o), k) { NobodyStarts(s, l.j, l.o, k); }
      }
    } else {
      assert forall k :: OtherTries(Next(s, l), k) ==> OtherTries(s, k);
    }
  }

  lemma {:induction false} NeverClaimedAgain(s: State, more: seq<Label>, ids: seq<PolicyId>)
    requires Distinct(ids) && Inv(s, ids) && s.claims == 1 && !SecondClaimOpen(s) && FaultFree(more)
    ensures var t := Exec(s, more); Inv(t, ids) && t.claims == 1 && !SecondClaimOpen(t)
    decreases |more|
  {
    if more != [] {
      var init, l := more[..|more| - 1], more[|more| - 1];
      ExecFaultFree(s, more);
      NeverClaimedAgain(s, init, ids);
      StaysClosed(Exec(s, init), l, ids);
      InvStep(Exec(s, init), l, ids);
    }
  }

  /** After the first claim of a run a second one can still come exactly when the late
      write has hit the claimed row or is still to come, the counters are exactly full,
      and another job than the claimer's is at its read or its conditional UPDATE. */
  lemma SecondClaimExactlyWhen(ids: seq<PolicyId>, run: seq<Label>)
    requires Distinct(ids) && FaultFree(run) && Exec(Created(ids), run).claims == 1
    ensures CanClaimAgain(Exec(Created(ids), run)) <==> SecondClaimOpen(Exec(Created(ids), run))
  {
    Reachable(ids, run);
    var s := Exec(Created(ids), run);
    if SecondClaimOpen(s) {
      var j :| OtherTries(s, j);
      ClaimAgain(s, j, ids);
    } else {
      forall more | FaultFree(more) ensures Exec(s, more).claims == 1 { NeverClaimedAgain(s, more, ids); }
    }
  }

  // ----- which batches can be claimed twice -----

  lemma LateWriteAllowsSecondClaim(ids: seq<PolicyId>) returns (run: seq<Label>)
    requires |ids| >= 2
    ensures FaultFree(run) && Exec(Created(ids), run).claims == 2
  {
    var s, a := Created(ids), Created(ids);
    run, a := CountFirst(ids, |ids|);
    run, a := ReadNow(s, run, a, 0);
    run, a := ReadNow(s, run, a, 1);
    run, a := ClaimNow(s, run, a, 0);
    run, a := MarkNow(s, run, a);
    run, a := ClaimNow(s, run, a, 1);
  }

  lemma {:induction false} TwoClaimsTakeTwoJobs(ids: seq<PolicyId>, run: seq<Label>)
    requires Distinct(ids) && FaultFree(run) && |ids| < 2
    ensures Exec(Created(ids), run).claims <= 1
    decreases |run|
  {
    if run != [] {
      var init, l := run[..|run| - 1], run[|run| - 1];
      ExecFaultFree(Created(ids), run);
      TwoClaimsTakeTwoJobs(ids, init);
      Reachable(ids, init);
      var s := Exec(Created(ids), init);
      if l.Handler? && s.claims == 1 { OwnerNeverClaims(s, l.o, ids); }
    }
  }

  /** Every batch of two policies or more has a run in which it is claimed twice. */
  lemma ClaimedTwiceExactlyWhen(ids: seq<PolicyId>)
    requires Distinct(ids)
    ensures (exists run :: FaultFree(run) && Exec(Created(ids), run).claims == 2) <==> |ids| >= 2
  {
    if |ids| >= 2 {
      var run := LateWriteAllowsSecondClaim(ids);
    } else {
      forall run | FaultFree(run) ensures Exec(Created(ids), run).claims <= 1 { TwoClaimsTakeTwoJobs(ids, run); }
    }
  }

  // ----- a hidden archive -----

  /** The label at position m is the PROCESSING write of createBatchExport. */
  predicate MarksAt(ids: seq<PolicyId>, run: seq<Label>, m: nat) {
    m < |run| && run[m].MarkProcessing? && !Exec(Created(ids), run[..m]).creatorDone
  }

  /** The label at position p publishes an assembly. */
  predicate PublishesAt(ids: seq<PolicyId>, run: seq<Label>, p: nat) {
    p < |run| && run[p].Handler? && Publishes(Exec(Created(ids), run[..p]), run[p].j, run[p].o)
  }

  /** Something marked comes after everything published. */
  ghost predicate ComesLast(marks: nat -> bool, publishes: nat -> bool) {
    exists m: nat :: marks(m) && forall p: nat :: m < p ==> !publishes(p)
  }

  ghost predicate MarkedLast(ids: seq<PolicyId>, run: seq<Label>) {
    ComesLast((m: nat) => MarksAt(ids, run, m), (p: nat) => PublishesAt(ids, run, p))
  }

  lemma PositionsKept(ids: seq<PolicyId>, run: seq<Label>, k: nat)
    requires k + 1 < |run|
    ensures MarksAt(ids, run, k) <==> MarksAt(ids, run[..|run| - 1], k)
    ensures PublishesAt(ids, run, k) <==> PublishesAt(ids, run[..|run| - 1], k)
  {
    assert run[..|run| - 1][..k] == run[..k];
  }

  /** One more position, n. */
  lemma ComesLastStep(marks: nat -> bool, publishes: nat -> bool, marks': nat -> bool, publishes': nat -> bool, n: nat)
    requires forall k: nat :: 0 <= k < n ==> marks'(k) == marks(k) && publishes'(k) == publishes(k)
    requires forall k: nat :: n < k ==> !publishes'(k) && !marks'(k)
    requires forall k: nat :: n <= k ==> !publishes(k) && !marks(k)
    ensures ComesLast(marks', publishes') <==> marks'(n) || (!publishes'(n) && ComesLast(marks, publishes))
  {
    if ComesLast(marks', publishes') && !marks'(n) {
      var m: nat :| marks'(m) && forall p: nat :: m < p ==> !publishes'(p);
      assert !publishes'(n) && marks(m);
    }
    if !publishes'(n) && ComesLast(marks, publishes) {
      var m: nat :| marks(m) && forall p: nat :: m < p ==> !publishes(p);
      assert marks'(m) && forall p: nat :: m < p ==> !publishes'(p);
    }
  }

  lemma MarkedLastStep(ids: seq<PolicyId>, run: seq<Label>)
    requires run != []
    ensures var n := |run| - 1;
            MarkedLast(ids, run) <==>
              MarksAt(ids, run, n) || (!PublishesAt(ids, run, n) && MarkedLast(ids, run[..n]))
  {
    var n := |run| - 1;
    forall k | 0 <= k < n
      ensures MarksAt(ids, run[..n], k) == MarksAt(ids, run, k) && PublishesAt(ids, run[..n], k) == PublishesAt(ids, run, k)
    {
      PositionsKept(ids, run, k);
    }
    ComesLastStep((m: nat) => MarksAt(ids, run[..n], m), (p: nat) => PublishesAt(ids, run[..n], p),
                  (m: nat) => MarksAt(ids, run, m), (p: nat) => PublishesAt(ids, run, p), n);
  }

  /** Who assembles has claimed. */
  predicate Assembles(job: Job) { job.pc.Load? || job.pc.Write? || job.pc.Notify? }

  ghost predicate HiddenInv(s: State, markedLast: bool) {
    && ClaimInv(s)
    && (forall j :: 0 <= j < |s.jobs| && Assembles(s.jobs[j]) ==> s.claims > 0)
    && (s.assembled.Some? ==> s.claims > 0 && (s.row.status.Processing? <==> s.claims == 1 && markedLast))
  }

  lemma HiddenHandlerStep(s: State, j: nat, o: Outcome, markedLast: bool)
    requires HiddenInv(s, markedLast) && j < |s.jobs|
    ensures HiddenInv(HandlerStep(s, j, o), markedLast && !Publishes(s, j, o))
  {
    ClaimStep(s, Handler(j, o));
  }

  lemma {:induction false} HiddenInvHolds(ids: seq<PolicyId>, run: seq<Label>)
    ensures HiddenInv(Exec(Created(ids), run), MarkedLast(ids, run))
    decreases |run|
  {
    if run != [] {
      var init, l := run[..|run| - 1], run[|run| - 1];
      var s := Exec(Created(ids), init);
      HiddenInvHolds(ids, init);
      MarkedLastStep(ids, run);
      ClaimStep(s, l);
      if l.Handler? && l.j < |s.jobs| { HiddenHandlerStep(s, l.j, l.o, MarkedLast(ids, init)); }
    }
  }

  /** In every run, whatever fails: after an assembly the export stays PROCESSING, and
      its archive out of reach, exactly when the late write came after the last
      publication and no second job has claimed since. */
  lemma HiddenExactlyWhen(ids: seq<PolicyId>, run: seq<Label>)
    requires Exec(Created(ids), run).assembled.Some?
    ensures var s := Exec(Created(ids), run); s.row.status.Processing? <==> s.claims == 1 && MarkedLast(ids, run)
  {
    HiddenInvHolds(ids, run);
  }

  // ----- which batches can end hidden -----

  /** The first k handlers are done, the others have counted and are about to read. */
  predicate DoneUpTo(a: State, row: Row, k: nat) {
    && a.row == row && k <= |a.jobs| == |row.policyIds| && !a.creatorDone
    && forall i :: 0 <= i < |a.jobs| ==> if i < k then a.jobs[i].pc.Done? else a.jobs[i].pc.Read?
  }

  lemma {:induction false} FinishOthers(s: State, run: seq<Label>, a: State, row: Row, k: nat) returns (longer: seq<Label>, b: State)
    requires Exec(s, run) == a && FaultFree(run) && DoneUpTo(a, row, k) && !row.status.Open()
    ensures Exec(s, longer) == b && FaultFree(longer) && DoneUpTo(b, row, |row.policyIds|)
    decreases |a.jobs| - k
  {
    longer, b := run, a;
    if k < |a.jobs| {
      longer, b := ReadNow(s, longer, b, k);
      longer, b := MoveOne(s, longer, b, k, Works({}));
      longer, b := FinishOthers(s, longer, b, row, k + 1);
    }
  }

  ghost predicate EndsHidden(s: State) {
    && (forall i :: 0 <= i < |s.jobs| ==> s.jobs[i].pc.Done?)
    && s.creatorDone && s.row.status.Processing? && s.row.zip.Some?
  }

  lemma LateWriteHidesTheArchive(ids: seq<PolicyId>) returns (run: seq<Label>)
    requires ids != []
    ensures FaultFree(run) && EndsHidden(Exec(Created(ids), run))
  {
    var s, a := Created(ids), Created(ids);
    run, a := CountFirst(ids, |ids|);
    run, a := ReadNow(s, run, a, 0);
    run, a := ClaimNow(s, run, a, 0);
    run, a := AssembleNow(s, run, a, 0);
    run, a := FinishOthers(s, run, a, a.row, 1);
    run, a := MarkNow(s, run, a);
  }

  /** Every batch that is not empty has a run in which all handlers finish, nothing
      fails, and the finished archive is never shown. */
  lemma EndsHiddenExactlyWhen(ids: seq<PolicyId>)
    requires Distinct(ids)
    ensures (exists run :: FaultFree(run) && EndsHidden(Exec(Created(ids), run))) <==> ids != []
  {
    if ids != [] {
      var run := LateWriteHidesTheArchive(ids);
    } else {
      forall run | FaultFree(run) ensures Exec(Created(ids), run).row.zip.None? {
        Reachable(ids, run);
        TwoClaimsTakeTwoJobs(ids, run);
      }
    }
  }
}
