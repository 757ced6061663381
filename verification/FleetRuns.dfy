/** Pieces of runs: what one handler does when nothing comes between. */
module FleetRuns {
  import opened FleetProtocol
  import opened FleetSafety

  /** Handler j makes its next statement. */
  lemma MoveOne(s: State, run: seq<Label>, a: State, j: nat, o: Outcome) returns (longer: seq<Label>, b: State)
    requires Exec(s, run) == a && j < |a.jobs|
    ensures FaultFree(run) && !o.ReadFault? ==> FaultFree(longer)
    ensures Exec(s, longer) == b
    ensures var (row, job) := JobStep(a.row, a.jobs[j], o); b.row == row && b.jobs == a.jobs[j := job]
    ensures b.claims == (if Claims(a, j, o) then a.claims + 1 else a.claims) && b.creatorDone == a.creatorDone
  {
    ExecSnoc(s, run, Handler(j, o));
    longer, b := run + [Handler(j, o)], HandlerStep(a, j, o);
  }

  /** Job j has its counter incremented and reads the row. */
  lemma ReadNow(s: State, run: seq<Label>, a: State, j: nat) returns (longer: seq<Label>, b: State)
    requires Exec(s, run) == a && j < |a.jobs| && a.jobs[j].pc.Read?
    ensures FaultFree(run) ==> FaultFree(longer)
    ensures Exec(s, longer) == b
    ensures b.row == a.row && b.jobs == a.jobs[j := a.jobs[j].(pc := TryClaim(a.row.totalCount))]
    ensures b.claims == a.claims && b.creatorDone == a.creatorDone
  {
    longer, b := MoveOne(s, run, a, j, Works({}));
  }

  /** Job j generates its PDF and counts it. */
  lemma GenerateAndCount(s: State, run: seq<Label>, a: State, j: nat) returns (longer: seq<Label>, b: State)
    requires Exec(s, run) == a && j < |a.jobs| && a.jobs[j].pc.Generate?
    ensures FaultFree(run) ==> FaultFree(longer)
    ensures Exec(s, longer) == b
    ensures b.row == CountCompleted(a.row) && b.jobs == a.jobs[j := a.jobs[j].(pc := Read, ok := a.jobs[j].ok + 1)]
    ensures b.claims == a.claims && b.creatorDone == a.creatorDone
  {
    longer, b := MoveOne(s, run, a, j, Works({}));
    longer, b := MoveOne(s, longer, b, j, Works({}));
  }

  /** Job j's conditional UPDATE succeeds. */
  lemma ClaimNow(s: State, run: seq<Label>, a: State, j: nat) returns (longer: seq<Label>, b: State)
    requires Exec(s, run) == a && j < |a.jobs| && a.jobs[j].pc.TryClaim? && Claimable(a.row, a.jobs[j].pc.total)
    ensures FaultFree(run) ==> FaultFree(longer)
    ensures Exec(s, longer) == b
    ensures b.row == SetStatus(a.row, Assembling) && b.jobs == a.jobs[j := a.jobs[j].(pc := Load)]
    ensures b.claims == a.claims + 1 && b.creatorDone == a.creatorDone
  {
    longer, b := MoveOne(s, run, a, j, Works({}));
  }

  /** createBatchExport makes its late write. */
  lemma MarkNow(s: State, run: seq<Label>, a: State) returns (longer: seq<Label>, b: State)
    requires Exec(s, run) == a && !a.creatorDone
    ensures FaultFree(run) ==> FaultFree(longer)
    ensures Exec(s, longer) == b
    ensures b.row == SetStatus(a.row, Processing) && b.jobs == a.jobs && b.claims == a.claims && b.creatorDone
  {
    ExecSnoc(s, run, MarkProcessing);
    longer, b := run + [MarkProcessing], Next(a, MarkProcessing);
  }

  /** The claimer re-reads the row and publishes the archive. */
  lemma PublishNow(s: State, run: seq<Label>, a: State, j: nat) returns (longer: seq<Label>, b: State)
    requires Exec(s, run) == a && j < |a.jobs| && a.jobs[j].pc.Load?
    ensures FaultFree(run) ==> FaultFree(longer)
    ensures Exec(s, longer) == b
    ensures b.jobs == a.jobs[j := a.jobs[j].(pc := Notify)] && b.row == Publish(a.row, a.row, {})
    ensures b.creatorDone == a.creatorDone
  {
    longer, b := MoveOne(s, run, a, j, Works({}));
    longer, b := MoveOne(s, longer, b, j, Works({}));
  }

  /** ... and finishes. */
  lemma AssembleNow(s: State, run: seq<Label>, a: State, j: nat) returns (longer: seq<Label>, b: State)
    requires Exec(s, run) == a && j < |a.jobs| && a.jobs[j].pc.Load?
    ensures FaultFree(run) ==> FaultFree(longer)
    ensures Exec(s, longer) == b
    ensures b.jobs == a.jobs[j := a.jobs[j].(pc := Done)] && b.row == Publish(a.row, a.row, {})
    ensures b.creatorDone == a.creatorDone
  {
    longer, b := PublishNow(s, run, a, j);
    longer, b := MoveOne(s, longer, b, j, Works({}));
  }

  /** The claim of job j fails to run; the catch block counts the job as failed. */
  lemma FaultThenCount(s: State, run: seq<Label>, a: State, j: nat) returns (longer: seq<Label>, b: State)
    requires Exec(s, run) == a && j < |a.jobs| && a.jobs[j].pc.TryClaim? && !a.jobs[j].inCatch
    ensures Exec(s, longer) == b
    ensures b.row == CountFailed(a.row, a.jobs[j].id) && b.claims == a.claims
    ensures b.jobs == a.jobs[j := a.jobs[j].(pc := Read, inCatch := true, bad := a.jobs[j].bad + 1)]
  {
    longer, b := MoveOne(s, run, a, j, ReadFault);
    longer, b := MoveOne(s, longer, b, j, Works({}));
  }

  /** The first k jobs have generated their PDF and counted it. */
  predicate CountedUpTo(a: State, ids: seq<PolicyId>, k: nat)
    requires k <= |ids|
  {
    && a.row == CreatedRow(ids).(completedCount := k) && |a.jobs| == |ids| && a.claims == 0 && !a.creatorDone
    && forall i :: 0 <= i < |ids| ==> a.jobs[i] == if i < k then NewJob(ids[i]).(pc := Read, ok := 1) else NewJob(ids[i])
  }

  lemma {:induction false} CountFirst(ids: seq<PolicyId>, k: nat) returns (run: seq<Label>, a: State)
    requires k <= |ids|
    ensures FaultFree(run) && Exec(Created(ids), run) == a && CountedUpTo(a, ids, k)
  {
    if k == 0 {
      run, a := [], Created(ids);
    } else {
      run, a := CountFirst(ids, k - 1);
      run, a := GenerateAndCount(Created(ids), run, a, k - 1);
    }
  }
}
