/** The batch-PDF completion protocol of a fleet export.

    One export row is shared by one queue job per policy. Every database
    statement is one atomic step; the jobs interleave between statements. A run
    is a sequence of labels, each naming the process that moves and whether its
    current statement works or throws. A label that is not enabled leaves the
    state alone, so every sequence of labels is a run and every run is one.
 */
module FleetProtocol {
  import opened Wrappers

  type PolicyId = nat

  /** The queue delivers a job whose handler threw again, up to this many times. */
  const MAX_ATTEMPTS := 3

  datatype Status = Pending | Processing | Assembling | Completed | Partial | Failed {
    /** The statuses from which the conditional UPDATE may claim the assembly. */
    predicate Open() { Pending? || Processing? }
  }

  datatype Row = Row(
    policyIds: seq<PolicyId>,
    totalCount: nat,
    status: Status,
    completedCount: nat,
    failedCount: nat,
    failedPolicyIds: seq<PolicyId>,
    zip: Option<seq<PolicyId>>
  )

  // ----- the statements of the repository, as functions of the row -----

  function CreatedRow(ids: seq<PolicyId>): Row {
    Row(ids, |ids|, Pending, 0, 0, [], None)
  }

  function CountCompleted(r: Row): Row { r.(completedCount := r.completedCount + 1) }

  function CountFailed(r: Row, id: PolicyId): Row {
    r.(failedCount := r.failedCount + 1, failedPolicyIds := r.failedPolicyIds + [id])
  }

  predicate Claimable(r: Row, total: nat) {
    r.status.Open() && r.completedCount + r.failedCount == total
  }

  function SetStatus(r: Row, status: Status): Row { r.(status := status) }

  function SetZipReady(r: Row, zip: seq<PolicyId>, status: Status): Row {
    r.(zip := Some(zip), status := status)
  }

  // ----- what the claimer computes from the row it re-reads -----

  function Without(ids: seq<PolicyId>, failed: seq<PolicyId>): seq<PolicyId> {
    if ids == [] then []
    else (if ids[0] in failed then [] else [ids[0]]) + Without(ids[1..], failed)
  }

  function Restrict(ids: seq<PolicyId>, hasPdf: set<PolicyId>): seq<PolicyId> {
    if ids == [] then []
    else (if ids[0] in hasPdf then [ids[0]] else []) + Restrict(ids[1..], hasPdf)
  }

  /** The files put into the archive: completed policies whose PDF is stored. */
  function ZipOf(snapshot: Row, hasPdf: set<PolicyId>): seq<PolicyId> {
    Restrict(Without(snapshot.policyIds, snapshot.failedPolicyIds), hasPdf)
  }

  function FinalStatus(snapshot: Row): Status {
    if snapshot.completedCount == 0 then Failed
    else if snapshot.completedCount == snapshot.totalCount then Completed
    else Partial
  }

  /** The last write of the assembly, made on the current row from the snapshot. */
  function Publish(r: Row, snapshot: Row, hasPdf: set<PolicyId>): Row {
    if snapshot.completedCount == 0
    then SetStatus(r, Failed)
    else SetZipReady(r, ZipOf(snapshot, hasPdf), FinalStatus(snapshot))
  }

  // ----- one handler -----

  /** The next statement of a handler. */
  datatype Pc =
    | Generate              // generate and upload the policy's PDF
    | CountOk               // incrementCompleted
    | CountBad              // incrementFailed, in the catch block
    | Read                  // findByIdRaw in tryAssemble
    | TryClaim(total: nat)  // the conditional UPDATE
    | Load                  // findByIdRaw in assembleBatchZip
    | Write(snapshot: Row)  // build, upload, and the final status
    | Notify                // tell the broker
    | Done
    | Threw                 // the handler rejected; the queue may deliver it again

  /** `ok` and `bad` record how often this job has incremented each counter. */
  datatype Job = Job(id: PolicyId, pc: Pc, inCatch: bool, attempt: nat, ok: nat, bad: nat)

  /** How the current statement ends. `Throws` covers PDF generation, the two
      increments and everything in the assembly; `ReadFault` is a failure of one
      of the two statements between an increment and the claim. */
  datatype Outcome = Works(hasPdf: set<PolicyId>) | Throws | ReadFault

  /** An exception leaves the try block for the catch block, and the catch block
      for the queue. */
  function Raise(job: Job): Job {
    if job.inCatch then job.(pc := Threw) else job.(inCatch := true, pc := CountBad)
  }

  function Throwing(job: Job): Job {
    if job.pc in {Done, Threw} then job else Raise(job)
  }

  /** One statement of a handler: the new row and the handler's new state. */
  function JobStep(r: Row, job: Job, o: Outcome): (Row, Job) {
    match o
    case ReadFault => (r, if job.pc.Read? || job.pc.TryClaim? then Raise(job) else job)
    case Throws => (r, if job.pc.Read? || job.pc.TryClaim? then job else Throwing(job))
    case Works(hasPdf) =>
      match job.pc
      case Generate => (r, job.(pc := CountOk))
      case CountOk => (CountCompleted(r), job.(pc := Read, ok := job.ok + 1))
      case CountBad => (CountFailed(r, job.id), job.(pc := Read, bad := job.bad + 1))
      case Read => (r, job.(pc := TryClaim(r.totalCount)))
      case TryClaim(total) =>
        if Claimable(r, total) then (SetStatus(r, Assembling), job.(pc := Load))
        else (r, job.(pc := Done))
      case Load => (r, job.(pc := Write(r)))
      case Write(snapshot) => (Publish(r, snapshot, hasPdf), job.(pc := Notify))
      case Notify => (r, job.(pc := Done))
      case Done => (r, job)
      case Threw =>
        (r, if job.attempt < MAX_ATTEMPTS
            then job.(pc := Generate, inCatch := false, attempt := job.attempt + 1)
            else job)
  }

  // ----- the whole system -----

  /** The state at the first claim, kept for the statements about it. */
  datatype Claim = Claim(row: Row, jobs: seq<Job>, owner: nat)

  /** `creatorDone`: createBatchExport has made its late PROCESSING write.
      `overwritten`: that write hit a row that had already been claimed. */
  datatype State = State(
    row: Row,
    jobs: seq<Job>,
    creatorDone: bool,
    overwritten: bool,
    claims: nat,
    first: Option<Claim>,
    assembled: Option<set<PolicyId>>
  )

  datatype Label = MarkProcessing | Handler(j: nat, o: Outcome)

  function NewJob(id: PolicyId): Job { Job(id, Generate, false, 1, 0, 0) }

  function NewJobs(ids: seq<PolicyId>): (jobs: seq<Job>)
    ensures |jobs| == |ids| && forall i :: 0 <= i < |ids| ==> jobs[i] == NewJob(ids[i])
  {
    seq(|ids|, i requires 0 <= i < |ids| => NewJob(ids[i]))
  }

  /** The row is saved and the jobs are queued; the PROCESSING write is still to come. */
  function Created(ids: seq<PolicyId>): State {
    State(CreatedRow(ids), NewJobs(ids), false, false, 0, None, None)
  }

  predicate Claims(s: State, j: nat, o: Outcome) {
    j < |s.jobs| && o.Works? && s.jobs[j].pc.TryClaim? && Claimable(s.row, s.jobs[j].pc.total)
  }

  predicate Publishes(s: State, j: nat, o: Outcome) {
    j < |s.jobs| && o.Works? && s.jobs[j].pc.Write?
  }

  function HandlerStep(s: State, j: nat, o: Outcome): State
    requires j < |s.jobs|
  {
    var (row, job) := JobStep(s.row, s.jobs[j], o);
    var jobs := s.jobs[j := job];
    State(row, jobs, s.creatorDone, s.overwritten,
          if Claims(s, j, o) then s.claims + 1 else s.claims,
          if Claims(s, j, o) && s.first.None? then Some(Claim(row, jobs, j)) else s.first,
          if Publishes(s, j, o) then Some(o.hasPdf) else s.assembled)
  }

  function Next(s: State, l: Label): State {
    match l
    case MarkProcessing =>
      if s.creatorDone then s
      else s.(creatorDone := true, overwritten := !s.row.status.Open(), row := SetStatus(s.row, Processing))
    case Handler(j, o) =>
      if j < |s.jobs| then HandlerStep(s, j, o) else s
  }

  function Exec(s: State, run: seq<Label>): State
    decreases |run|
  {
    if run == [] then s else Next(Exec(s, run[..|run| - 1]), run[|run| - 1])
  }

  lemma ExecSnoc(s: State, run: seq<Label>, l: Label)
    ensures Exec(s, run + [l]) == Next(Exec(s, run), l)
  {
    assert (run + [l])[..|run|] == run;
  }

  // ----- counting -----

  function SumOk(jobs: seq<Job>): nat {
    if jobs == [] then 0 else jobs[0].ok + SumOk(jobs[1..])
  }

  function SumBad(jobs: seq<Job>): nat {
    if jobs == [] then 0 else jobs[0].bad + SumBad(jobs[1..])
  }

  lemma {:induction false} SumUpdate(jobs: seq<Job>, j: nat, job: Job)
    requires j < |jobs|
    ensures SumOk(jobs[j := job]) == SumOk(jobs) - jobs[j].ok + job.ok
    ensures SumBad(jobs[j := job]) == SumBad(jobs) - jobs[j].bad + job.bad
  {
    if j == 0 {
      assert jobs[j := job][1..] == jobs[1..];
    } else {
      assert jobs[j := job][1..] == jobs[1..][j - 1 := job];
      SumUpdate(jobs[1..], j - 1, job);
    }
  }

  /** If no job has contributed more than once, the counters reach the total
      exactly when every job has contributed once. */
  lemma {:induction false} FullCount(jobs: seq<Job>)
    requires forall i :: 0 <= i < |jobs| ==> jobs[i].ok + jobs[i].bad <= 1
    ensures SumOk(jobs) + SumBad(jobs) <= |jobs|
    ensures SumOk(jobs) + SumBad(jobs) == |jobs| <==> forall i :: 0 <= i < |jobs| ==> jobs[i].ok + jobs[i].bad == 1
  {
    if jobs != [] {
      FullCount(jobs[1..]);
      assert forall i :: 0 < i < |jobs| ==> jobs[i] == jobs[1..][i - 1];
      if SumOk(jobs) + SumBad(jobs) == |jobs| {
        assert jobs[0].ok + jobs[0].bad == 1;
        forall i | 0 <= i < |jobs| ensures jobs[i].ok + jobs[i].bad == 1 {
          if i > 0 { assert jobs[i] == jobs[1..][i - 1]; }
        }
      }
    }
  }

  lemma {:induction false} SumsPositive(jobs: seq<Job>)
    ensures SumOk(jobs) > 0 <==> exists i :: 0 <= i < |jobs| && jobs[i].ok > 0
    ensures SumBad(jobs) > 0 <==> exists i :: 0 <= i < |jobs| && jobs[i].bad > 0
  {
    if jobs != [] {
      SumsPositive(jobs[1..]);
      assert forall i :: 0 < i < |jobs| ==> jobs[i] == jobs[1..][i - 1];
      assert forall i :: 0 <= i < |jobs[1..]| ==> jobs[1..][i] == jobs[i + 1];
    }
  }
}
