/** What every run of the batch-PDF protocol keeps, and what it ends with. */
module FleetSafety {
  import opened Wrappers
  import opened FleetProtocol
  import opened Selections

  predicate Distinct(ids: seq<PolicyId>) {
    forall i, k :: 0 <= i < k < |ids| ==> ids[i] != ids[k]
  }

  /** No statement between an increment and the claim failed. */
  predicate FaultFree(run: seq<Label>) {
    forall l :: l in run ==> l.Handler? ==> !l.o.ReadFault?
  }

  // ----- at most one claim -----

  /** Needs no assumption about faults, deliveries or distinctness. */
  ghost predicate ClaimInv(s: State) {
    && s.claims <= (if s.overwritten then 2 else 1)
    && (s.row.status.Open() ==> s.claims <= (if s.overwritten then 1 else 0))
    && (s.overwritten ==> s.creatorDone)
    && (s.claims > 0 <==> s.first.Some?)
  }

  lemma ClaimStep(s: State, l: Label)
    requires ClaimInv(s)
    ensures ClaimInv(Next(s, l))
  {
  }

  /** Assembly is claimed at most once in every run, unless the late PROCESSING
      write overwrites a claim; then it is claimed at most twice. */
  lemma {:induction false} AtMostOneClaim(ids: seq<PolicyId>, run: seq<Label>)
    ensures ClaimInv(Exec(Created(ids), run))
    ensures var s := Exec(Created(ids), run); s.claims <= (if s.overwritten then 2 else 1)
    decreases |run|
  {
    if run != [] {
      AtMostOneClaim(ids, run[..|run| - 1]);
      ClaimStep(Exec(Created(ids), run[..|run| - 1]), run[|run| - 1]);
    }
  }

  // ----- the counters, and the shape of the row before and after the claim -----

  ghost predicate Counted(r: Row, jobs: seq<Job>) {
    && |jobs| == |r.policyIds| == r.totalCount
    && (forall i :: 0 <= i < |jobs| ==> jobs[i].id == r.policyIds[i])
    && r.completedCount == SumOk(jobs)
    && r.failedCount == SumBad(jobs)
    && (forall i :: 0 <= i < |jobs| ==> (jobs[i].bad > 0 <==> jobs[i].id in r.failedPolicyIds))
  }

  /** A handler of a run in which nothing has been claimed yet. */
  predicate Fresh(job: Job, total: nat) {
    match job.pc
    case Generate | CountOk | CountBad | Threw => job.ok + job.bad == 0
    case Read | Done => job.ok + job.bad == 1
    case TryClaim(t) => job.ok + job.bad == 1 && t == total
    case Load | Write(_) | Notify => false
  }

  ghost predicate Unclaimed(s: State) {
    && s.row.status.Open() && s.row.zip.None? && s.assembled.None?
    && (forall i :: 0 <= i < |s.jobs| ==> Fresh(s.jobs[i], s.row.totalCount))
    && !s.overwritten
    // no lost wake-up: whoever made the counters full has yet to try the claim
    && (s.jobs != [] && SumOk(s.jobs) + SumBad(s.jobs) == |s.jobs|
        ==> exists i :: 0 <= i < |s.jobs| && (s.jobs[i].pc.Read? || s.jobs[i].pc.TryClaim?))
  }

  /** At the first claim every job has incremented exactly one counter, once. */
  ghost predicate WellClaimed(c: Claim, ids: seq<PolicyId>) {
    && Counted(c.row, c.jobs) && c.row.policyIds == ids
    && c.row.zip.None? && c.row.status.Assembling?
    && c.owner < |c.jobs|
    && forall i :: 0 <= i < |c.jobs| ==> c.jobs[i].ok + c.jobs[i].bad == 1
  }

  /** The row as it was claimed: only its status may have been overwritten since. */
  predicate AsClaimed(r: Row, c: Claim) { r.(status := Assembling) == c.row }

  /** What the claimer may do afterwards; a second delivery only counts again. */
  predicate OwnerOk(job: Job, s: State, c: Claim) {
    match job.pc
    case Load => AsClaimed(s.row, c) && s.assembled.None? && job.ok + job.bad == 1
    case Write(snapshot) => AsClaimed(snapshot, c) && s.assembled.None? && job.ok + job.bad == 1
    case Generate | CountOk | CountBad | Threw | Notify => job.ok + job.bad == 1
    case Read => job.ok + job.bad == 2
    case TryClaim(total) => job.ok + job.bad == 2 && total == s.row.totalCount
    case Done => 1 <= job.ok + job.bad <= 2
  }

  /** What the others may still do: try to claim, or nothing. */
  predicate OtherOk(job: Job, at: Job, total: nat) {
    job.ok == at.ok && job.bad == at.bad && (job.pc.Read? || job.pc == TryClaim(total) || job.pc.Done?)
  }

  /** The late PROCESSING write changes the status and nothing else. */
  ghost predicate Claimed(s: State) {
    && s.first.Some?
    && var c := s.first.value;
    && c.owner < |s.jobs| == |c.jobs|
    && (forall i :: 0 <= i < |s.jobs| && i != c.owner ==> OtherOk(s.jobs[i], c.jobs[i], s.row.totalCount))
    && OwnerOk(s.jobs[c.owner], s, c)
    && ((s.overwritten && s.row.status.Processing?)
        || s.row.status == if s.assembled.None? then Assembling else FinalStatus(c.row))
    && s.row.zip == if s.assembled.None? || c.row.completedCount == 0 then None else Some(ZipOf(c.row, s.assembled.value))
  }

  ghost predicate Inv(s: State, ids: seq<PolicyId>) {
    && ClaimInv(s)
    && s.row.policyIds == ids
    && Counted(s.row, s.jobs)
    && (s.first.Some? ==> WellClaimed(s.first.value, ids))
    && (s.claims == 0 ==> Unclaimed(s))
    && (s.claims == 1 ==> Claimed(s))
  }

  /** A statement changes at most one counter, and the job's own tally with it. */
  ghost predicate CountsTogether(r: Row, job: Job, r': Row, job': Job) {
    && job'.id == job.id && r'.policyIds == r.policyIds && r'.totalCount == r.totalCount
    && r'.completedCount - r.completedCount == job'.ok - job.ok >= 0
    && r'.failedCount - r.failedCount == job'.bad - job.bad >= 0
    && r'.failedPolicyIds == (if job'.bad > job.bad then r.failedPolicyIds + [job.id] else r.failedPolicyIds)
  }

  lemma StepCounts(r: Row, job: Job, o: Outcome)
    ensures CountsTogether(r, job, JobStep(r, job, o).0, JobStep(r, job, o).1)
  {
  }

  lemma CountedAfter(r: Row, jobs: seq<Job>, j: nat, r': Row, job': Job)
    requires Distinct(r.policyIds) && j < |jobs| && Counted(r, jobs) && CountsTogether(r, jobs[j], r', job')
    ensures Counted(r', jobs[j := job'])
  {
    SumUpdate(jobs, j, job');
    forall i | 0 <= i < |jobs| && i != j ensures jobs[i].id != jobs[j].id {
      assert r.policyIds[i] != r.policyIds[j];
    }
  }

  lemma CountedStep(s: State, j: nat, o: Outcome)
    requires Distinct(s.row.policyIds) && j < |s.jobs| && Counted(s.row, s.jobs)
    ensures Counted(HandlerStep(s, j, o).row, HandlerStep(s, j, o).jobs)
  {
    StepCounts(s.row, s.jobs[j], o);
    CountedAfter(s.row, s.jobs, j, JobStep(s.row, s.jobs[j], o).0, JobStep(s.row, s.jobs[j], o).1);
  }

  /** One statement of a handler before the claim. */
  lemma FreshStep(r: Row, job: Job, o: Outcome)
    requires Fresh(job, r.totalCount) && !o.ReadFault?
    requires !(o.Works? && job.pc.TryClaim? && Claimable(r, job.pc.total))
    ensures var (r', job') := JobStep(r, job, o);
            && Fresh(job', r.totalCount) && r'.status == r.status && r'.zip == r.zip
            && (job'.ok + job'.bad > job.ok + job.bad ==> job'.pc.Read?)
            && ((job.pc.Read? || job.pc.TryClaim?) && !(job'.pc.Read? || job'.pc.TryClaim?) ==>
                  r'.completedCount + r'.failedCount == r.completedCount + r.failedCount
                  && (r.status.Open() ==> r.completedCount + r.failedCount != r.totalCount))
  {
  }

  lemma UnclaimedStep(s: State, j: nat, o: Outcome, ids: seq<PolicyId>)
    requires Distinct(ids) && Inv(s, ids) && s.claims == 0 && j < |s.jobs|
    requires !o.ReadFault? && !Claims(s, j, o)
    ensures Unclaimed(HandlerStep(s, j, o))
  {
    FreshStep(s.row, s.jobs[j], o);
    StepCounts(s.row, s.jobs[j], o);
    var (row, job) := JobStep(s.row, s.jobs[j], o);
    var jobs := s.jobs[j := job];
    SumUpdate(s.jobs, j, job);
    if jobs != [] && SumOk(jobs) + SumBad(jobs) == |jobs| {
      SomeoneWillTry(s, j, row, job);
    }
  }

  lemma SomeoneWillTry(s: State, j: nat, row: Row, job: Job)
    requires Counted(s.row, s.jobs) && Unclaimed(s) && j < |s.jobs|
    requires CountsTogether(s.row, s.jobs[j], row, job)
    requires job.ok + job.bad > s.jobs[j].ok + s.jobs[j].bad ==> job.pc.Read?
    requires (s.jobs[j].pc.Read? || s.jobs[j].pc.TryClaim?) && !(job.pc.Read? || job.pc.TryClaim?) ==>
               s.row.completedCount + s.row.failedCount != s.row.totalCount
    requires SumOk(s.jobs[j := job]) + SumBad(s.jobs[j := job]) == |s.jobs|
    ensures var jobs := s.jobs[j := job];
            exists i :: 0 <= i < |jobs| && (jobs[i].pc.Read? || jobs[i].pc.TryClaim?)
  {
    var jobs := s.jobs[j := job];
    SumUpdate(s.jobs, j, job);
    if job.pc.Read? || job.pc.TryClaim? {
      assert jobs[j] == job;
    } else {
      var i :| 0 <= i < |s.jobs| && (s.jobs[i].pc.Read? || s.jobs[i].pc.TryClaim?);
      assert i != j && jobs[i] == s.jobs[i];
    }
  }

  lemma ClaimingStep(s: State, j: nat, o: Outcome, ids: seq<PolicyId>)
    requires Distinct(ids) && Inv(s, ids) && s.claims == 0 && Claims(s, j, o)
    ensures var s' := HandlerStep(s, j, o);
            WellClaimed(s'.first.value, ids) && Claimed(s')
  {
    FullCount(s.jobs);
    CountedStep(s, j, o);
  }

  /** After the claim the counters stay full until the claimer counts again. */
  lemma CountersAfterClaim(s: State, ids: seq<PolicyId>)
    requires Claimed(s) && Counted(s.row, s.jobs) && s.row.policyIds == ids && WellClaimed(s.first.value, ids)
    ensures var owner := s.jobs[s.first.value.owner];
            s.row.completedCount + s.row.failedCount == s.row.totalCount + (owner.ok + owner.bad - 1)
  {
    var c := s.first.value;
    SumUpdate(s.jobs, c.owner, c.jobs[c.owner]);
    SumsAgree(s.jobs[c.owner := c.jobs[c.owner]], c.jobs);
    FullCount(c.jobs);
  }

  /** So the claimer itself never claims again. */
  lemma OwnerNeverClaims(s: State, o: Outcome, ids: seq<PolicyId>)
    requires Distinct(ids) && Inv(s, ids) && s.claims == 1
    ensures !Claims(s, s.first.value.owner, o)
  {
    CountersAfterClaim(s, ids);
  }

  lemma OtherAfterClaim(s: State, j: nat, o: Outcome)
    requires Claimed(s) && j < |s.jobs| && j != s.first.value.owner && !o.ReadFault? && !Claims(s, j, o)
    ensures Claimed(HandlerStep(s, j, o))
  {
  }

  lemma OwnerAfterClaim(s: State, j: nat, o: Outcome)
    requires Claimed(s) && j < |s.jobs| && j == s.first.value.owner && !o.ReadFault? && !Claims(s, j, o)
    ensures Claimed(HandlerStep(s, j, o))
  {
  }

  lemma ClaimedStep(s: State, j: nat, o: Outcome)
    requires Claimed(s) && j < |s.jobs| && !o.ReadFault? && !Claims(s, j, o)
    ensures Claimed(HandlerStep(s, j, o))
  {
    if j == s.first.value.owner { OwnerAfterClaim(s, j, o); } else { OtherAfterClaim(s, j, o); }
  }

  lemma HandlerInv(s: State, j: nat, o: Outcome, ids: seq<PolicyId>)
    requires Distinct(ids) && Inv(s, ids) && j < |s.jobs| && !o.ReadFault?
    ensures var s' := HandlerStep(s, j, o);
            && (s'.first.Some? ==> WellClaimed(s'.first.value, ids))
            && (s'.claims == 0 ==> Unclaimed(s'))
            && (s'.claims == 1 ==> Claimed(s'))
  {
    if s.claims > 0 {
      if s.claims == 1 && !Claims(s, j, o) { ClaimedStep(s, j, o); }
    } else if Claims(s, j, o) {
      ClaimingStep(s, j, o, ids);
    } else {
      UnclaimedStep(s, j, o, ids);
    }
  }

  lemma InvStep(s: State, l: Label, ids: seq<PolicyId>)
    requires Distinct(ids) && Inv(s, ids)
    requires l.Handler? ==> !l.o.ReadFault?
    ensures Inv(Next(s, l), ids)
  {
    ClaimStep(s, l);
    match l
    case MarkProcessing =>
    case Handler(j, o) =>
      if j < |s.jobs| {
        CountedStep(s, j, o);
        StepCounts(s.row, s.jobs[j], o);
        HandlerInv(s, j, o, ids);
      }
  }

  lemma {:induction false} NothingCounted(ids: seq<PolicyId>)
    ensures SumOk(NewJobs(ids)) == 0 && SumBad(NewJobs(ids)) == 0
  {
    if ids != [] {
      NothingCounted(ids[1..]);
      assert NewJobs(ids)[1..] == NewJobs(ids[1..]);
    }
  }

  lemma {:induction false} Reachable(ids: seq<PolicyId>, run: seq<Label>)
    requires Distinct(ids) && FaultFree(run)
    ensures Inv(Exec(Created(ids), run), ids)
    decreases |run|
  {
    if run == [] {
      NothingCounted(ids);
    } else {
      Reachable(ids, run[..|run| - 1]);
      InvStep(Exec(Created(ids), run[..|run| - 1]), run[|run| - 1], ids);
    }
  }

  // ----- the main results -----

  /** A claim is made only when every job has contributed exactly one increment,
      and a claimer whose assembly throws adds at most one more. */
  lemma ClaimsOnlyWhenFull(ids: seq<PolicyId>, run: seq<Label>)
    requires Distinct(ids) && FaultFree(run)
    ensures var s := Exec(Created(ids), run);
            s.claims > 0 ==>
              && s.first.Some? && |s.first.value.jobs| == |ids|
              && (forall i :: 0 <= i < |ids| ==> s.first.value.jobs[i].ok + s.first.value.jobs[i].bad == 1)
              && s.first.value.row.completedCount + s.first.value.row.failedCount == |ids|
    ensures var s := Exec(Created(ids), run);
            s.claims <= 1 ==> s.row.completedCount + s.row.failedCount <= |ids| + 1
  {
    Reachable(ids, run);
    var s := Exec(Created(ids), run);
    if s.claims == 0 {
      FullCount(s.jobs);
    } else {
      FullCount(s.first.value.jobs);
      if s.claims == 1 { CountersAfterClaim(s, ids); }
    }
  }

  lemma {:induction false} SumsAgree(a: seq<Job>, b: seq<Job>)
    requires |a| == |b| && forall i :: 0 <= i < |a| ==> a[i].ok == b[i].ok && a[i].bad == b[i].bad
    ensures SumOk(a) == SumOk(b) && SumBad(a) == SumBad(b)
  {
    if a != [] { SumsAgree(a[1..], b[1..]); }
  }

  /** Nothing more can happen in this handler. */
  predicate Quiescent(job: Job) {
    job.pc.Done? || (job.pc.Threw? && job.attempt >= MAX_ATTEMPTS)
  }

  /** No assembly is lost: once every handler has finished, the assembly has been
      claimed exactly when the batch is not empty and every job has incremented a
      counter, which only a job whose failed-increment threw on its last delivery
      has not. An empty batch is never claimed. */
  lemma NoLostAssembly(ids: seq<PolicyId>, run: seq<Label>)
    requires Distinct(ids) && FaultFree(run)
    requires var s := Exec(Created(ids), run); forall i :: 0 <= i < |s.jobs| ==> Quiescent(s.jobs[i])
    ensures var s := Exec(Created(ids), run);
            && |s.jobs| == |ids|
            && (s.claims > 0 <==> ids != [] && forall i :: 0 <= i < |s.jobs| ==> s.jobs[i].ok + s.jobs[i].bad > 0)
            && (ids != [] && (forall i :: 0 <= i < |s.jobs| ==> s.jobs[i].pc.Done?) ==> s.claims > 0)
  {
    Reachable(ids, run);
    ClaimsOnlyWhenFull(ids, run);
    var s := Exec(Created(ids), run);
    if s.claims == 0 {
      FullCount(s.jobs);
    } else {
      ContributionsStay(ids, run);
    }
  }

  /** Increments are never taken back. */
  ghost predicate CountsStay(s: State) {
    s.first.Some? ==>
      && |s.jobs| == |s.first.value.jobs|
      && forall i :: 0 <= i < |s.jobs| ==>
           && s.jobs[i].ok >= s.first.value.jobs[i].ok
           && s.jobs[i].bad >= s.first.value.jobs[i].bad
  }

  lemma CountsStayStep(s: State, j: nat, o: Outcome)
    requires CountsStay(s) && j < |s.jobs|
    ensures CountsStay(HandlerStep(s, j, o))
  {
    StepCounts(s.row, s.jobs[j], o);
  }

  lemma {:induction false} ContributionsStay(ids: seq<PolicyId>, run: seq<Label>)
    ensures CountsStay(Exec(Created(ids), run))
    decreases |run|
  {
    if run != [] {
      ContributionsStay(ids, run[..|run| - 1]);
      var s, l := Exec(Created(ids), run[..|run| - 1]), run[|run| - 1];
      if l.Handler? && l.j < |s.jobs| { CountsStayStep(s, l.j, l.o); }
    }
  }

  ghost predicate AttemptsOk(s: State) { forall j :: 0 <= j < |s.jobs| ==> 1 <= s.jobs[j].attempt <= 3 }

  lemma AttemptsStep(s: State, j: nat, o: Outcome)
    requires AttemptsOk(s) && j < |s.jobs|
    ensures AttemptsOk(HandlerStep(s, j, o))
  {
    assert 1 <= s.jobs[j].attempt <= 3;
  }

  /** No handler runs more than three times, and one that rejected is delivered again
      unless it has. */
  lemma {:induction false} AtMostThreeDeliveries(ids: seq<PolicyId>, run: seq<Label>)
    ensures AttemptsOk(Exec(Created(ids), run))
    ensures var s := Exec(Created(ids), run);
            forall j: nat, o: Outcome :: j < |s.jobs| && s.jobs[j].pc.Threw? && o.Works? ==>
              var again := HandlerStep(s, j, o).jobs[j];
              && (again.pc.Generate? <==> s.jobs[j].attempt < 3)
              && (again.pc.Generate? ==> again.attempt == s.jobs[j].attempt + 1)
    decreases |run|
  {
    if run != [] {
      AtMostThreeDeliveries(ids, run[..|run| - 1]);
      var s, l := Exec(Created(ids), run[..|run| - 1]), run[|run| - 1];
      if l.Handler? && l.j < |s.jobs| { AttemptsStep(s, l.j, l.o); }
    }
  }

  predicate NeverMoves(run: seq<Label>, j: nat) { forall l :: l in run && l.Handler? ==> l.j != j }

  lemma {:induction false} UnmovedJob(ids: seq<PolicyId>, run: seq<Label>, j: nat)
    requires j < |ids| && NeverMoves(run, j)
    ensures var s := Exec(Created(ids), run); j < |s.jobs| && s.jobs[j] == NewJob(ids[j])
    decreases |run|
  {
    if run != [] {
      UnmovedJob(ids, run[..|run| - 1], j);
      assert run[|run| - 1] in run;
    }
  }

  /** A job that was never queued, because its insertion failed, holds the whole batch
      up: nothing is ever claimed or archived, whatever the others do. */
  lemma MissingJobBlocks(ids: seq<PolicyId>, run: seq<Label>, j: nat)
    requires Distinct(ids) && FaultFree(run) && j < |ids| && NeverMoves(run, j)
    ensures var s := Exec(Created(ids), run); s.claims == 0 && s.row.zip.None? && s.row.status.Open()
  {
    UnmovedJob(ids, run, j);
    ContributionsStay(ids, run);
    ClaimsOnlyWhenFull(ids, run);
    Reachable(ids, run);
  }

  /** The ids whose job had counted itself completed, in the order of the batch. */
  function CompletedJobs(ids: seq<PolicyId>, jobs: seq<Job>): seq<PolicyId>
    requires |ids| == |jobs|
  {
    if ids == [] then []
    else (if jobs[0].ok == 1 then [ids[0]] else []) + CompletedJobs(ids[1..], jobs[1..])
  }

  lemma {:induction false} CompletedAreTheRest(ids: seq<PolicyId>, jobs: seq<Job>, failed: seq<PolicyId>)
    requires |ids| == |jobs|
    requires forall i :: 0 <= i < |ids| ==> jobs[i].ok + jobs[i].bad == 1 && (jobs[i].bad > 0 <==> ids[i] in failed)
    ensures Without(ids, failed) == CompletedJobs(ids, jobs)
  {
    if ids != [] {
      assert jobs[0].ok + jobs[0].bad == 1;
      CompletedAreTheRest(ids[1..], jobs[1..], failed);
    }
  }

  lemma {:induction false} WithoutSelects(ids: seq<PolicyId>, failed: seq<PolicyId>)
    ensures Selects(ids, Without(ids, failed), id => id !in failed)
  {
    if ids == [] {
      SelectsNone((id: PolicyId) => id !in failed);
    } else {
      WithoutSelects(ids[1..], failed);
      SelectsCons(ids[0], ids[1..], Without(ids[1..], failed), id => id !in failed);
      assert ids == [ids[0]] + ids[1..] && [] + Without(ids[1..], failed) == Without(ids[1..], failed);
    }
  }

  lemma {:induction false} RestrictSelects(ids: seq<PolicyId>, hasPdf: set<PolicyId>)
    ensures Selects(ids, Restrict(ids, hasPdf), id => id in hasPdf)
  {
    if ids == [] {
      SelectsNone((id: PolicyId) => id in hasPdf);
    } else {
      RestrictSelects(ids[1..], hasPdf);
      SelectsCons(ids[0], ids[1..], Restrict(ids[1..], hasPdf), id => id in hasPdf);
      assert ids == [ids[0]] + ids[1..] && [] + Restrict(ids[1..], hasPdf) == Restrict(ids[1..], hasPdf);
    }
  }

  lemma RestrictOne(id: PolicyId, ids: seq<PolicyId>, hasPdf: set<PolicyId>)
    ensures Restrict([id] + ids, hasPdf) == (if id in hasPdf then [id] else []) + Restrict(ids, hasPdf)
  {
    assert ([id] + ids)[1..] == ids;
  }

  /** The files of an archive: the policies that did not fail and have a PDF stored, each
      once, in the order of the batch. */
  lemma {:induction false} ZipSelects(ids: seq<PolicyId>, failed: seq<PolicyId>, hasPdf: set<PolicyId>)
    ensures Selects(ids, Restrict(Without(ids, failed), hasPdf), id => id !in failed && id in hasPdf)
  {
    var p := (id: PolicyId) => id !in failed && id in hasPdf;
    if ids == [] {
      SelectsNone(p);
    } else {
      var rest := Without(ids[1..], failed);
      ZipSelects(ids[1..], failed, hasPdf);
      SelectsCons(ids[0], ids[1..], Restrict(rest, hasPdf), p);
      RestrictOne(ids[0], rest, hasPdf);
      assert ids == [ids[0]] + ids[1..] && [] + rest == rest && [] + Restrict(rest, hasPdf) == Restrict(rest, hasPdf);
    }
  }

  /** Job k of the batch is about policy `id`, which completed and has its PDF stored. */
  predicate KeptJob(ids: seq<PolicyId>, at: seq<Job>, hasPdf: set<PolicyId>, id: PolicyId, k: nat)
    requires |ids| == |at|
  {
    k < |ids| && ids[k] == id && at[k].ok == 1 && id in hasPdf
  }

  /** The policies whose job had counted itself completed and whose PDF is stored, none
      twice, and in the order of the batch. */
  ghost predicate Archived(ids: seq<PolicyId>, at: seq<Job>, hasPdf: set<PolicyId>, files: seq<PolicyId>)
    requires |ids| == |at|
  {
    && (forall id :: id in files <==> exists k :: KeptJob(ids, at, hasPdf, id, k))
    && AllDiffer(files) && Subsequence(files, ids)
  }

  lemma ZipIsArchived(ids: seq<PolicyId>, c: Claim, hasPdf: set<PolicyId>)
    requires Distinct(ids) && WellClaimed(c, ids)
    ensures Archived(ids, c.jobs, hasPdf, ZipOf(c.row, hasPdf))
  {
    var failed, files := c.row.failedPolicyIds, ZipOf(c.row, hasPdf);
    ZipSelects(ids, failed, hasPdf);
    SelectedMembers(ids, files, id => id !in failed && id in hasPdf);
    SubsequenceDiffers(files, ids);
    forall k | 0 <= k < |ids| ensures ids[k] !in failed <==> c.jobs[k].ok == 1 {
      assert c.jobs[k].id == ids[k] && c.jobs[k].ok + c.jobs[k].bad == 1;
    }
    FilesOf(ids, c.jobs, failed, hasPdf, files);
  }

  lemma FilesOf(ids: seq<PolicyId>, at: seq<Job>, failed: seq<PolicyId>, hasPdf: set<PolicyId>, files: seq<PolicyId>)
    requires |ids| == |at| && forall k :: 0 <= k < |ids| ==> (ids[k] !in failed <==> at[k].ok == 1)
    requires forall k :: 0 <= k < |ids| && ids[k] !in failed && ids[k] in hasPdf ==> ids[k] in files
    requires forall m :: 0 <= m < |files| ==> files[m] in ids && files[m] !in failed && files[m] in hasPdf
    ensures forall id :: id in files <==> exists k :: KeptJob(ids, at, hasPdf, id, k)
  {
    forall id ensures id in files <==> exists k :: KeptJob(ids, at, hasPdf, id, k) {
      if id in files {
        var m :| 0 <= m < |files| && files[m] == id;
        var k: nat :| k < |ids| && ids[k] == files[m];
        assert KeptJob(ids, at, hasPdf, id, k);
      }
    }
  }

  /** After a successful assembly the archive holds exactly the completed policies
      whose PDF is stored, in batch order, whatever the claimer, the other jobs and
      the late PROCESSING write did since; there is none iff no job completed. The
      status is FAILED iff no job completed, COMPLETED iff none failed (and the batch
      completed at all), PARTIAL otherwise, unless the late write has replaced it. */
  lemma Outcome(ids: seq<PolicyId>, run: seq<Label>)
    requires Distinct(ids) && FaultFree(run)
    requires var s := Exec(Created(ids), run); s.assembled.Some? && s.claims <= 1
    ensures var s := Exec(Created(ids), run);
            && s.claims == 1 && s.first.Some? && |s.first.value.jobs| == |ids|
            && var at := s.first.value.jobs;
            && s.row.zip == (if (forall i :: 0 <= i < |ids| ==> at[i].ok == 0) then None
                             else Some(Restrict(CompletedJobs(ids, at), s.assembled.value)))
            && (s.row.zip.Some? ==> Archived(ids, at, s.assembled.value, s.row.zip.value))
            && (s.row.status.Processing? ==> s.overwritten)
            && (!s.row.status.Processing? ==>
                  && (s.row.status == Failed <==> forall i :: 0 <= i < |ids| ==> at[i].ok == 0)
                  && (s.row.status == Completed <==> forall i :: 0 <= i < |ids| ==> at[i].bad == 0)
                  && (s.row.status == Partial <==>
                        (exists i :: 0 <= i < |ids| && at[i].ok > 0) && (exists i :: 0 <= i < |ids| && at[i].bad > 0)))
  {
    Reachable(ids, run);
    AssembledMeansClaimed(ids, run);
    var s := Exec(Created(ids), run);
    StatusSays(s.first.value, ids);
    CompletedAreTheRest(ids, s.first.value.jobs, s.first.value.row.failedPolicyIds);
    ZipIsArchived(ids, s.first.value, s.assembled.value);
  }

  /** What the counters of the claimed row say about the jobs. */
  lemma StatusSays(c: Claim, ids: seq<PolicyId>)
    requires WellClaimed(c, ids)
    ensures var at := c.jobs;
            && |at| == |ids|
            && (FinalStatus(c.row) == Failed <==> forall i :: 0 <= i < |ids| ==> at[i].ok == 0)
            && (FinalStatus(c.row) == Failed <==> c.row.completedCount == 0)
            && (FinalStatus(c.row) == Completed <==> forall i :: 0 <= i < |ids| ==> at[i].bad == 0)
            && (FinalStatus(c.row) == Partial <==>
                  (exists i :: 0 <= i < |ids| && at[i].ok > 0) && (exists i :: 0 <= i < |ids| && at[i].bad > 0))
  {
    SumsPositive(c.jobs);
    FullCount(c.jobs);
    assert forall i :: 0 <= i < |ids| ==> c.jobs[i].ok + c.jobs[i].bad == 1;
  }

  lemma {:induction false} AssembledMeansClaimed(ids: seq<PolicyId>, run: seq<Label>)
    requires Distinct(ids) && FaultFree(run)
    ensures var s := Exec(Created(ids), run); s.assembled.Some? ==> s.claims > 0
    decreases |run|
  {
    Reachable(ids, run);
    if run != [] {
      AssembledMeansClaimed(ids, run[..|run| - 1]);
      Reachable(ids, run[..|run| - 1]);
    }
  }

  /** When every completed policy has its PDF stored, the archive is the completed
      policies themselves. */
  lemma {:induction false} NothingDropped(ids: seq<PolicyId>, hasPdf: set<PolicyId>)
    ensures (forall id :: id in ids ==> id in hasPdf) <==> Restrict(ids, hasPdf) == ids
    ensures |Restrict(ids, hasPdf)| <= |ids|
  {
    if ids != [] {
      NothingDropped(ids[1..], hasPdf);
      assert ids == [ids[0]] + ids[1..];
      if ids[0] in hasPdf {
        assert Restrict(ids, hasPdf) == [ids[0]] + Restrict(ids[1..], hasPdf);
        assert Restrict(ids, hasPdf)[1..] == Restrict(ids[1..], hasPdf);
      } else {
        assert Restrict(ids, hasPdf) == Restrict(ids[1..], hasPdf);
      }
    }
  }
}
