/** Which failing reads let an export be claimed before every policy has reported: in
    every run, whatever fails. */
module FleetFaults {
  import opened FleetProtocol
  import opened FleetSafety
  import opened FleetRuns

  /** At position p the read or the conditional UPDATE of job j fails. */
  predicate FaultsAt(ids: seq<PolicyId>, run: seq<Label>, j: nat, p: nat) {
    && p < |run| && run[p] == Handler(j, ReadFault)
    && var s := Exec(Created(ids), run[..p]);
    && j < |s.jobs| && (s.jobs[j].pc.Read? || s.jobs[j].pc.TryClaim?)
  }

  /** At position q job j increments a counter, and nothing has been claimed yet. */
  predicate IncrementsAt(ids: seq<PolicyId>, run: seq<Label>, j: nat, q: nat) {
    && q < |run| && run[q].Handler? && run[q].j == j && run[q].o.Works?
    && var s := Exec(Created(ids), run[..q]);
    && j < |s.jobs| && (s.jobs[j].pc.CountOk? || s.jobs[j].pc.CountBad?) && s.first.None?
  }

  ghost predicate Once(f: nat -> bool) { exists p: nat :: f(p) }

  ghost predicate InThisOrder(f: nat -> bool, g: nat -> bool) { exists p: nat, q: nat :: p < q && f(p) && g(q) }

  ghost predicate Faulted(ids: seq<PolicyId>, run: seq<Label>, j: nat) { Once((p: nat) => FaultsAt(ids, run, j, p)) }

  /** After one of its reads or claims failed, job j increments a counter before the
      first claim. */
  ghost predicate Recounts(ids: seq<PolicyId>, run: seq<Label>, j: nat) {
    InThisOrder((p: nat) => FaultsAt(ids, run, j, p), (q: nat) => IncrementsAt(ids, run, j, q))
  }

  lemma OneMorePosition(f: nat -> bool, g: nat -> bool, f': nat -> bool, g': nat -> bool, n: nat)
    requires forall k: nat :: k < n ==> f'(k) == f(k) && g'(k) == g(k)
    requires forall k: nat :: n < k ==> !f'(k) && !g'(k)
    requires forall k: nat :: n <= k ==> !f(k) && !g(k)
    ensures Once(f') <==> Once(f) || f'(n)
    ensures InThisOrder(f', g') <==> InThisOrder(f, g) || (Once(f) && g'(n))
  {
    if p: nat :| f(p) { assert f'(p) && p < n; }
    if p: nat, q: nat :| p < q && f(p) && g(q) { assert f'(p) && g'(q); }
    if p: nat, q: nat :| p < q && f'(p) && g'(q) { assert f(p); }
  }

  /** What the last label of a run adds. */
  lemma LastLabel(ids: seq<PolicyId>, run: seq<Label>, j: nat)
    requires run != []
    ensures var n := |run| - 1;
            && (Faulted(ids, run, j) <==> Faulted(ids, run[..n], j) || FaultsAt(ids, run, j, n))
            && (Recounts(ids, run, j) <==>
                  Recounts(ids, run[..n], j) || (Faulted(ids, run[..n], j) && IncrementsAt(ids, run, j, n)))
  {
    var n := |run| - 1;
    forall k: nat | k < n
      ensures FaultsAt(ids, run, j, k) == FaultsAt(ids, run[..n], j, k)
      ensures IncrementsAt(ids, run, j, k) == IncrementsAt(ids, run[..n], j, k)
    {
      assert run[..n][..k] == run[..k];
    }
    OneMorePosition((p: nat) => FaultsAt(ids, run[..n], j, p), (q: nat) => IncrementsAt(ids, run[..n], j, q),
                    (p: nat) => FaultsAt(ids, run, j, p), (q: nat) => IncrementsAt(ids, run, j, q), n);
  }

  /** What a job has counted before the first claim. */
  predicate Tally(job: Job, total: nat, faulted: bool, recounts: bool) {
    if recounts then job.ok + job.bad >= 2
    else if faulted then job.ok + job.bad == 1 && (job.pc.CountBad? || job.pc.Threw? || job.pc.Generate? || job.pc.CountOk?)
    else Fresh(job, total)
  }

  lemma TallyStep(r: Row, job: Job, o: Outcome, faulted: bool, recounts: bool)
    requires Tally(job, r.totalCount, faulted, recounts)
    requires !(o.Works? && job.pc.TryClaim? && Claimable(r, job.pc.total))
    ensures var faults := o.ReadFault? && (job.pc.Read? || job.pc.TryClaim?);
            var increments := o.Works? && (job.pc.CountOk? || job.pc.CountBad?);
            Tally(JobStep(r, job, o).1, r.totalCount, faulted || faults, recounts || (faulted && increments))
  {
  }

  ghost predicate Sums(s: State, n: nat) {
    && |s.jobs| == n == s.row.totalCount
    && s.row.completedCount == SumOk(s.jobs) && s.row.failedCount == SumBad(s.jobs)
    && forall j :: 0 <= j < |s.jobs| && s.jobs[j].pc.TryClaim? ==> s.jobs[j].pc.total == n
  }

  lemma SumsStep(s: State, j: nat, o: Outcome, n: nat)
    requires Sums(s, n) && j < |s.jobs|
    ensures Sums(HandlerStep(s, j, o), n)
  {
    StepCounts(s.row, s.jobs[j], o);
    SumUpdate(s.jobs, j, JobStep(s.row, s.jobs[j], o).1);
  }

  predicate Full(jobs: seq<Job>, n: nat) { |jobs| == n == SumOk(jobs) + SumBad(jobs) }

  predicate AllOnce(jobs: seq<Job>) { forall i :: 0 <= i < |jobs| ==> jobs[i].ok + jobs[i].bad == 1 }

  ghost predicate NobodyRecounts(ids: seq<PolicyId>, run: seq<Label>) {
    forall j: nat :: j < |ids| ==> !Recounts(ids, run, j)
  }

  ghost predicate TalliesOk(ids: seq<PolicyId>, run: seq<Label>, s: State) {
    forall j: nat :: j < |s.jobs| ==> Tally(s.jobs[j], s.row.totalCount, Faulted(ids, run, j), Recounts(ids, run, j))
  }

  ghost predicate FaultInv(ids: seq<PolicyId>, run: seq<Label>, s: State) {
    && Sums(s, |ids|)
    && if s.first.None? then TalliesOk(ids, run, s)
       else Full(s.first.value.jobs, |ids|) && (AllOnce(s.first.value.jobs) <==> NobodyRecounts(ids, run))
  }

  /** A claim is made when the increments add up to the number of jobs. */
  lemma AddsUp(s: State, j: nat, o: Outcome, ids: seq<PolicyId>, run: seq<Label>)
    requires Sums(s, |ids|) && TalliesOk(ids, run, s) && Claims(s, j, o)
    ensures AllOnce(s.jobs) <==> NobodyRecounts(ids, run)
  {
    if NobodyRecounts(ids, run) {
      forall i: nat | i < |s.jobs| ensures s.jobs[i].ok + s.jobs[i].bad <= 1 { assert !Recounts(ids, run, i); }
      FullCount(s.jobs);
    } else {
      var i: nat :| i < |ids| && Recounts(ids, run, i);
      assert s.jobs[i].ok + s.jobs[i].bad >= 2;
    }
  }

  lemma BeforeClaim(ids: seq<PolicyId>, run: seq<Label>, s: State)
    requires run != [] && run[|run| - 1].Handler? && s == Exec(Created(ids), run[..|run| - 1])
    requires FaultInv(ids, run[..|run| - 1], s) && s.first.None?
    requires var l := run[|run| - 1]; l.j < |s.jobs| && !Claims(s, l.j, l.o)
    ensures TalliesOk(ids, run, Next(s, run[|run| - 1]))
  {
    var init, l := run[..|run| - 1], run[|run| - 1];
    var t := Next(s, l);
    StepCounts(s.row, s.jobs[l.j], l.o);
    forall j: nat | j < |t.jobs|
      ensures Tally(t.jobs[j], t.row.totalCount, Faulted(ids, run, j), Recounts(ids, run, j))
    {
      LastLabel(ids, run, j);
      assert Tally(s.jobs[j], s.row.totalCount, Faulted(ids, init, j), Recounts(ids, init, j));
      if j == l.j { TallyStep(s.row, s.jobs[j], l.o, Faulted(ids, init, j), Recounts(ids, init, j)); }
    }
  }

  /** A label that increments nothing before the first claim makes nobody recount. */
  lemma SameRecounts(ids: seq<PolicyId>, run: seq<Label>, init: seq<Label>, n: nat)
    requires |run| == n + 1 && init == run[..n] && forall j: nat :: !IncrementsAt(ids, run, j, n)
    ensures NobodyRecounts(ids, run) <==> NobodyRecounts(ids, init)
  {
    forall j: nat ensures Recounts(ids, run, j) <==> Recounts(ids, init, j) { LastLabel(ids, run, j); }
  }

  /** The late write, which touches no counter and no handler. */
  lemma MarkKeeps(ids: seq<PolicyId>, run: seq<Label>, s: State)
    requires run != [] && s == Exec(Created(ids), run[..|run| - 1]) && FaultInv(ids, run[..|run| - 1], s)
    requires var l := run[|run| - 1]; l.Handler? ==> l.j >= |s.jobs|
    ensures FaultInv(ids, run, Next(s, run[|run| - 1]))
  {
    var n := |run| - 1;
    SameRecounts(ids, run, run[..n], n);
    if s.first.None? {
      forall j: nat | j < |s.jobs|
        ensures Tally(s.jobs[j], s.row.totalCount, Faulted(ids, run, j), Recounts(ids, run, j))
      {
        LastLabel(ids, run, j);
        assert Tally(s.jobs[j], s.row.totalCount, Faulted(ids, run[..n], j), Recounts(ids, run[..n], j));
      }
    }
  }

  lemma HandlerKeeps(ids: seq<PolicyId>, run: seq<Label>, s: State)
    requires run != [] && s == Exec(Created(ids), run[..|run| - 1]) && FaultInv(ids, run[..|run| - 1], s)
    requires var l := run[|run| - 1]; l.Handler? && l.j < |s.jobs|
    ensures FaultInv(ids, run, Next(s, run[|run| - 1]))
  {
    var n := |run| - 1;
    var l := run[n];
    SumsStep(s, l.j, l.o, |ids|);
    if s.first.Some? {
      SameRecounts(ids, run, run[..n], n);
    } else if Claims(s, l.j, l.o) {
      AddsUp(s, l.j, l.o, ids, run[..n]);
      SameRecounts(ids, run, run[..n], n);
      SameTallies(s, l.j, l.o);
      SumUpdate(s.jobs, l.j, JobStep(s.row, s.jobs[l.j], l.o).1);
    } else {
      BeforeClaim(ids, run, s);
    }
  }

  lemma SameTallies(s: State, j: nat, o: Outcome)
    requires Claims(s, j, o)
    ensures AllOnce(HandlerStep(s, j, o).jobs) <==> AllOnce(s.jobs)
  {
    var jobs := HandlerStep(s, j, o).jobs;
    assert forall i :: 0 <= i < |jobs| ==> jobs[i].ok == s.jobs[i].ok && jobs[i].bad == s.jobs[i].bad;
  }

  lemma {:induction false} FaultInvHolds(ids: seq<PolicyId>, run: seq<Label>)
    ensures FaultInv(ids, run, Exec(Created(ids), run))
    decreases |run|
  {
    if run == [] {
      NothingCounted(ids);
    } else {
      var init, l := run[..|run| - 1], run[|run| - 1];
      FaultInvHolds(ids, init);
      var s := Exec(Created(ids), init);
      if l.Handler? && l.j < |s.jobs| { HandlerKeeps(ids, run, s); } else { MarkKeeps(ids, run, s); }
    }
  }

  /** In every run: at the first claim every policy has been counted exactly once, if
      and only if no job counted again after a failing read or claim of its own. So a
      ReadFault does harm exactly when it is followed by an increment of the same job
      before the first claim. */
  lemma ClaimedEarlyExactlyWhen(ids: seq<PolicyId>, run: seq<Label>)
    requires Exec(Created(ids), run).first.Some?
    ensures AllOnce(Exec(Created(ids), run).first.value.jobs) <==> NobodyRecounts(ids, run)
  {
    FaultInvHolds(ids, run);
  }

  // ----- which batches can be claimed early -----

  /** All but the last job count themselves; the first one's read fails, and it counts
      itself once more and claims. */
  lemma ReadFaultClaimsEarly(ids: seq<PolicyId>) returns (run: seq<Label>)
    requires |ids| >= 2
    ensures var s := Exec(Created(ids), run);
            s.first.Some? && |s.first.value.jobs| == |ids| && s.first.value.jobs[|ids| - 1] == NewJob(ids[|ids| - 1])
  {
    var s, a := Created(ids), Created(ids);
    run, a := CountFirst(ids, |ids| - 1);
    run, a := ReadNow(s, run, a, 0);
    run, a := FaultThenCount(s, run, a, 0);
    run, a := ReadNow(s, run, a, 0);
    ExecSnoc(s, run, Handler(0, Works({})));
    run := run + [Handler(0, Works({}))];
    AtMostOneClaim(ids, run[..|run| - 1]);
    assert run[..|run| - 1] + [Handler(0, Works({}))] == run;
  }

  /** Every batch of two policies or more can be claimed before all have reported. */
  lemma EarlyClaimExactlyWhen(ids: seq<PolicyId>)
    ensures (exists run :: var s := Exec(Created(ids), run); s.first.Some? && !AllOnce(s.first.value.jobs)) <==> |ids| >= 2
  {
    if |ids| >= 2 {
      var run := ReadFaultClaimsEarly(ids);
      var jobs := Exec(Created(ids), run).first.value.jobs;
      assert jobs[|ids| - 1].ok + jobs[|ids| - 1].bad == 0;
    } else {
      forall run | Exec(Created(ids), run).first.Some? ensures AllOnce(Exec(Created(ids), run).first.value.jobs) {
        FaultInvHolds(ids, run);
        OneJob(Exec(Created(ids), run).first.value.jobs);
      }
    }
  }

  lemma OneJob(jobs: seq<Job>)
    requires Full(jobs, |jobs|) && |jobs| <= 1
    ensures AllOnce(jobs)
  {
    if |jobs| == 1 { assert jobs[1..] == [] && SumOk(jobs[1..]) == 0 && SumBad(jobs[1..]) == 0; }
  }
}
