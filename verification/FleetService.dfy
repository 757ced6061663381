/** The export row and the service methods that update it in place. Each database
    statement is one method of the repository; a handler run from start to end is
    proved to be a run of FleetProtocol, so its results hold of the real row. */
module FleetService {
  import opened Wrappers
  import opened FleetProtocol
  import opened FleetSafety
  import opened Selections

  class FleetPdfExportRepository {
    const policyIds: seq<PolicyId>
    const totalCount: nat
    var status: Status
    var completedCount: nat
    var failedCount: nat
    var failedPolicyIds: seq<PolicyId>
    var zip: Option<seq<PolicyId>>
    var zipS3Key: Option<string>
    var expiresAt: Option<int>

    ghost function Contents(): Row
      reads this
    {
      Row(policyIds, totalCount, status, completedCount, failedCount, failedPolicyIds, zip)
    }

    constructor Save(ids: seq<PolicyId>)
      ensures Contents() == CreatedRow(ids) && zipS3Key == None && expiresAt == None
    {
      policyIds, totalCount, status, zipS3Key, expiresAt := ids, |ids|, Pending, None, None;
      completedCount, failedCount, failedPolicyIds, zip := 0, 0, [], None;
    }

    method IncrementCompleted()
      modifies this`completedCount
      ensures Contents() == CountCompleted(old(Contents()))
    {
      completedCount := completedCount + 1;
    }

    method IncrementFailed(id: PolicyId)
      modifies this`failedCount, this`failedPolicyIds
      ensures Contents() == CountFailed(old(Contents()), id)
    {
      failedCount, failedPolicyIds := failedCount + 1, failedPolicyIds + [id];
    }

    method FindByIdRaw() returns (r: Row)
      ensures r == Contents()
    {
      r := Row(policyIds, totalCount, status, completedCount, failedCount, failedPolicyIds, zip);
    }

    method TryMarkForAssembly(total: nat) returns (claimed: bool)
      modifies this`status
      ensures claimed == Claimable(old(Contents()), total)
      ensures Contents() == if claimed then SetStatus(old(Contents()), Assembling) else old(Contents())
    {
      claimed := false;
      if status !in {Assembling, Completed, Partial, Failed} && completedCount + failedCount == total {
        status, claimed := Assembling, true;
      }
    }

    method UpdateStatus(s: Status)
      modifies this`status
      ensures Contents() == SetStatus(old(Contents()), s)
    {
      status := s;
    }

    /** `files` is what the archive under the key holds. */
    method UpdateZipReady(key: string, files: seq<PolicyId>, expires: int, s: Status)
      modifies this`zip, this`zipS3Key, this`expiresAt, this`status
      ensures Contents() == SetZipReady(old(Contents()), files, s)
      ensures zipS3Key == Some(key) && expiresAt == Some(expires)
    {
      zip, zipS3Key, expiresAt, status := Some(files), Some(key), Some(expires), s;
    }
  }

  /** An archive may be downloaded for a day, in milliseconds. */
  const LIFETIME := 86_400_000

  /** Which of the calls of one delivery work after the PDF was generated or not, the
      clock, and which PDFs are stored when the archive is built. */
  datatype Luck = Luck(count: bool, read: bool, claim: bool, load: bool, write: bool, notify: bool, now: int, hasPdf: set<PolicyId>) {
    predicate Reads() { read && claim }
    predicate Assembles() { load && write && notify }
  }

  // ----- what one delivery leaves in the row, if no other handler comes between -----

  /** The assembly publishes what it loads. */
  function AfterAssembly(r: Row, luck: Luck): Row { if luck.load && luck.write then Publish(r, r, luck.hasPdf) else r }

  /** The policies of the batch that did not fail and have a PDF stored, in order. */
  ghost predicate FilesOfRow(r: Row, hasPdf: set<PolicyId>, files: seq<PolicyId>) {
    Selects(r.policyIds, files, id => id !in r.failedPolicyIds && id in hasPdf)
  }

  function AfterTry(r: Row, luck: Luck): Row {
    if luck.Reads() && Claimable(r, r.totalCount) then AfterAssembly(SetStatus(r, Assembling), luck) else r
  }

  /** The attempt to assemble throws. */
  predicate TryThrows(r: Row, luck: Luck) { !luck.Reads() || (Claimable(r, r.totalCount) && !luck.Assembles()) }

  function AfterTryBlock(r: Row, generates: bool, luck: Luck): Row {
    if generates && luck.count then AfterTry(CountCompleted(r), luck) else r
  }

  predicate TryBlockThrows(r: Row, generates: bool, luck: Luck) {
    !generates || !luck.count || TryThrows(CountCompleted(r), luck)
  }

  function AfterCatch(r: Row, id: PolicyId, luck: Luck): Row { if luck.count then AfterTry(CountFailed(r, id), luck) else r }

  class FleetPdfExportService {
    const repo: FleetPdfExportRepository
    const zipKey: string
    ghost const ids: seq<PolicyId>
    ghost var run: seq<Label>
    ghost var machine: State

    /** The row is the row of the protocol after the run so far. */
    ghost predicate Valid()
      reads this, repo
    {
      repo.Contents() == machine.row && machine == Exec(Created(ids), run)
    }

    /** Only statements of handler j were added to the run; `steady`: none of them
        failed between an increment and the claim. */
    ghost predicate OnlyMoved(j: nat, from: nat, steady: bool)
      requires from <= |run|
      reads this
    {
      forall k :: from <= k < |run| ==> run[k].Handler? && run[k].j == j && (steady ==> !run[k].o.ReadFault?)
    }

    ghost predicate At(j: nat, id: PolicyId, pc: Pc, inCatch: bool)
      reads this
    {
      && j < |machine.jobs| && machine.jobs[j].id == id
      && machine.jobs[j].pc == pc && machine.jobs[j].inCatch == inCatch
    }

    constructor CreateBatchExport(validPolicyIds: seq<PolicyId>, key: string)
      ensures zipKey == key
      ensures Valid() && ids == validPolicyIds && run == [] && fresh(repo)
    {
      repo := new FleetPdfExportRepository.Save(validPolicyIds);
      zipKey, ids, run, machine := key, validPolicyIds, [], Created(validPolicyIds);
    }

    /** The last statement of createBatchExport, after the jobs were queued. */
    method MarkExportProcessing()
      requires Valid() && !machine.creatorDone
      modifies this, repo
      ensures Valid() && run == old(run) + [MarkProcessing] && repo.status == Processing
    {
      repo.UpdateStatus(Processing);
      ExecSnoc(Created(ids), run, MarkProcessing);
      run, machine := run + [MarkProcessing], Next(machine, MarkProcessing);
    }

    ghost method Move(j: nat, o: Outcome)
      requires machine == Exec(Created(ids), run) && j < |machine.jobs|
      modifies this
      ensures machine == Exec(Created(ids), run)
      ensures run == old(run) + [Handler(j, o)]
      ensures machine.row == JobStep(old(machine).row, old(machine).jobs[j], o).0
      ensures machine.jobs == old(machine).jobs[j := JobStep(old(machine).row, old(machine).jobs[j], o).1]
    {
      ExecSnoc(Created(ids), run, Handler(j, o));
      run, machine := run + [Handler(j, o)], Next(machine, Handler(j, o));
    }

    method ProcessIndividualPdfJob(j: nat, id: PolicyId, generates: bool, first: Luck, second: Luck)
      returns (threw: bool)
      requires Valid() && At(j, id, Generate, false)
      modifies this, repo
      ensures Valid() && old(run) <= run && OnlyMoved(j, |old(run)|, first.Reads() && second.Reads())
      ensures if threw then At(j, id, Threw, true) else At(j, id, Done, false) || At(j, id, Done, true)
      ensures var mid := AfterTryBlock(old(repo.Contents()), generates, first);
              if TryBlockThrows(old(repo.Contents()), generates, first) then
                && repo.Contents() == AfterCatch(mid, id, second)
                && (threw <==> !second.count || TryThrows(CountFailed(mid, id), second))
              else repo.Contents() == mid && !threw
    {
      threw := TryBlock(j, id, generates, first);
      if threw {
        threw := MarkPolicyPdfFailed(j, id, second);
      }
    }

    /** The try block of the handler; `threw` means the catch block is entered. */
    method TryBlock(j: nat, id: PolicyId, generates: bool, luck: Luck) returns (threw: bool)
      requires Valid() && At(j, id, Generate, false)
      modifies this, repo
      ensures Valid() && old(run) <= run && OnlyMoved(j, |old(run)|, luck.Reads())
      ensures threw <==> TryBlockThrows(old(repo.Contents()), generates, luck)
      ensures if threw then At(j, id, CountBad, true) else At(j, id, Done, false)
      ensures repo.Contents() == AfterTryBlock(old(repo.Contents()), generates, luck)
    {
      if generates {
        Move(j, Works({}));
        threw := MarkPolicyPdfComplete(j, id, luck);
      } else {
        Move(j, Throws);
        threw := true;
      }
    }

    method MarkPolicyPdfComplete(j: nat, id: PolicyId, luck: Luck) returns (threw: bool)
      requires Valid() && At(j, id, CountOk, false)
      modifies this, repo
      ensures Valid() && old(run) <= run && OnlyMoved(j, |old(run)|, luck.Reads())
      ensures threw <==> !luck.count || TryThrows(CountCompleted(old(repo.Contents())), luck)
      ensures if threw then At(j, id, CountBad, true) else At(j, id, Done, false)
      ensures repo.Contents() == AfterTryBlock(old(repo.Contents()), true, luck)
    {
      if !luck.count { Move(j, Throws); return true; }
      repo.IncrementCompleted();
      Move(j, Works({}));
      threw := TryAssemble(j, id, false, luck);
    }

    method MarkPolicyPdfFailed(j: nat, id: PolicyId, luck: Luck) returns (threw: bool)
      requires Valid() && At(j, id, CountBad, true)
      modifies this, repo
      ensures Valid() && old(run) <= run && OnlyMoved(j, |old(run)|, luck.Reads())
      ensures threw <==> !luck.count || TryThrows(CountFailed(old(repo.Contents()), id), luck)
      ensures if threw then At(j, id, Threw, true) else At(j, id, Done, true)
      ensures repo.Contents() == AfterCatch(old(repo.Contents()), id, luck)
    {
      if !luck.count { Move(j, Throws); return true; }
      repo.IncrementFailed(id);
      Move(j, Works({}));
      threw := TryAssemble(j, id, true, luck);
    }

    method TryAssemble(j: nat, id: PolicyId, inCatch: bool, luck: Luck) returns (threw: bool)
      requires Valid() && At(j, id, Read, inCatch)
      modifies this, repo
      ensures Valid() && old(run) <= run && OnlyMoved(j, |old(run)|, luck.Reads())
      ensures threw <==> TryThrows(old(repo.Contents()), luck)
      ensures if threw then At(j, id, if inCatch then Threw else CountBad, true) else At(j, id, Done, inCatch)
      ensures repo.Contents() == AfterTry(old(repo.Contents()), luck)
    {
      if !luck.read { Move(j, ReadFault); return true; }
      var record := repo.FindByIdRaw();
      Move(j, Works({}));
      threw := ClaimAndAssemble(j, id, inCatch, record, luck);
    }

    method ClaimAndAssemble(j: nat, id: PolicyId, inCatch: bool, record: Row, luck: Luck) returns (threw: bool)
      requires Valid() && At(j, id, TryClaim(record.totalCount), inCatch) && luck.read && record == repo.Contents()
      modifies this, repo
      ensures Valid() && old(run) <= run && OnlyMoved(j, |old(run)|, luck.Reads())
      ensures threw <==> TryThrows(old(repo.Contents()), luck)
      ensures if threw then At(j, id, if inCatch then Threw else CountBad, true) else At(j, id, Done, inCatch)
      ensures repo.Contents() == AfterTry(old(repo.Contents()), luck)
    {
      if !luck.claim { Move(j, ReadFault); return true; }
      var shouldAssemble := Claim(j, id, inCatch, record.totalCount);
      if !shouldAssemble { return false; }
      threw := AssembleBatchZip(j, id, inCatch, luck);
    }

    /** The conditional UPDATE. */
    method Claim(j: nat, id: PolicyId, inCatch: bool, total: nat) returns (claimed: bool)
      requires Valid() && At(j, id, TryClaim(total), inCatch)
      modifies this, repo
      ensures Valid() && run == old(run) + [Handler(j, Works({}))]
      ensures claimed == Claimable(old(repo.Contents()), total)
      ensures At(j, id, if claimed then Load else Done, inCatch)
      ensures repo.Contents() == if claimed then SetStatus(old(repo.Contents()), Assembling) else old(repo.Contents())
    {
      claimed := repo.TryMarkForAssembly(total);
      Move(j, Works({}));
    }

    method AssembleBatchZip(j: nat, id: PolicyId, inCatch: bool, luck: Luck) returns (threw: bool)
      requires Valid() && At(j, id, Load, inCatch)
      modifies this, repo
      ensures Valid() && old(run) <= run && OnlyMoved(j, |old(run)|, true)
      ensures threw <==> !luck.Assembles()
      ensures if threw then At(j, id, if inCatch then Threw else CountBad, true) else At(j, id, Done, inCatch)
      ensures repo.Contents() == AfterAssembly(old(repo.Contents()), luck)
      ensures luck.load && luck.write && old(repo.completedCount) > 0 ==>
                repo.zip.Some? && FilesOfRow(old(repo.Contents()), luck.hasPdf, repo.zip.value)
    {
      if !luck.load { Move(j, Throws); return true; }
      var record := repo.FindByIdRaw();
      Move(j, Works({}));
      ZipSelects(record.policyIds, record.failedPolicyIds, luck.hasPdf);
      threw := BuildAndNotify(j, id, inCatch, record, luck);
    }

    method BuildAndNotify(j: nat, id: PolicyId, inCatch: bool, record: Row, luck: Luck) returns (threw: bool)
      requires Valid() && At(j, id, Write(record), inCatch)
      modifies this, repo
      ensures Valid() && old(run) <= run && OnlyMoved(j, |old(run)|, true)
      ensures threw <==> !luck.write || !luck.notify
      ensures if threw then At(j, id, if inCatch then Threw else CountBad, true) else At(j, id, Done, inCatch)
      ensures repo.Contents() == if luck.write then Publish(old(repo.Contents()), record, luck.hasPdf) else old(repo.Contents())
    {
      if !luck.write { Move(j, Throws); return true; }
      PublishZip(j, id, inCatch, record, luck);
      Move(j, if luck.notify then Works({}) else Throws);
      threw := !luck.notify;
    }

    method PublishZip(j: nat, id: PolicyId, inCatch: bool, record: Row, luck: Luck)
      requires Valid() && At(j, id, Write(record), inCatch)
      modifies this, repo
      ensures Valid() && run == old(run) + [Handler(j, Works(luck.hasPdf))] && At(j, id, Notify, inCatch)
      ensures repo.Contents() == Publish(old(repo.Contents()), record, luck.hasPdf)
      ensures repo.expiresAt == if record.completedCount == 0 then old(repo.expiresAt) else Some(luck.now + LIFETIME)
    {
      if record.completedCount == 0 {
        repo.UpdateStatus(Failed);
      } else {
        var completed := FilterCompleted(record.policyIds, record.failedPolicyIds);
        var files := FilterStored(completed, luck.hasPdf);
        repo.UpdateZipReady(zipKey, files, luck.now + LIFETIME,
                            if record.completedCount == record.totalCount then Completed else Partial);
      }
      Move(j, Works(luck.hasPdf));
    }
  }

  /** policyIds.filter over the set of failed ids. */
  method FilterCompleted(ids: seq<PolicyId>, failed: seq<PolicyId>) returns (kept: seq<PolicyId>)
    ensures kept == Without(ids, failed) && Selects(ids, kept, id => id !in failed)
  {
    kept := [];
    for i := 0 to |ids|
      invariant kept + Without(ids[i..], failed) == Without(ids, failed)
    {
      if ids[i] !in failed { kept := kept + [ids[i]]; }
    }
    WithoutSelects(ids, failed);
  }

  /** Drops the policies whose PDF could not be found. */
  method FilterStored(ids: seq<PolicyId>, hasPdf: set<PolicyId>) returns (kept: seq<PolicyId>)
    ensures kept == Restrict(ids, hasPdf) && Selects(ids, kept, id => id in hasPdf)
  {
    kept := [];
    for i := 0 to |ids|
      invariant kept + Restrict(ids[i..], hasPdf) == Restrict(ids, hasPdf)
    {
      if ids[i] in hasPdf { kept := kept + [ids[i]]; }
    }
    RestrictSelects(ids, hasPdf);
  }
}
