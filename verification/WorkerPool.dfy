/** A pool of workers that share one index into a list of tasks.

    A worker checks the index, takes it, and starts the task without giving up
    control; it is then suspended until its task settles. The only freedom of a run
    is which suspended worker resumes next, so a loop that picks any of them covers
    every interleaving. */
module WorkerPool {
  import opened Wrappers

  /** How the promise of a task settles. */
  datatype Settled<+T> = Value(v: T) | Error

  function Min(a: int, b: int): int { if a < b then a else b }

  function Max(a: nat, b: nat): nat { if a < b then b else a }

  /** The tasks were started in order, each once. */
  ghost predicate InOrder(started: seq<nat>) { forall k :: 0 <= k < |started| ==> started[k] == k }

  /** What every suspension point keeps: the tasks below the index are stored, in
      flight on exactly one worker, or failed. */
  ghost predicate PoolInv<T>(tasks: seq<Settled<T>>, results: map<nat, T>, running: map<nat, nat>, index: nat, failed: bool) {
    && index <= |tasks|
    && (forall i :: i in results ==> i < index && tasks[i] == Value(results[i]))
    && (forall w :: w in running ==> running[w] < index && running[w] !in results)
    && (forall w, x :: w in running && x in running && running[w] == running[x] ==> w == x)
    && (forall i :: 0 <= i < index && i !in results && !InFlight(running, i) ==> tasks[i].Error? && failed)
    && (failed ==> exists i :: 0 <= i < |tasks| && tasks[i].Error?)
  }

  ghost predicate InFlight(running: map<nat, nat>, i: nat) { exists w :: w in running && running[w] == i }

  /** The workers are created one after the other; each runs up to its first await. */
  method StartWorkers(n: nat, workers: nat) returns (running: map<nat, nat>, index: nat)
    requires workers <= n
    ensures index == |running| == workers
    ensures forall w :: w in running <==> 0 <= w < index
    ensures forall w :: w in running ==> running[w] == w
  {
    running, index := map[], 0;
    for k := 0 to workers
      invariant index == k == |running|
      invariant forall w :: w in running <==> 0 <= w < k
      invariant forall w :: w in running ==> running[w] == w
    {
      running := running[k := index];
      index := index + 1;
    }
  }

  lemma StartedOk<T>(tasks: seq<Settled<T>>, running: map<nat, nat>, index: nat)
    requires index <= |tasks|
    requires forall w :: w in running <==> 0 <= w < index
    requires forall w :: w in running ==> running[w] == w
    ensures PoolInv(tasks, map[], running, index, false)
  {
    forall i | 0 <= i < index ensures InFlight(running, i) { assert running[i] == i; }
  }

  /** `started` is the order in which tasks were started, and `maxInFlight` the largest
      number of them ever in flight at once. If every task succeeds and there is at
      least one worker, the result is every task's value at its own place; if some task
      fails the call rejects. With concurrency below one no worker exists and the call
      returns no results at all, whatever the tasks. */
  method RunConcurrent<T>(tasks: seq<Settled<T>>, concurrency: int)
    returns (r: Result<seq<T>, ()>, started: seq<nat>, ghost maxInFlight: nat)
    ensures InOrder(started) && |started| <= |tasks|
    ensures maxInFlight == if concurrency < 1 then 0 else Min(concurrency, |tasks|)
    ensures (concurrency >= 1 || tasks == []) && AllSucceed(tasks) ==>
              |started| == |tasks| && r.Ok? && ValuesOf(r.value, tasks)
    ensures concurrency >= 1 && !AllSucceed(tasks) ==> r.Err?
    ensures concurrency < 1 ==> r == Ok([]) && started == []
  {
    var workers := if concurrency < 1 then 0 else Min(concurrency, |tasks|);
    var results, index, failed;
    results, index, failed, started, maxInFlight := RunAll(tasks, workers);
    if failed {
      r := Err(());
    } else if index < |tasks| {
      r := Ok([]);
    } else {
      AllStored(tasks, results);
      r := Ok(seq(|tasks|, i requires 0 <= i < |tasks| && i in results => results[i]));
    }
  }

  ghost predicate AllSucceed<T>(tasks: seq<Settled<T>>) { forall i :: 0 <= i < |tasks| ==> tasks[i].Value? }

  ghost predicate ValuesOf<T>(values: seq<T>, tasks: seq<Settled<T>>) {
    |values| == |tasks| && forall i :: 0 <= i < |tasks| ==> tasks[i] == Value(values[i])
  }

  /** Starts the workers and resumes them until none is left. */
  method RunAll<T>(tasks: seq<Settled<T>>, workers: nat)
    returns (results: map<nat, T>, index: nat, failed: bool, started: seq<nat>, ghost maxInFlight: nat)
    requires workers <= |tasks|
    ensures PoolInv(tasks, results, map[], index, failed)
    ensures |started| == index && InOrder(started)
    ensures maxInFlight == workers
    ensures workers > 0 && !failed ==> index == |tasks|
    ensures workers == 0 ==> index == 0 && !failed
  {
    var running;
    running, index := StartWorkers(|tasks|, workers);
    results, failed := map[], false;
    started := seq(index, k => k);
    maxInFlight := |running|;
    StartedOk(tasks, running, index);
    while running != map[]
      invariant PoolInv(tasks, results, running, index, failed)
      invariant |started| == index && InOrder(started)
      invariant |running| <= maxInFlight == workers
      invariant index < |tasks| && !failed ==> |running| == workers
      invariant workers == 0 ==> index == 0 && !failed && running == map[]
      decreases |tasks| - index, |running|
    {
      var took: bool;
      results, running, failed, took := ResumeAny(tasks, results, running, index, failed);
      maxInFlight := Max(maxInFlight, |running|);
      if took {
        started, index := started + [index], index + 1;
      }
    }
  }

  /** One of the suspended workers, whichever the event loop picks, resumes with its
      task settled and runs to its next await. `took`: it started task `index`. */
  method ResumeAny<T>(tasks: seq<Settled<T>>, results: map<nat, T>, running: map<nat, nat>, index: nat, failed: bool)
    returns (results': map<nat, T>, running': map<nat, nat>, failed': bool, took: bool)
    requires PoolInv(tasks, results, running, index, failed) && running != map[]
    ensures took ==> index < |tasks| && |running'| == |running|
    ensures !took ==> |running'| == |running| - 1 && (failed' || index == |tasks|)
    ensures failed ==> failed'
    ensures PoolInv(tasks, results', running', if took then index + 1 else index, failed')
  {
    var w :| w in running;
    var i := running[w];
    match tasks[i]
    case Value(v) =>
      if index < |tasks| {
        TakesNext(tasks, results, running, index, failed, w, v);
        results', running', failed', took := results[i := v], running[w := index], failed, true;
      } else {
        Exits(tasks, results, running, index, failed, w, v);
        results', running', failed', took := results[i := v], running - {w}, failed, false;
      }
    case Error =>
      Rejected(tasks, results, running, index, failed, w);
      results', running', failed', took := results, running - {w}, true, false;
  }

  lemma AllStored<T>(tasks: seq<Settled<T>>, results: map<nat, T>)
    requires PoolInv(tasks, results, map[], |tasks|, false)
    ensures forall i :: 0 <= i < |tasks| ==> i in results && tasks[i] == Value(results[i])
  {
    forall i | 0 <= i < |tasks| ensures i in results { assert !InFlight(map[], i); }
  }

  /** A worker stores its result and takes the next task. */
  lemma TakesNext<T>(tasks: seq<Settled<T>>, results: map<nat, T>, running: map<nat, nat>, index: nat, failed: bool, w: nat, v: T)
    requires PoolInv(tasks, results, running, index, failed) && w in running && tasks[running[w]] == Value(v)
    requires index < |tasks|
    ensures PoolInv(tasks, results[running[w] := v], running[w := index], index + 1, failed)
    ensures |running[w := index]| == |running|
  {
    var done, next := results[running[w] := v], running[w := index];
    SameSize(running, w, index);
    assert next[w] == index;
    forall i | 0 <= i < index + 1 && i !in done && !InFlight(next, i) ensures tasks[i].Error? && failed {
      if InFlight(running, i) { Elsewhere(running, w, i, next); }
    }
  }

  lemma SameSize(running: map<nat, nat>, w: nat, i: nat)
    requires w in running
    ensures |running[w := i]| == |running|
  {
    assert running[w := i].Keys == running.Keys;
    assert |running[w := i].Keys| == |running[w := i]| && |running.Keys| == |running|;
  }

  lemma Elsewhere(running: map<nat, nat>, w: nat, i: nat, next: map<nat, nat>)
    requires w in running && InFlight(running, i) && running[w] != i
    requires forall x :: x in running && x != w ==> x in next && next[x] == running[x]
    ensures InFlight(next, i)
  {
    var x :| x in running && running[x] == i;
    assert next[x] == i;
  }

  /** A worker stores its result and finds no task left. */
  lemma Exits<T>(tasks: seq<Settled<T>>, results: map<nat, T>, running: map<nat, nat>, index: nat, failed: bool, w: nat, v: T)
    requires PoolInv(tasks, results, running, index, failed) && w in running && tasks[running[w]] == Value(v)
    ensures PoolInv(tasks, results[running[w] := v], running - {w}, index, failed)
    ensures |running - {w}| == |running| - 1
  {
    var done, rest := results[running[w] := v], running - {w};
    Removed(running, w);
    forall i | 0 <= i < index && i !in done && !InFlight(rest, i) ensures tasks[i].Error? && failed {
      if InFlight(running, i) { Elsewhere(running, w, i, rest); }
    }
  }

  lemma Removed(running: map<nat, nat>, w: nat)
    requires w in running
    ensures |running - {w}| == |running| - 1
  {
    assert (running - {w}).Keys == running.Keys - {w};
    assert |(running - {w}).Keys| == |running - {w}| && |running.Keys| == |running|;
  }

  /** A worker whose task failed exits; the others go on. */
  lemma Rejected<T>(tasks: seq<Settled<T>>, results: map<nat, T>, running: map<nat, nat>, index: nat, failed: bool, w: nat)
    requires PoolInv(tasks, results, running, index, failed) && w in running && tasks[running[w]].Error?
    ensures PoolInv(tasks, results, running - {w}, index, true)
    ensures |running - {w}| == |running| - 1
  {
    Removed(running, w);
    forall i | 0 <= i < index && i !in results && !InFlight(running - {w}, i) ensures tasks[i].Error? {
      if InFlight(running, i) && running[w] != i { Elsewhere(running, w, i, running - {w}); }
    }
  }
}
