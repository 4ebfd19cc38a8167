/** A queue that prepares jobs on worker threads and commits them on the main thread in the
    order they were added, whatever the workers' timing.

    Job n is the n-th one added.  Every preparation and every commit is recorded in a log;
    workers may take any number of steps between any two actions of the main thread.
 */
module SemiasyncQueue {

  datatype Event = Prepare(job: nat) | Commit(job: nat)

  /** A running thread: its jobs, and how many of them it has prepared. */
  datatype Worker = Worker(jobs: seq<nat>, prepared: nat)

  function Ids(n: nat): seq<nat> { seq(n, i => i) }

  /** The commits of a log, in order. */
  function Commits(log: seq<Event>): seq<nat> {
    if log == [] then []
    else
      var last := log[|log| - 1];
      if last.Commit? then Commits(log[..|log| - 1]) + [last.job] else Commits(log[..|log| - 1])
  }

  lemma CommitsExtend(log: seq<Event>, e: Event)
    ensures Commits(log + [e]) == if e.Commit? then Commits(log) + [e.job] else Commits(log)
  {
    assert (log + [e])[..|log|] == log;
  }

  /** A job is committed only after it has been prepared. */
  ghost predicate PreparedFirst(log: seq<Event>) {
    forall i :: 0 <= i < |log| && log[i].Commit? ==> Prepare(log[i].job) in log[..i]
  }

  /** No job is prepared twice. */
  ghost predicate PreparedOnce(log: seq<Event>) {
    forall i, j :: 0 <= i < j < |log| && log[i].Prepare? ==> log[i] != log[j]
  }

  lemma AppendPrepare(log: seq<Event>, n: nat)
    requires PreparedFirst(log) && PreparedOnce(log) && Prepare(n) !in log
    ensures PreparedFirst(log + [Prepare(n)]) && PreparedOnce(log + [Prepare(n)])
  {
    var log' := log + [Prepare(n)];
    forall i | 0 <= i < |log'| && log'[i].Commit? ensures Prepare(log'[i].job) in log'[..i] {
      assert log'[..i] == log[..i];
    }
  }

  lemma AppendCommit(log: seq<Event>, n: nat)
    requires PreparedFirst(log) && PreparedOnce(log) && Prepare(n) in log
    ensures PreparedFirst(log + [Commit(n)]) && PreparedOnce(log + [Commit(n)])
  {
    var log' := log + [Commit(n)];
    forall i | 0 <= i < |log'| && log'[i].Commit? ensures Prepare(log'[i].job) in log'[..i] {
      assert log'[..i] == log[..i];
    }
  }

  /** Commits in order are commits once: no job occurs twice. */
  lemma {:induction false} CommittedOnce(log: seq<Event>, c: nat, i: nat, j: nat)
    requires Commits(log) == Ids(c) && i < j < |log| && log[i].Commit?
    ensures log[i] != log[j]
  {
    if log[j].Commit? {
      var a := CommitAt(log, i);
      var b := CommitAt(log, j);
      assert a < b;
    }
  }

  /** Where in the list of commits a commit of the log appears. */
  lemma {:induction false} CommitAt(log: seq<Event>, i: nat) returns (k: nat)
    requires i < |log| && log[i].Commit?
    ensures k == |Commits(log[..i])| < |Commits(log)| && Commits(log)[k] == log[i].job
    ensures forall j :: i < j <= |log| ==> |Commits(log[..j])| > k
  {
    hide Commits;
    k := |Commits(log[..i])|;
    assert log[..i] + [log[i]] == log[..i + 1];
    CommitsExtend(log[..i], log[i]);
    var n := i + 1;
    while n < |log|
      invariant i < n <= |log| && k < |Commits(log[..n])| && Commits(log[..n])[k] == log[i].job
      invariant forall j :: i < j <= n ==> |Commits(log[..j])| > k
    {
      assert log[..n] + [log[n]] == log[..n + 1];
      CommitsExtend(log[..n], log[n]);
      n := n + 1;
    }
    assert log[..|log|] == log;
  }

  /** The thread's jobs are numbered consecutively from `start`. */
  ghost predicate HoldsFrom(w: Worker, start: nat) {
    w.prepared <= |w.jobs| && forall i :: 0 <= i < |w.jobs| ==> w.jobs[i] == start + i
  }

  ghost predicate HasPrepared(w: Worker, start: nat, n: nat) {
    start <= n < start + w.prepared
  }

  /** The threads hold consecutive jobs, in order. */
  ghost predicate InOrder(running: seq<Worker>, starts: seq<nat>) {
    && |starts| == |running| + 1
    && forall t: nat :: t < |running| ==> HoldsFrom(running[t], starts[t]) && starts[t + 1] == starts[t] + |running[t].jobs|
  }

  /** The jobs waiting for a thread follow those of the threads. */
  ghost predicate Waiting(running: seq<Worker>, starts: seq<nat>, nextJobs: seq<nat>, added: nat) {
    && |starts| == |running| + 1
    && (forall i :: 0 <= i < |nextJobs| ==> nextJobs[i] == starts[|running|] + i)
    && added == starts[|running|] + |nextJobs|
  }

  /** Commits happened once each, in the order of addition, each after its preparation. */
  ghost predicate Safe(log: seq<Event>, committed: nat) {
    Commits(log) == Ids(committed) && PreparedFirst(log) && PreparedOnce(log)
  }

  ghost predicate IsPrepared(running: seq<Worker>, starts: seq<nat>, n: nat)
    requires |starts| == |running| + 1
  {
    n < starts[0] || exists t: nat :: t < |running| && HasPrepared(running[t], starts[t], n)
  }

  /** Exactly the jobs the threads say they have prepared are recorded as prepared. */
  ghost predicate Recorded(log: seq<Event>, running: seq<Worker>, starts: seq<nat>) {
    && |starts| == |running| + 1
    && forall n: nat :: Prepare(n) in log <==> IsPrepared(running, starts, n)
  }

  /** The same jobs on the same threads; only preparation may have gone on. */
  ghost predicate SameThreads(a: seq<Worker>, b: seq<Worker>) {
    |a| == |b| && forall t :: 0 <= t < |a| ==> a[t].jobs == b[t].jobs
  }

  function Advanced(ws: seq<Worker>, t: nat): seq<Worker>
    requires t < |ws|
  {
    ws[t := Worker(ws[t].jobs, ws[t].prepared + 1)]
  }

  lemma {:induction false} StartsRise(running: seq<Worker>, starts: seq<nat>, a: nat, b: nat)
    requires InOrder(running, starts) && a <= b <= |running|
    ensures starts[a] <= starts[b]
    decreases b
  {
    if a < b {
      StartsRise(running, starts, a, b - 1);
    }
  }

  /** A job waiting in a thread has not been prepared by any. */
  lemma NotYetPrepared(log: seq<Event>, running: seq<Worker>, starts: seq<nat>, t: nat)
    requires InOrder(running, starts) && Recorded(log, running, starts)
    requires t < |running| && running[t].prepared < |running[t].jobs|
    ensures running[t].jobs[running[t].prepared] == starts[t] + running[t].prepared
    ensures Prepare(starts[t] + running[t].prepared) !in log
  {
    var n := starts[t] + running[t].prepared;
    assert HoldsFrom(running[t], starts[t]);
    StartsRise(running, starts, 0, t);
    forall s: nat | s < |running| ensures !HasPrepared(running[s], starts[s], n) {
      assert HoldsFrom(running[s], starts[s]);
      if s < t {
        StartsRise(running, starts, s + 1, t);
      } else if t < s {
        StartsRise(running, starts, t + 1, s);
      }
    }
  }

  lemma AdvancedInOrder(running: seq<Worker>, starts: seq<nat>, t: nat)
    requires InOrder(running, starts) && t < |running| && running[t].prepared < |running[t].jobs|
    ensures InOrder(Advanced(running, t), starts) && SameThreads(running, Advanced(running, t))
  {
    forall s: nat | s < |running|
      ensures HoldsFrom(Advanced(running, t)[s], starts[s])
      ensures starts[s + 1] == starts[s] + |Advanced(running, t)[s].jobs|
    {
      assert HoldsFrom(running[s], starts[s]);
    }
  }

  lemma AdvancedRecorded(log: seq<Event>, running: seq<Worker>, starts: seq<nat>, t: nat)
    requires Recorded(log, running, starts) && t < |running|
    ensures Recorded(log + [Prepare(starts[t] + running[t].prepared)], Advanced(running, t), starts)
  {
    var p := starts[t] + running[t].prepared;
    var log', running' := log + [Prepare(p)], Advanced(running, t);
    forall n: nat ensures Prepare(n) in log' <==> IsPrepared(running', starts, n) {
      assert Prepare(n) in log' <==> Prepare(n) in log || n == p;
      StillPrepared(running, running', starts, t, n);
    }
  }

  lemma StillPrepared(a: seq<Worker>, b: seq<Worker>, starts: seq<nat>, t: nat, n: nat)
    requires t < |a| && |starts| == |a| + 1 && b == Advanced(a, t)
    ensures IsPrepared(b, starts, n) <==> IsPrepared(a, starts, n) || n == starts[t] + a[t].prepared
  {
    if s: nat :| s < |a| && HasPrepared(a[s], starts[s], n) {
      assert HasPrepared(b[s], starts[s], n);
    }
    if n == starts[t] + a[t].prepared {
      assert HasPrepared(b[t], starts[t], n);
    }
    if s: nat :| s < |b| && HasPrepared(b[s], starts[s], n) {
      assert HasPrepared(a[s], starts[s], n) || (s == t && n == starts[t] + a[t].prepared);
    }
  }

  lemma SafePrepare(log: seq<Event>, committed: nat, n: nat)
    requires Safe(log, committed) && Prepare(n) !in log
    ensures Safe(log + [Prepare(n)], committed)
  {
    CommitsExtend(log, Prepare(n));
    AppendPrepare(log, n);
  }

  lemma SafeCommit(log: seq<Event>, committed: nat)
    requires Safe(log, committed) && Prepare(committed) in log
    ensures Safe(log + [Commit(committed)], committed + 1)
  {
    CommitsExtend(log, Commit(committed));
    AppendCommit(log, committed);
  }

  lemma CommitRecorded(log: seq<Event>, running: seq<Worker>, starts: seq<nat>, n: nat)
    requires Recorded(log, running, starts)
    ensures Recorded(log + [Commit(n)], running, starts)
  {
    forall m: nat ensures Prepare(m) in log + [Commit(n)] <==> Prepare(m) in log {
    }
  }

  /** Removing the front thread when it has prepared everything. */
  lemma PoppedRecorded(log: seq<Event>, running: seq<Worker>, starts: seq<nat>)
    requires InOrder(running, starts) && Recorded(log, running, starts)
    requires running != [] && running[0].prepared == |running[0].jobs|
    ensures InOrder(running[1..], starts[1..]) && Recorded(log, running[1..], starts[1..])
  {
    forall t: nat | t < |running[1..]|
      ensures HoldsFrom(running[1..][t], starts[1..][t])
      ensures starts[1..][t + 1] == starts[1..][t] + |running[1..][t].jobs|
    {
      assert HoldsFrom(running[t + 1], starts[t + 1]);
    }
    assert HoldsFrom(running[0], starts[0]);
    forall n: nat ensures IsPrepared(running, starts, n) <==> IsPrepared(running[1..], starts[1..], n) {
      PoppedPrepared(running, starts, n);
    }
  }

  lemma PoppedPrepared(was: seq<Worker>, from: seq<nat>, n: nat)
    requires was != [] && |from| == |was| + 1
    requires was[0].prepared == |was[0].jobs| && from[1] == from[0] + |was[0].jobs|
    ensures IsPrepared(was, from, n) <==> IsPrepared(was[1..], from[1..], n)
  {
    if t: nat :| t < |was| && HasPrepared(was[t], from[t], n) {
      assert t > 0 ==> HasPrepared(was[1..][t - 1], from[1..][t - 1], n);
    }
    if t: nat :| t < |was[1..]| && HasPrepared(was[1..][t], from[1..][t], n) {
      assert HasPrepared(was[t + 1], from[t + 1], n);
    }
    if from[0] <= n < from[1] {
      assert HasPrepared(was[0], from[0], n);
    }
  }

  /** A new thread takes over the waiting jobs. */
  lemma SpawnedRecorded(log: seq<Event>, running: seq<Worker>, starts: seq<nat>, nextJobs: seq<nat>, added: nat)
    requires InOrder(running, starts) && Recorded(log, running, starts) && Waiting(running, starts, nextJobs, added)
    ensures InOrder(running + [Worker(nextJobs, 0)], starts + [added])
    ensures Recorded(log, running + [Worker(nextJobs, 0)], starts + [added])
    ensures Waiting(running + [Worker(nextJobs, 0)], starts + [added], [], added)
  {
    var now, to := running + [Worker(nextJobs, 0)], starts + [added];
    forall t: nat | t < |now| ensures HoldsFrom(now[t], to[t]) && to[t + 1] == to[t] + |now[t].jobs| {
      if t < |running| {
        assert HoldsFrom(running[t], starts[t]);
      }
    }
    forall n: nat ensures IsPrepared(running, starts, n) <==> IsPrepared(now, to, n) {
      if t: nat :| t < |running| && HasPrepared(running[t], starts[t], n) {
        assert HasPrepared(now[t], to[t], n);
      }
      if t: nat :| t < |now| && HasPrepared(now[t], to[t], n) {
        assert t < |running|;
      }
    }
  }

  /** How many jobs all threads together have still to prepare. */
  ghost function Unprepared(ws: seq<Worker>): nat {
    if ws == [] then 0 else Unprepared(ws[..|ws| - 1]) + Left(ws[|ws| - 1])
  }

  ghost function Left(w: Worker): nat {
    if w.prepared <= |w.jobs| then |w.jobs| - w.prepared else 0
  }

  lemma {:induction false} UnpreparedDrops(ws: seq<Worker>, t: nat)
    requires t < |ws| && ws[t].prepared < |ws[t].jobs|
    ensures Unprepared(Advanced(ws, t)) < Unprepared(ws)
  {
    var m := |ws| - 1;
    if t == m {
      assert Advanced(ws, t)[..m] == ws[..m];
    } else {
      UnpreparedDrops(ws[..m], t);
      assert Advanced(ws, t)[..m] == Advanced(ws[..m], t);
    }
  }

  /** What the works of some jobs add up to, cut to whole units after each addition. */
  function Accumulated(works: seq<real>): int {
    if works == [] then 0 else (Accumulated(works[..|works| - 1]) as real + works[|works| - 1]).Floor
  }

  lemma AccumulatedExtend(works: seq<real>, work: real)
    ensures Accumulated(works + [work]) == (Accumulated(works) as real + work).Floor
  {
    assert (works + [work])[..|works|] == works;
  }

  /** One more thread runs these jobs; when all were in use, the first had to end for it. */
  ghost predicate OneMore(before: seq<Worker>, maxThreads: nat, jobs: seq<nat>, after: seq<Worker>) {
    && after != [] && after[|after| - 1].jobs == jobs
    && SameThreads(if before != [] && |before| == maxThreads then before[1..] else before, after[..|after| - 1])
  }

  /** How many jobs are committed to make room for one more thread. */
  function MakingRoom(before: seq<Worker>, maxThreads: nat): nat {
    if before != [] && |before| == maxThreads then |before[0].jobs| else 0
  }

  class SemiasyncQueue {
    const maxThreads: nat
    const workPerThread: real
    var nextJobs: seq<nat>
    var running: seq<Worker>
    var expectedWork: nat
    /** How many jobs have been added, and how many committed. */
    ghost var added: nat
    ghost var committed: nat
    /** The first job of every running thread, and of the jobs not yet given to one. */
    ghost var starts: seq<nat>
    /** The work expected of each job not yet given to a thread. */
    ghost var works: seq<real>
    ghost var log: seq<Event>

    /** What holds at every moment, `k` jobs of the front thread having been committed. */
    ghost predicate Inv(k: nat)
      reads this
    {
      && InOrder(running, starts) && Waiting(running, starts, nextJobs, added)
      && Safe(log, committed) && Recorded(log, running, starts)
      && committed == starts[0] + k && (k > 0 ==> running != [] && k <= |running[0].jobs|)
      && |running| <= maxThreads
      && |works| == |nextJobs| && expectedWork == Accumulated(works)
    }

    ghost predicate Valid()
      reads this
    {
      Inv(0) && (maxThreads == 0 ==> nextJobs == [])
    }

    constructor (maxThreads: nat, workPerThread: real)
      ensures Valid() && added == 0 && log == []
      ensures this.maxThreads == maxThreads && this.workPerThread == workPerThread
    {
      this.maxThreads, this.workPerThread := maxThreads, workPerThread;
      nextJobs, running, expectedWork := [], [], 0;
      added, committed, starts, works, log := 0, 0, [0], [], [];
    }

    /** One worker prepares its next job. */
    method WorkerStep(t: nat, ghost k: nat)
      requires Inv(k) && t < |running| && running[t].prepared < |running[t].jobs|
      modifies this`running, this`log
      ensures Inv(k) && running == Advanced(old(running), t) && SameThreads(old(running), running)
      ensures old(log) < log && Unprepared(running) < Unprepared(old(running))
    {
      hide InOrder, Safe, Recorded, HoldsFrom, Unprepared;
      NotYetPrepared(log, running, starts, t);
      AdvancedInOrder(running, starts, t);
      AdvancedRecorded(log, running, starts, t);
      SafePrepare(log, committed, starts[t] + running[t].prepared);
      UnpreparedDrops(running, t);
      ghost var n := running[t].jobs[running[t].prepared];
      running := running[t := Worker(running[t].jobs, running[t].prepared + 1)];
      log := log + [Prepare(n)];
    }

    /** Any number of steps by any of the workers. */
    method Workers(ghost k: nat)
      requires Inv(k)
      modifies this`running, this`log
      ensures Inv(k) && SameThreads(old(running), running) && old(log) <= log
      ensures running != [] && old(running[0].prepared == |running[0].jobs|) ==> running[0].prepared == |running[0].jobs|
    {
      hide InOrder, Safe, Recorded;
      while *
        invariant Inv(k) && SameThreads(old(running), running) && old(log) <= log
        invariant running != [] && old(running[0].prepared == |running[0].jobs|) ==> running[0].prepared == |running[0].jobs|
        decreases Unprepared(running)
      {
        if t: nat :| t < |running| && running[t].prepared < |running[t].jobs| {
          WorkerStep(t, k);
        } else {
          break;
        }
      }
    }

    /** Waits for the front thread; meanwhile any worker may run. */
    method JoinFront()
      requires Inv(0) && running != []
      modifies this`running, this`log
      ensures Inv(0) && SameThreads(old(running), running) && old(log) <= log
      ensures running[0].prepared == |running[0].jobs|
    {
      hide Safe, Recorded, Waiting;
      while running[0].prepared < |running[0].jobs|
        invariant Inv(0) && running != [] && SameThreads(old(running), running) && old(log) <= log
        decreases Unprepared(running)
      {
        var t: nat :| t < |running| && running[t].prepared < |running[t].jobs|;
        WorkerStep(t, 0);
      }
      assert HoldsFrom(running[0], starts[0]);
    }

    /** Commits the next job of the front thread, which has been prepared. */
    method CommitNext(k: nat)
      requires Inv(k) && running != [] && k < |running[0].jobs| == running[0].prepared
      modifies this`log, this`committed
      ensures Inv(k + 1) && committed == old(committed) + 1 && old(log) <= log
    {
      ghost var n := running[0].jobs[k];
      assert HoldsFrom(running[0], starts[0]);
      assert HasPrepared(running[0], starts[0], n);
      assert IsPrepared(running, starts, n);
      assert Prepare(n) in log;
      hide InOrder, Safe, Recorded;
      SafeCommit(log, committed);
      CommitRecorded(log, running, starts, n);
      log := log + [Commit(n)];
      committed := committed + 1;
    }

    method PopFront()
      requires running != [] && Inv(|running[0].jobs|) && running[0].prepared == |running[0].jobs|
      modifies this`running, this`starts
      ensures Inv(0) && running == old(running)[1..]
    {
      assert HoldsFrom(running[0], starts[0]) && starts[1] == starts[0] + |running[0].jobs|;
      hide InOrder, Safe, Recorded;
      PoppedRecorded(log, running, starts);
      running := running[1..];
      starts := starts[1..];
    }

    /** Joins the front thread, commits its jobs in order and removes it. */
    method CommitThread()
      requires Inv(0) && running != []
      modifies this`running, this`log, this`committed, this`starts
      ensures Inv(0) && SameThreads(old(running)[1..], running) && old(log) <= log
      ensures committed == old(committed) + |old(running)[0].jobs|
    {
      hide InOrder, Safe, Recorded, Waiting;
      JoinFront();
      var k := 0;
      while k < |running[0].jobs|
        invariant running != [] && SameThreads(old(running), running) && k <= |running[0].jobs| == running[0].prepared
        invariant Inv(k) && committed == old(committed) + k && old(log) <= log
      {
        CommitNext(k);
        k := k + 1;
        Workers(k);
      }
      PopFront();
    }

    /** Gives the waiting jobs to a new thread, after making room for it. */
    method SpawnNextThread()
      requires Inv(0) && maxThreads > 0
      modifies this
      ensures Inv(0) && nextJobs == [] && added == old(added) && old(log) <= log
      ensures OneMore(old(running), maxThreads, old(nextJobs), running)
      ensures committed == old(committed) + MakingRoom(old(running), maxThreads)
    {
      hide InOrder, Safe, Recorded, Waiting;
      if |running| == maxThreads {
        CommitThread();
      }
      SpawnedRecorded(log, running, starts, nextJobs, added);
      running := running + [Worker(nextJobs, 0)];
      starts := starts + [added];
      nextJobs, works := [], [];
      expectedWork := 0;
      Workers(0);
    }

    /** Adds the next job, called by its number.  The work estimate is kept in whole units, as
        the source rounds it.  As soon as the works of the waiting jobs add up to what a thread
        is worth, one new thread takes all of them; until then they wait and nothing happens. */
    method AddJob(job: nat, work: real)
      requires Valid() && work >= 0.0 && job == added
      modifies this
      ensures Valid() && added == old(added) + 1 && old(log) <= log
      ensures maxThreads > 0 && Accumulated(old(works) + [work]) as real >= workPerThread ==>
                && nextJobs == [] && works == []
                && OneMore(old(running), maxThreads, old(nextJobs) + [job], running)
                && committed == old(committed) + MakingRoom(old(running), maxThreads)
      ensures maxThreads > 0 && Accumulated(old(works) + [work]) as real < workPerThread ==>
                && nextJobs == old(nextJobs) + [job] && works == old(works) + [work]
                && running == old(running) && committed == old(committed)
      ensures maxThreads == 0 ==> committed == added
    {
      hide InOrder, Safe, Recorded, Accumulated;
      if maxThreads != 0 {
        AccumulatedExtend(works, work);
        nextJobs := nextJobs + [job];
        works := works + [work];
        added := added + 1;
        var total := (expectedWork as real + work).Floor;
        expectedWork := total;
        if expectedWork as real >= workPerThread {
          SpawnNextThread();
        }
      } else {
        RunInline();
      }
    }

    /** Without threads, the job is prepared and committed at once. */
    method RunInline()
      requires Valid() && maxThreads == 0
      modifies this`log, this`added, this`committed, this`starts
      ensures Valid() && added == old(added) + 1 && committed == added && old(log) <= log
    {
      hide Safe;
      ghost var n := added;
      NoneRunning(log, n);
      SafePrepare(log, n, n);
      log := log + [Prepare(n)];
      SafeCommit(log, n);
      log := log + [Commit(n)];
      added, committed, starts := n + 1, n + 1, [n + 1];
    }

    /** Afterwards every job added has been committed, in order, and nothing is pending. */
    method Complete()
      requires Valid()
      modifies this
      ensures Valid() && added == old(added) && old(log) <= log
      ensures running == [] && nextJobs == [] && Commits(log) == Ids(added)
    {
      hide InOrder, Recorded;
      if |nextJobs| > 0 {
        SpawnNextThread();
      }
      while |running| > 0
        invariant Inv(0) && nextJobs == [] && added == old(added) && old(log) <= log
        decreases |running|
      {
        CommitThread();
      }
    }
  }

  lemma NoneRunning(log: seq<Event>, n: nat)
    requires Recorded(log, [], [n])
    ensures Prepare(n) !in log
    ensures Recorded(log + [Prepare(n)] + [Commit(n)], [], [n + 1])
  {
    assert !IsPrepared([], [n], n);
    forall m: nat ensures Prepare(m) in log + [Prepare(n)] + [Commit(n)] <==> IsPrepared([], [n + 1], m) {
      assert Prepare(m) in log <==> IsPrepared([], [n], m);
    }
  }
}
