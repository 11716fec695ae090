/** The scheduler makes progress: as long as it is not stopped, whatever the threads do next brings the
    submitted jobs nearer to their end, and they can always do something until all of them are finished. */
module SchedulerProgress {
  import opened Basics
  import opened Scheduling
  import opened SchedulerRuns

  /** A step that neither submits a job nor stops anything. */
  predicate Works(a: Action) {
    !a.Submit? && !Stops(a)
  }

  ghost predicate AllWork(acts: seq<Action>) {
    forall i :: 0 <= i < |acts| ==> Works(acts[i])
  }

  // ---------- What is left to do ----------

  /** The steps of a thread until it is ready to take its next slice, at most. */
  function Phase(pc: Pc): nat {
    match pc
    case Working(_) => 6
    case Reporting(_) => 5
    case Counting(_) => 4
    case Idle => 3
    case Arriving => 2
    case Waiting(_) => 1
    case Passed => 0
  }

  /** The steps of a thread if there are no more jobs than these, at most. */
  function Left(th: Thread, jobs: nat): int {
    7 * (jobs - |th.taken|) + Phase(th.pc)
  }

  function LeftAll(ts: seq<Thread>, jobs: nat): int {
    if ts == [] then 0 else LeftAll(ts[..|ts| - 1], jobs) + Left(ts[|ts| - 1], jobs)
  }

  function StepsLeft(s: System): int {
    |s.submitting| + LeftAll(s.threads, |s.statuses|)
  }

  lemma {:induction false} LeftUpdate(ts: seq<Thread>, t: nat, th: Thread, jobs: nat)
    requires t < |ts|
    ensures LeftAll(ts[t := th], jobs) == LeftAll(ts, jobs) - Left(ts[t], jobs) + Left(th, jobs)
  {
    var last := |ts| - 1;
    if t == last {
      assert ts[t := th][..last] == ts[..last];
    } else {
      LeftUpdate(ts[..last], t, th, jobs);
      assert ts[t := th][..last] == ts[..last][t := th];
    }
  }

  lemma {:induction false} LeftIsNat(ts: seq<Thread>, jobs: nat)
    requires forall t :: 0 <= t < |ts| ==> |ts[t].taken| <= jobs
    ensures LeftAll(ts, jobs) >= 0
  {
    if ts != [] {
      LeftIsNat(ts[..|ts| - 1], jobs);
    }
  }

  /** No more jobs have been enqueued than created. */
  lemma FifoIsShort(s: System, k: Progress)
    requires Inv(s, k)
    ensures |s.fifo| <= |s.statuses|
    ensures |s.fifo| == |s.statuses| ==> forall j: nat :: j < |s.statuses| ==> j in s.fifo
  {
    assert forall i: nat, j: nat :: i < j < |s.fifo| ==> Differ(s.fifo, i, j);
    DistinctBelow(s.fifo, |s.statuses|);
  }

  lemma StepsLeftIsNat(s: System, k: Progress)
    requires Inv(s, k)
    ensures StepsLeft(s) >= 0
  {
    FifoIsShort(s, k);
    forall t | 0 <= t < |s.threads|
      ensures |s.threads[t].taken| <= |s.statuses|
    {
      assert ThreadInv(s, k, t);
    }
    LeftIsNat(s.threads, |s.statuses|);
  }

  /** Thread t moves on, and the number of jobs stays. */
  lemma ThreadMoves(s: System, s': System, t: nat, th: Thread)
    requires t < |s.threads| && s'.threads == s.threads[t := th]
    requires |s'.statuses| == |s.statuses| && s'.submitting == s.submitting
    requires Left(th, |s.statuses|) < Left(s.threads[t], |s.statuses|)
    ensures StepsLeft(s') < StepsLeft(s)
  {
    LeftUpdate(s.threads, t, th, |s.statuses|);
  }

  lemma EnqueueMoves(s: System, k: Progress, job: nat)
    requires Inv(s, k) && Enabled(s, Enqueue(job))
    ensures StepsLeft(Next(s, Enqueue(job))) < StepsLeft(s)
  {
    var s' := Next(s, Enqueue(job));
    assert s'.submitting == s.submitting - {job} && s'.threads == s.threads && |s'.statuses| == |s.statuses|;
  }

  lemma TakeMoves(s: System, k: Progress, t: nat)
    requires Inv(s, k) && Enabled(s, Take(t))
    ensures StepsLeft(Next(s, Take(t))) < StepsLeft(s)
  {
    TakeIsNext(s, k, t);
    var s' := TakenSystem(s, t, s.fifo[k.p]);
    ThreadMoves(s, s', t, s'.threads[t]);
  }

  lemma NotifyMoves(s: System, k: Progress, t: nat)
    requires Inv(s, k) && Enabled(s, Notify(t))
    ensures StepsLeft(Next(s, Notify(t))) < StepsLeft(s)
  {
    var i, s', k' := NotifyFacts(s, k, t);
    ThreadMoves(s, s', t, s'.threads[t]);
  }

  lemma ReportMoves(s: System, k: Progress, t: nat)
    requires Inv(s, k) && Enabled(s, Report(t))
    ensures StepsLeft(Next(s, Report(t))) < StepsLeft(s)
  {
    ReportChangesOneStatus(s, k, t);
    var s' := Next(s, Report(t));
    ThreadMoves(s, s', t, s'.threads[t]);
  }

  /** Every step brings the end nearer. */
  lemma StepMoves(s: System, k: Progress, a: Action)
    requires Inv(s, k) && Enabled(s, a) && Works(a)
    ensures StepsLeft(Next(s, a)) < StepsLeft(s)
  {
    var s' := Next(s, a);
    match a
    case Enqueue(job) => EnqueueMoves(s, k, job);
    case Ask(t) => ThreadMoves(s, s', t, s'.threads[t]);
    case Arrive(t) => ThreadMoves(s, s', t, s'.threads[t]);
    case Leave(t) => ThreadMoves(s, s', t, s'.threads[t]);
    case Take(t) => TakeMoves(s, k, t);
    case Notify(t) => NotifyMoves(s, k, t);
    case Report(t) => ReportMoves(s, k, t);
    case Count(t) => ThreadMoves(s, s', t, s'.threads[t]);
  }

  lemma {:induction false} RunMoves(s: System, k: Progress, acts: seq<Action>)
    requires Inv(s, k) && Runnable(s, acts) && AllWork(acts)
    ensures |acts| <= StepsLeft(s)
    decreases |acts|
  {
    StepsLeftIsNat(s, k);
    if acts != [] {
      assert Works(acts[0]);
      assert forall i :: 0 <= i < |acts| - 1 ==> acts[1..][i] == acts[i + 1];
      StepMoves(s, k, acts[0]);
      var k' := StepKeepsInv(s, k, acts[0]);
      RunMoves(Next(s, acts[0]), k', acts[1..]);
    }
  }

  // ---------- Nothing left to do ----------

  /** No thread can do anything, and nothing is to be enqueued. */
  ghost predicate Quiescent(s: System) {
    forall a :: Works(a) ==> !Enabled(s, a)
  }

  /** Every submitted job is finished, and the context counts none. */
  ghost predicate AllFinished(s: System) {
    s.current == 0 && s.submitting == {} && forall j :: 0 <= j < |s.statuses| ==> s.statuses[j] == FINISHED
  }

  /** A thread that can do nothing waits at the barrier for the threads that are one generation behind, or
      has passed it and waits for a job. */
  lemma QuiescentThread(s: System, k: Progress, t: nat)
    requires Inv(s, k) && Quiescent(s) && t < |s.threads|
    ensures s.threads[t].pc.Passed? || (s.threads[t].pc.Waiting? && s.threads[t].arrived == k.b + 1)
    ensures s.threads[t].pc.Passed? ==> s.sched.queue == [] && s.threads[t].arrived == k.b == |s.threads[t].taken| + 1
    ensures s.threads[t].pc.Waiting? ==> |s.threads[t].taken| == k.b
  {
    assert ThreadInv(s, k, t);
    assert !Enabled(s, Ask(t)) && !Enabled(s, Arrive(t)) && !Enabled(s, Leave(t)) && !Enabled(s, Take(t));
    assert !Enabled(s, Notify(t)) && !Enabled(s, Report(t)) && !Enabled(s, Count(t));
  }

  /** Not all threads wait at the barrier, and none does when another has passed it and finds no job. */
  lemma AllHavePassed(s: System, k: Progress)
    requires Inv(s, k) && Quiescent(s)
    ensures s.sched.queue == [] && k.p == |s.fifo|
    ensures forall t: nat :: t < |s.threads| ==> s.threads[t].pc.Passed? && s.threads[t].notified == k.p
  {
    AboveBounds(s.threads, ArrivedCount, k.b);
    var u: nat :| u < |s.threads| && Value(s.threads[u], ArrivedCount) <= k.b;
    QuiescentThread(s, k, u);
    assert k.p == |s.fifo|;
    assert ThreadInv(s, k, u);
    forall t: nat | t < |s.threads|
      ensures s.threads[t].pc.Passed? && s.threads[t].notified == k.p
    {
      QuiescentThread(s, k, t);
      assert ThreadInv(s, k, t);
    }
  }

  lemma SomethingToEnqueue(s: System, k: Progress)
    requires Inv(s, k) && s.submitting != {}
    ensures !Quiescent(s)
  {
    var j :| j in s.submitting;
    assert Works(Enqueue(j)) && Enabled(s, Enqueue(j));
  }

  lemma QuiescentIsFinished(s: System, k: Progress)
    requires Inv(s, k) && Quiescent(s)
    ensures AllFinished(s)
  {
    AllHavePassed(s, k);
    if s.submitting != {} {
      SomethingToEnqueue(s, k);
    }
    AboveBounds(s.threads, NotifiedCount, k.r);
    var u: nat :| u < |s.threads| && Value(s.threads[u], NotifiedCount) <= k.r;
    assert k.r == |s.fifo|;
    AboveBounds(s.threads, BusyFlag, 0);
    EveryJobInFifo(s, k);
    forall j: nat | j < |s.statuses|
      ensures s.statuses[j] == FINISHED
    {
      assert j in s.fifo;
      var i :| 0 <= i < |s.fifo| && s.fifo[i] == j;
      assert StatusAt(s, k, i) && !BeingReported(s, j);
    }
  }

  lemma EveryJobInFifo(s: System, k: Progress)
    requires Inv(s, k) && s.submitting == {}
    ensures |s.fifo| == |s.statuses| && forall j: nat :: j < |s.statuses| ==> j in s.fifo
  {
    FifoIsShort(s, k);
    Covers(s.fifo, |s.statuses|);
  }

  /** It takes n positions to hold the n numbers below n. */
  lemma Covers(fifo: seq<nat>, n: nat)
    requires forall j: nat :: j < n ==> j in fifo
    ensures |fifo| >= n
  {
    assert Below(n) <= SetOf(fifo);
    SubsetSize(Below(n), SetOf(fifo));
    SetIsSmall(fifo);
  }

  lemma {:induction false} SetIsSmall(fifo: seq<nat>)
    ensures |SetOf(fifo)| <= |fifo|
  {
    if fifo != [] {
      var rest, last := fifo[..|fifo| - 1], fifo[|fifo| - 1];
      SetIsSmall(rest);
      assert fifo == rest + [last];
      assert SetOf(fifo) == SetOf(rest) + {last};
    }
  }

  // ---------- The theorems ----------

  /** Without submissions and stops, every schedule ends: no more steps are possible than are left. */
  lemma EveryScheduleEnds(threads: nat, past: seq<Action>, s: System, acts: seq<Action>)
    requires Reached(threads, past, s) && Runnable(s, acts) && AllWork(acts)
    ensures |acts| <= StepsLeft(s)
  {
    var k := ReachedInv(threads, past, s);
    RunMoves(s, k, acts);
  }

  /** And it ends only when every submitted job is finished and counted. */
  lemma StuckOnlyWhenFinished(threads: nat, past: seq<Action>, s: System)
    requires Reached(threads, past, s) && Quiescent(s)
    ensures AllFinished(s)
  {
    var k := ReachedInv(threads, past, s);
    QuiescentIsFinished(s, k);
  }

  lemma {:induction false} RunOn(s: System, k: Progress) returns (acts: seq<Action>)
    requires Inv(s, k)
    ensures AllWork(acts) && Runnable(s, acts) && AllFinished(Run(s, acts))
    decreases StepsLeft(s)
  {
    StepsLeftIsNat(s, k);
    if a :| Works(a) && Enabled(s, a) {
      StepMoves(s, k, a);
      var k' := StepKeepsInv(s, k, a);
      StepsLeftIsNat(Next(s, a), k');
      var rest := RunOn(Next(s, a), k');
      Step(s, a, rest);
      acts := [a] + rest;
    } else {
      QuiescentIsFinished(s, k);
      acts := [];
    }
  }

  /** So from every reachable state, the threads can finish all submitted jobs. */
  lemma AllJobsFinish(threads: nat, past: seq<Action>, s: System)
    requires Reached(threads, past, s)
    ensures exists acts :: AllWork(acts) && Runnable(s, acts) && AllFinished(Run(s, acts))
  {
    var k := ReachedInv(threads, past, s);
    var acts := RunOn(s, k);
  }
}
