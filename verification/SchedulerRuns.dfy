/** What holds in every interleaving of the scheduler's steps. */
module SchedulerRuns {
  import opened Basics
  import opened Scheduling

  predicate Stops(a: Action) {
    a.StopScheduler? || a.StopFifo?
  }

  ghost predicate NeverStops(acts: seq<Action>) {
    forall a :: a in acts ==> !Stops(a)
  }

  /** The progress after a step, while the scheduler is not stopped. */
  lemma StepKeepsInv(s: System, k: Progress, a: Action) returns (k': Progress)
    requires Inv(s, k) && Enabled(s, a) && !Stops(a)
    ensures Inv(Next(s, a), k')
  {
    k' := k;
    match a
    case Submit(numel) => SubmitKeepsInv(s, k, numel);
    case Enqueue(job) => EnqueueKeepsInv(s, k, job);
    case Ask(t) => AskKeepsInv(s, k, t);
    case Arrive(t) =>
      if s.barrier.count > 1 {
        ArriveWaits(s, k, t);
      } else {
        ArriveCompletes(s, k, t);
        k' := k.(b := k.b + 1);
      }
    case Leave(t) => LeaveKeepsInv(s, k, t);
    case Take(t) =>
      TakeKeepsInv(s, k, t);
      k' := ProgressAfterTake(s, k);
    case Notify(t) => k' := NotifyKeepsInv(s, k, t);
    case Report(t) => ReportKeepsInv(s, k, t);
    case Count(t) => CountKeepsInv(s, k, t);
  }

  lemma {:induction false} RunKeepsInv(s: System, k: Progress, acts: seq<Action>) returns (k': Progress)
    requires Inv(s, k) && Runnable(s, acts) && NeverStops(acts)
    ensures Inv(Run(s, acts), k')
    decreases |acts|
  {
    k' := k;
    if acts != [] {
      k' := StepKeepsInv(s, k, acts[0]);
      k' := RunKeepsInv(Next(s, acts[0]), k', acts[1..]);
    }
  }

  /** A state that some run without a stop reaches. */
  ghost predicate Reached(threads: nat, acts: seq<Action>, s: System) {
    threads > 0 && NeverStops(acts) && Runnable(Init(threads), acts) && s == Run(Init(threads), acts)
  }

  lemma ReachedInv(threads: nat, acts: seq<Action>, s: System) returns (k: Progress)
    requires Reached(threads, acts, s)
    ensures Inv(s, k)
  {
    InitInv(threads);
    k := RunKeepsInv(Init(threads), Progress(0, 0, 0), acts);
  }

  // ---------- Slices ----------

  /** The slices of a job tile the tensor: they follow one another from 0 to numel, and differ by at most
      one element. */
  lemma SlicesTile(numel: nat, threads: nat, tid: nat)
    requires threads > 0 && tid < threads
    ensures SliceOffset(numel, threads, 0) == 0
    ensures SliceOffset(numel, threads, tid) + SliceNumel(numel, threads, tid)
         == if tid + 1 < threads then SliceOffset(numel, threads, tid + 1) else numel
    ensures numel / threads <= SliceNumel(numel, threads, tid) <= numel / threads + 1
  {
    var q, r := numel / threads, numel % threads;
    assert numel == threads * q + r;
    if tid + 1 < threads {
      Products(tid, q, r);
    } else {
      Products(threads - 1, q, r);
      assert threads * q == (threads - 1) * q + q;
    }
  }

  lemma Products(t: nat, q: nat, r: nat)
    ensures t * (q + 1) == t * q + t && (t + 1) * q == t * q + q && (t + 1) * (q + 1) == t * q + q + t + 1
  {
  }

  /** Every thread is given one slice of each job, in the order in which the jobs were enqueued, its own
      slice of the job; no thread is more than one job ahead of another. */
  lemma OneSliceOfEachJob(threads: nat, acts: seq<Action>, s: System, t: nat, u: nat)
    requires Reached(threads, acts, s) && t < threads && u < threads
    ensures |s.threads| == threads && |s.threads[t].taken| <= |s.fifo|
    ensures forall i: nat :: i < |s.threads[t].taken| ==>
              s.fifo[i] < |s.numels| && s.threads[t].taken[i] == SliceOf(s.fifo[i], s.numels[s.fifo[i]], threads, t)
    ensures -1 <= |s.threads[t].taken| - |s.threads[u].taken| <= 1
    ensures forall i: nat, j: nat :: i < j < |s.fifo| ==> s.fifo[i] != s.fifo[j]
  {
    var k := ReachedInv(threads, acts, s);
    SameThreads(Init(threads), acts);
    assert ThreadInv(s, k, t) && ThreadInv(s, k, u);
    forall i: nat | i < |s.threads[t].taken|
      ensures s.fifo[i] < |s.numels|
      ensures s.threads[t].taken[i] == SliceOf(s.fifo[i], s.numels[s.fifo[i]], threads, t)
    {
      assert TakenAt(s, t, i);
    }
    forall i: nat, j: nat | i < j < |s.fifo|
      ensures s.fifo[i] != s.fifo[j]
    {
      assert Differ(s.fifo, i, j);
    }
  }

  lemma {:induction false} SameThreads(s: System, acts: seq<Action>)
    requires Runnable(s, acts)
    ensures |Run(s, acts).threads| == |s.threads|
    decreases |acts|
  {
    if acts != [] {
      if acts[0].StopFifo? {
        FailuresKeepThreads(s.(barrier := s.barrier.(count := -1)), s.sched.queue);
      }
      SameThreads(Next(s, acts[0]), acts[1..]);
    }
  }

  lemma {:induction false} FailuresKeepThreads(s: System, queue: seq<nat>)
    ensures AllFailed(s, queue).threads == s.threads
    decreases |queue|
  {
    if queue != [] {
      FailuresKeepThreads(SetStatus(s, queue[0], FAILED), queue[1..]);
    }
  }

  /** Failing the queued jobs changes only statuses, and only to FAILED. */
  lemma {:induction false} FailuresOnly(s: System, queue: seq<nat>)
    requires forall i :: 0 <= i < |queue| ==> queue[i] < |s.statuses|
    ensures var s' := AllFailed(s, queue);
            && s' == s.(statuses := s'.statuses) && |s'.statuses| == |s.statuses|
            && forall j: nat :: j < |s.statuses| ==> s'.statuses[j] == if j in queue then FAILED else s.statuses[j]
    decreases |queue|
  {
    if queue != [] {
      assert SetStatus(s, queue[0], FAILED) == s.(statuses := s.statuses[queue[0] := FAILED]);
      FailuresOnly(SetStatus(s, queue[0], FAILED), queue[1..]);
    }
  }

  // ---------- The barrier ----------

  /** A waiting thread may leave exactly when all threads have arrived as often as it has: never before the
      last thread of its generation, and always after it, although the flag is one bit. Arrivals and
      slices alternate, so a barrier generation serves one job. */
  lemma BarrierSafety(threads: nat, acts: seq<Action>, s: System, t: nat)
    requires Reached(threads, acts, s) && t < |s.threads|
    ensures |s.threads[t].taken| <= s.threads[t].arrived <= |s.threads[t].taken| + 1
    ensures s.threads[t].pc.Waiting? ==>
              (MayLeave(s.barrier, s.threads[t].pc.flagCopy)
               <==> forall u :: 0 <= u < |s.threads| ==> s.threads[u].arrived >= s.threads[t].arrived)
    ensures s.threads[t].pc.Passed? || s.threads[t].pc.Working? ==>
              forall u :: 0 <= u < |s.threads| ==> s.threads[u].arrived >= s.threads[t].arrived
  {
    var k := ReachedInv(threads, acts, s);
    assert ThreadInv(s, k, t);
    AboveBounds(s.threads, ArrivedCount, k.b);
    var v :| 0 <= v < |s.threads| && Value(s.threads[v], ArrivedCount) <= k.b;
    forall u | 0 <= u < |s.threads|
      ensures k.b <= s.threads[u].arrived
    {
      assert ThreadInv(s, k, u);
    }
  }

  // ---------- Reports and the counter ----------

  /** Jobs are found finished in the order in which they were enqueued, each once, and exactly those whose
      slices have all been notified. */
  lemma ReportedInOrder(threads: nat, acts: seq<Action>, s: System, i: nat)
    requires Reached(threads, acts, s) && i < |s.fifo|
    ensures s.reported <= s.fifo
    ensures i < |s.reported| <==> forall t :: 0 <= t < |s.threads| ==> s.threads[t].notified > i
  {
    var k := ReachedInv(threads, acts, s);
    AboveBounds(s.threads, NotifiedCount, k.r);
    var u :| 0 <= u < |s.threads| && Value(s.threads[u], NotifiedCount) <= k.r;
    forall t | 0 <= t < |s.threads|
      ensures k.r <= s.threads[t].notified
    {
      assert ThreadInv(s, k, t);
    }
  }

  /** When no thread is between finding a job finished and counting it, the context's counter is the number
      of submitted jobs minus the number of finished ones. */
  lemma CounterAtRest(threads: nat, acts: seq<Action>, s: System)
    requires Reached(threads, acts, s)
    requires forall t :: 0 <= t < |s.threads| ==> !Busy(s.threads[t].pc)
    ensures s.current == |s.statuses| - |s.reported|
  {
    var k := ReachedInv(threads, acts, s);
    AboveBounds(s.threads, BusyFlag, 0);
    assert forall t :: 0 <= t < |s.threads| ==> Value(s.threads[t], BusyFlag) <= 0;
  }

  /** What WaitForAllJobs waits for: when the counter is 0, every job submitted so far is finished. */
  lemma NoCurrentJobs(threads: nat, acts: seq<Action>, s: System)
    requires Reached(threads, acts, s) && s.current == 0
    ensures forall j :: 0 <= j < |s.statuses| ==> s.statuses[j] == FINISHED
  {
    var k := ReachedInv(threads, acts, s);
    assert forall i: nat, j: nat :: i < j < |s.fifo| ==> Differ(s.fifo, i, j);
    DistinctBelow(s.fifo, |s.statuses|);
    AboveBounds(s.threads, BusyFlag, 0);
    assert forall t :: 0 <= t < |s.threads| ==> Value(s.threads[t], BusyFlag) <= 0;
    forall j: nat | j < |s.statuses|
      ensures s.statuses[j] == FINISHED
    {
      assert j in s.fifo;
      var i :| 0 <= i < |s.fifo| && s.fifo[i] == j;
      assert StatusAt(s, k, i) && !BeingReported(s, j);
    }
  }

  /** Distinct numbers below n: at most n of them, and all if there are n. */
  lemma DistinctBelow(fifo: seq<nat>, n: nat)
    requires forall i: nat, j: nat :: i < j < |fifo| ==> Differ(fifo, i, j)
    requires forall i :: 0 <= i < |fifo| ==> fifo[i] < n
    ensures |fifo| <= n
    ensures |fifo| == n ==> forall j: nat :: j < n ==> j in fifo
  {
    Members(fifo);
    assert SetOf(fifo) <= Below(n);
    SubsetSize(SetOf(fifo), Below(n));
    if |fifo| == n {
      forall j: nat | j < n
        ensures j in fifo
      {
        assert j in Below(n);
      }
    }
  }

  function SetOf(fifo: seq<nat>): set<nat> {
    set x | x in fifo
  }

  lemma {:induction false} Members(fifo: seq<nat>)
    requires forall i: nat, j: nat :: i < j < |fifo| ==> Differ(fifo, i, j)
    ensures |SetOf(fifo)| == |fifo|
  {
    if fifo != [] {
      var rest, last := fifo[..|fifo| - 1], fifo[|fifo| - 1];
      forall i: nat, j: nat | i < j < |rest|
        ensures Differ(rest, i, j)
      {
        assert Differ(fifo, i, j);
      }
      Members(rest);
      forall i: nat | i < |rest|
        ensures rest[i] != last
      {
        assert Differ(fifo, i, |fifo| - 1);
      }
      assert fifo == rest + [last];
      assert SetOf(fifo) == SetOf(rest) + {last};
    }
  }

  // ---------- Stopping ----------

  /** The job that thread t is about to report: running, out of the queue, nobody else's any more. */
  ghost predicate ReportSafe(s: System, t: nat)
    requires t < |s.threads| && s.threads[t].pc.Reporting?
  {
    var job := s.threads[t].pc.job;
    && job < |s.statuses| && s.statuses[job] == RUNNING && job !in s.submitting && job !in s.sched.queue
    && forall u :: 0 <= u < |s.threads| && u != t ==> NotInvolved(s.threads[u].pc, job)
  }

  predicate NotInvolved(pc: Pc, job: nat) {
    match pc
    case Working(slice) => slice.job != job
    case Reporting(other) => other != job
    case _ => true
  }

  /** What is left of the invariant once the scheduler has been stopped. */
  ghost predicate StoppedInv(s: System) {
    && s.sched.stopped && !s.illegal
    && (forall i :: 0 <= i < |s.sched.queue| ==> s.sched.queue[i] < |s.statuses| && s.sched.queue[i] !in s.submitting)
    && (forall j :: j in s.submitting ==> j < |s.statuses| && s.statuses[j] == INIT)
    && (forall t: nat :: t < |s.threads| && s.threads[t].pc.Reporting? ==> ReportSafe(s, t))
    && (forall t: nat :: t < |s.threads| && s.threads[t].pc.Working? ==> WorkSafe(s, t))
  }

  ghost predicate WorkSafe(s: System, t: nat)
    requires t < |s.threads| && s.threads[t].pc.Working?
  {
    s.threads[t].pc.slice.job < |s.statuses| && s.threads[t].pc.slice.job !in s.submitting
  }

  lemma ReporterIsSafe(s: System, k: Progress, t: nat)
    requires Inv(s, k) && t < |s.threads| && s.threads[t].pc.Reporting?
    ensures ReportSafe(s, t)
  {
    var v := ProgressFacts(s, k);
    assert ThreadInv(s, k, t);
    var i: nat := |s.threads[t].taken| - 1;
    assert StatusAt(s, k, i);
    forall j: nat | k.p <= j < |s.fifo|
      ensures s.fifo[j] != s.fifo[i]
    {
      assert Differ(s.fifo, i, j);
    }
    forall u: nat | u < |s.threads| && u != t
      ensures NotInvolved(s.threads[u].pc, s.fifo[i])
    {
      OtherNotInvolved(s, k, t, i, u);
    }
  }

  lemma OtherNotInvolved(s: System, k: Progress, t: nat, i: nat, u: nat)
    requires Inv(s, k) && t < |s.threads| && i < |s.fifo| && s.threads[t].pc == Reporting(s.fifo[i])
    requires i + 1 == |s.threads[t].taken| && u < |s.threads| && u != t
    ensures NotInvolved(s.threads[u].pc, s.fifo[i])
  {
    assert ThreadInv(s, k, t) && ThreadInv(s, k, u);
    if s.threads[u].pc.Reporting? {
      TwoAbove(s.threads, BusyFlag, 0, if t < u then t else u, if t < u then u else t);
    }
  }

  lemma WorkerIsSafe(s: System, k: Progress, t: nat)
    requires Inv(s, k) && t < |s.threads| && s.threads[t].pc.Working?
    ensures WorkSafe(s, t)
  {
    assert ThreadInv(s, k, t);
    assert TakenAt(s, t, |s.threads[t].taken| - 1);
  }

  lemma StopSchedulerKeeps(s: System, k: Progress)
    requires Inv(s, k)
    ensures StoppedInv(Next(s, StopScheduler))
  {
    var s' := Next(s, StopScheduler);
    forall t: nat | t < |s.threads| && s.threads[t].pc.Reporting?
      ensures ReportSafe(s', t)
    {
      ReporterIsSafe(s, k, t);
    }
    forall t: nat | t < |s.threads| && s.threads[t].pc.Working?
      ensures WorkSafe(s', t)
    {
      WorkerIsSafe(s, k, t);
    }
  }

  /** The parts of a step that matter after a stop: a thread moves, statuses change, jobs are enqueued. */
  lemma StoppedMove(s: System, s': System, t: nat, pc: Pc)
    requires StoppedInv(s) && t < |s.threads| && !pc.Reporting? && !pc.Working?
    requires s'.sched == s.sched && s'.submitting == s.submitting && s'.statuses == s.statuses && !s'.illegal
    requires |s'.threads| == |s.threads| && s'.threads[t].pc == pc
    requires forall u :: 0 <= u < |s.threads| && u != t ==> s'.threads[u] == s.threads[u]
    ensures StoppedInv(s')
  {
    forall u: nat | u < |s.threads| && s'.threads[u].pc.Reporting?
      ensures ReportSafe(s', u)
    {
      assert ReportSafe(s, u);
    }
    forall u: nat | u < |s.threads| && s'.threads[u].pc.Working?
      ensures WorkSafe(s', u)
    {
      assert WorkSafe(s, u);
    }
  }

  /** A status may change to one that is no lower, unless the job is being reported or submitted. */
  lemma StoppedStatus(s: System, job: nat, status: JobStatus)
    requires StoppedInv(s) && job < |s.statuses| && job !in s.submitting
    requires s.statuses[job].Rank() <= status.Rank()
    requires forall t :: 0 <= t < |s.threads| ==> s.threads[t].pc != Reporting(job)
    ensures StoppedInv(SetStatus(s, job, status)) && SetStatus(s, job, status).threads == s.threads
  {
    var s' := SetStatus(s, job, status);
    forall u: nat | u < |s.threads| && s.threads[u].pc.Reporting?
      ensures ReportSafe(s', u)
    {
      assert ReportSafe(s, u);
    }
    forall u: nat | u < |s.threads| && s.threads[u].pc.Working?
      ensures WorkSafe(s', u)
    {
      assert WorkSafe(s, u);
    }
  }

  lemma StoppedNotify(s: System, t: nat)
    requires StoppedInv(s) && Enabled(s, Notify(t))
    ensures StoppedInv(Next(s, Notify(t)))
  {
    assert WorkSafe(s, t);
    var job := s.threads[t].pc.slice.job;
    var th := s.threads[t].(notified := s.threads[t].notified + 1, pc := Idle);
    var s1 := s.(threads := s.threads[t := th]);
    StoppedMove(s, s1, t, Idle);
    forall u: nat | u < |s.threads|
      ensures s1.threads[u].pc != Reporting(job)
    {
      assert s.threads[u].pc.Reporting? ==> ReportSafe(s, u);
    }
    StoppedStatus(s1, job, FAILED);
    assert Next(s, Notify(t)) == SetStatus(s1, job, FAILED);
  }

  lemma StoppedReport(s: System, t: nat)
    requires StoppedInv(s) && Enabled(s, Report(t))
    ensures StoppedInv(Next(s, Report(t)))
  {
    assert ReportSafe(s, t);
    var job := s.threads[t].pc.job;
    var s1 := At(s, t, Counting(job));
    StoppedMove(s, s1, t, Counting(job));
    StoppedStatus(s1, job, FINISHED);
    assert Next(s, Report(t)) == SetStatus(s1, job, FINISHED);
  }

  lemma StoppedStop(s: System)
    requires StoppedInv(s)
    ensures Enabled(s, StopFifo) ==> StoppedInv(Next(s, StopFifo))
  {
    if Enabled(s, StopFifo) {
      var s' := Next(s, StopFifo);
      FailuresOnly(s.(barrier := s.barrier.(count := -1)), s.sched.queue);
      forall u: nat | u < |s.threads| && s.threads[u].pc.Reporting?
        ensures ReportSafe(s', u)
      {
        assert ReportSafe(s, u);
      }
      forall u: nat | u < |s.threads| && s.threads[u].pc.Working?
        ensures WorkSafe(s', u)
      {
        assert WorkSafe(s, u);
      }
    }
  }

  lemma StoppedClient(s: System, a: Action)
    requires StoppedInv(s) && Enabled(s, a) && (a.Submit? || a.Enqueue?)
    ensures StoppedInv(Next(s, a))
  {
    var s' := Next(s, a);
    forall u: nat | u < |s.threads| && s.threads[u].pc.Reporting?
      ensures ReportSafe(s', u)
    {
      assert ReportSafe(s, u);
    }
    forall u: nat | u < |s.threads| && s.threads[u].pc.Working?
      ensures WorkSafe(s', u)
    {
      assert WorkSafe(s, u);
    }
  }

  lemma StoppedStepKeeps(s: System, a: Action)
    requires StoppedInv(s) && Enabled(s, a)
    ensures StoppedInv(Next(s, a))
  {
    match a
    case Submit(_) => StoppedClient(s, a);
    case Enqueue(_) => StoppedClient(s, a);
    case Arrive(t) =>
      if s.barrier.count != -1 {
        StoppedMove(s, Next(s, a), t, Next(s, a).threads[t].pc);
      }
    case Leave(t) => StoppedMove(s, Next(s, a), t, Passed);
    case Take(t) => StoppedMove(s, Next(s, a), t, Idle);
    case Notify(t) => StoppedNotify(s, t);
    case Report(t) => StoppedReport(s, t);
    case Count(t) => StoppedMove(s, Next(s, a), t, Idle);
    case StopFifo => StoppedStop(s);
    case _ =>
  }

  lemma {:induction false} StoppedRunKeeps(s: System, acts: seq<Action>)
    requires StoppedInv(s) && Runnable(s, acts)
    ensures StoppedInv(Run(s, acts))
    decreases |acts|
  {
    if acts != [] {
      StoppedStepKeeps(s, acts[0]);
      StoppedRunKeeps(Next(s, acts[0]), acts[1..]);
    }
  }

  lemma {:induction false} NothingIllegal(s: System, k: Progress, acts: seq<Action>)
    requires Inv(s, k) && Runnable(s, acts)
    ensures !Run(s, acts).illegal
    decreases |acts|
  {
    if acts != [] {
      if acts[0].StopScheduler? {
        StopSchedulerKeeps(s, k);
        StoppedRunKeeps(Next(s, acts[0]), acts[1..]);
      } else {
        var k' := StepKeepsInv(s, k, acts[0]);
        NothingIllegal(Next(s, acts[0]), k', acts[1..]);
      }
    }
  }

  /** In every interleaving, with or without a stop, no job's status is ever lowered, so the fatal check of
      SetJobStatus never fires, and no job id is ever missing in a map. */
  lemma StatusesOnlyGrow(threads: nat, acts: seq<Action>)
    requires threads > 0 && Runnable(Init(threads), acts)
    ensures !Run(Init(threads), acts).illegal
  {
    InitInv(threads);
    NothingIllegal(Init(threads), Progress(0, 0, 0), acts);
  }

  lemma {:induction false} FailuresKeepBarrier(s: System, queue: seq<nat>)
    ensures AllFailed(s, queue).barrier == s.barrier && AllFailed(s, queue).crashed == s.crashed
    decreases |queue|
  {
    if queue != [] {
      FailuresKeepBarrier(SetStatus(s, queue[0], FAILED), queue[1..]);
    }
  }

  // ---------- The barrier's fatal check ----------

  /** Thread t has seen that the scheduler is not stopped, and is on its way to the barrier. */
  predicate OnItsWay(s: System, t: nat)
    requires t < |s.threads|
  {
    s.threads[t].pc.Arriving?
  }

  ghost predicate NobodyOnItsWay(s: System) {
    forall t: nat :: t < |s.threads| ==> !OnItsWay(s, t)
  }

  /** After a stop, nobody sets out for the barrier any more. */
  lemma StoppedStepArrives(s: System, a: Action)
    requires Enabled(s, a) && s.sched.stopped && !s.crashed && NobodyOnItsWay(s)
    ensures var s' := Next(s, a); s'.sched.stopped && !s'.crashed && NobodyOnItsWay(s')
  {
    if a.StopFifo? {
      FailuresKeepThreads(s.(barrier := s.barrier.(count := -1)), s.sched.queue);
      FailuresKeepBarrier(s.(barrier := s.barrier.(count := -1)), s.sched.queue);
    } else if a.Arrive? {
      assert OnItsWay(s, a.t);
    }
    var s' := Next(s, a);
    forall t: nat | t < |s'.threads|
      ensures !OnItsWay(s', t)
    {
      assert !OnItsWay(s, t);
    }
  }

  lemma {:induction false} NobodyArrives(s: System, acts: seq<Action>)
    requires Runnable(s, acts) && s.sched.stopped && !s.crashed && NobodyOnItsWay(s)
    ensures !Run(s, acts).crashed
    decreases |acts|
  {
    if acts != [] {
      StoppedStepArrives(s, acts[0]);
      NobodyArrives(Next(s, acts[0]), acts[1..]);
    }
  }

  /** Overtaken by the stop, the thread comes to a destroyed barrier. */
  lemma Overtaken(s: System, t: nat) returns (acts: seq<Action>)
    requires !s.sched.stopped && s.barrier.count != -1 && t < |s.threads| && OnItsWay(s, t)
    ensures CrashesAfterStop(s, acts)
  {
    var s1 := Next(s, StopScheduler);
    var s2 := Next(s1, StopFifo);
    FailuresKeepThreads(s1.(barrier := s1.barrier.(count := -1)), s1.sched.queue);
    FailuresKeepBarrier(s1.(barrier := s1.barrier.(count := -1)), s1.sched.queue);
    assert Enabled(s2, Arrive(t)) && Next(s2, Arrive(t)).crashed;
    acts := [StopFifo] + ([Arrive(t)] + []);
    Step(s2, Arrive(t), []);
    Step(s1, StopFifo, [Arrive(t)] + []);
    Step(s, StopScheduler, acts);
  }

  /** Stopped in state s, the program goes on with these actions and dies at the barrier. */
  ghost predicate CrashesAfterStop(s: System, acts: seq<Action>) {
    Runnable(s, [StopScheduler] + acts) && Run(s, [StopScheduler] + acts).crashed
  }

  /** The fatal check of the barrier may fire after a stop exactly if, when the scheduler is stopped, some
      thread has passed the first check of GetJobSlice and not come to the barrier yet. Otherwise no
      interleaving of what follows makes it fire. */
  lemma BarrierCheckFires(threads: nat, past: seq<Action>, s: System)
    requires Reached(threads, past, s)
    ensures (exists acts :: CrashesAfterStop(s, acts)) <==> exists t: nat :: t < |s.threads| && OnItsWay(s, t)
  {
    var k := ReachedInv(threads, past, s);
    if t: nat :| t < |s.threads| && OnItsWay(s, t) {
      var acts := Overtaken(s, t);
    } else {
      forall acts
        ensures !CrashesAfterStop(s, acts)
      {
        if Runnable(s, [StopScheduler] + acts) {
          assert ([StopScheduler] + acts)[1..] == acts;
          var s' := Next(s, StopScheduler);
          forall t: nat | t < |s'.threads|
            ensures !OnItsWay(s', t)
          {
            assert !OnItsWay(s, t);
          }
          NobodyArrives(s', acts);
        }
      }
    }
  }

  /** So the program may die at any number of threads: one is on its way from the start, and is overtaken. */
  lemma MayComeTooLate(threads: nat) returns (acts: seq<Action>)
    requires threads > 0
    ensures Runnable(Init(threads), acts) && Run(Init(threads), acts).crashed
  {
    var s0 := Init(threads);
    var s1 := Next(s0, Ask(0));
    var s2 := Next(s1, StopScheduler);
    var s3 := Next(s2, StopFifo);
    assert Next(s3, Arrive(0)).crashed;
    acts := [Ask(0), StopScheduler, StopFifo, Arrive(0)];
    Step(s3, Arrive(0), []);
    Step(s2, StopFifo, [Arrive(0)]);
    Step(s1, StopScheduler, [StopFifo, Arrive(0)]);
    Step(s0, Ask(0), [StopScheduler, StopFifo, Arrive(0)]);
  }

  lemma Step(s: System, a: Action, acts: seq<Action>)
    requires Enabled(s, a) && Runnable(Next(s, a), acts)
    ensures Runnable(s, [a] + acts) && Run(s, [a] + acts) == Run(Next(s, a), acts)
  {
    assert ([a] + acts)[1..] == acts;
  }
}
