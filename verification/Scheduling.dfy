/** The FIFO scheduler, the sense-reversing barrier and the context's job counter, as interleaved steps of
    T worker threads, of clients that submit jobs, and of the thread that stops the context. Each step is
    one critical section of the program. */
module Scheduling {

  /** In the order of the program's enumeration: a status may only grow. */
  datatype JobStatus = INIT | QUEUED | RUNNING | FINISHED | FAILED {
    function Rank(): nat {
      match this case INIT => 0 case QUEUED => 1 case RUNNING => 2 case FINISHED => 3 case FAILED => 4
    }
  }

  datatype Slice = Slice(job: nat, offset: nat, numel: nat)

  /** Where a worker thread is: before GetJobSlice, past its first critical section, waiting at the barrier
      with a copy of the flag, past the barrier, working on a slice, past a NotifyJobSliceCompletion that
      found the job finished, past the change of its status. */
  datatype Pc =
    | Idle
    | Arriving
    | Waiting(flagCopy: bool)
    | Passed
    | Working(slice: Slice)
    | Reporting(job: nat)
    | Counting(job: nat)

  /** The last three fields are history: the slices the thread was given, how many of them it has notified,
      and how often it has arrived at the barrier. */
  datatype Thread = Thread(pc: Pc, taken: seq<Slice>, notified: nat, arrived: nat)

  datatype Barrier = Barrier(count: int, flag: bool)

  /** The fields of FifoScheduler that its lock protects. */
  datatype Scheduler = Scheduler(stopped: bool, queue: seq<nat>, undispatched: map<nat, int>, finished: map<nat, int>)

  // ---------- Critical sections ----------

  /** How many elements a thread gets, and where they start. */
  function SliceNumel(numel: nat, threads: nat, tid: nat): nat
    requires threads > 0
  {
    if numel % threads > tid then numel / threads + 1 else numel / threads
  }

  function SliceOffset(numel: nat, threads: nat, tid: nat): nat
    requires threads > 0
  {
    if numel % threads > tid then tid * SliceNumel(numel, threads, tid)
    else tid * SliceNumel(numel, threads, tid) + numel % threads
  }

  function SliceOf(job: nat, numel: nat, threads: nat, tid: nat): Slice
    requires threads > 0
  {
    Slice(job, SliceOffset(numel, threads, tid), SliceNumel(numel, threads, tid))
  }

  /** EnqueueJob. */
  function Enqueued(c: Scheduler, job: nat, threads: nat): Scheduler {
    c.(queue := c.queue + [job], undispatched := c.undispatched[job := threads], finished := c.finished[job := 0])
  }

  /** The second critical section of GetJobSlice, when there is a job and the scheduler is not stopped. */
  function Dispatched(c: Scheduler): Scheduler
    requires |c.queue| > 0 && c.queue[0] in c.undispatched
  {
    var job := c.queue[0];
    var left := c.undispatched[job] - 1;
    if left == 0 then c.(queue := c.queue[1..], undispatched := c.undispatched - {job})
    else c.(undispatched := c.undispatched[job := left])
  }

  /** NotifyJobSliceCompletion, when the scheduler is not stopped; also whether the job is finished. */
  function Notified(c: Scheduler, job: nat, threads: nat): (Scheduler, bool)
    requires job in c.finished
  {
    var done := c.finished[job] + 1;
    if done == threads then (c.(finished := c.finished - {job}), true)
    else (c.(finished := c.finished[job := done]), false)
  }

  /** The part of Barrier::Wait up to the wait, and whether the thread has to wait. */
  function Arrived(b: Barrier, threads: nat): (Barrier, bool) {
    if b.count - 1 > 0 then (b.(count := b.count - 1), true)
    else (Barrier(threads, !b.flag), false)
  }

  /** The condition that a waiting thread waits for. */
  predicate MayLeave(b: Barrier, flagCopy: bool) {
    b.count == -1 || flagCopy != b.flag
  }

  // ---------- The system ----------

  /** Jobs are numbered in the order of their creation. `submitting` are the jobs that AllReduceAsync has
      counted but not enqueued yet; `current` is the context's number of current jobs. `illegal` says that
      a status was lowered or a job id was missing in a map, `crashed` that a thread came to a destroyed
      barrier; each is fatal in the program. `fifo` and `reported` are history: the jobs in the order in
      which they were enqueued, and those that a notification has found finished. */
  datatype System = System(sched: Scheduler, barrier: Barrier, threads: seq<Thread>,
                           statuses: seq<JobStatus>, numels: seq<nat>, submitting: set<nat>, current: int,
                           illegal: bool, crashed: bool, fifo: seq<nat>, reported: seq<nat>)

  datatype Action =
    | Submit(numel: nat)  // AllReduceAsync: creates and counts a job
    | Enqueue(job: nat)   // EnqueueJob
    | Ask(t: nat)         // GetJobSlice, first critical section
    | Arrive(t: nat)      // Barrier::Wait, up to the wait
    | Leave(t: nat)       // Barrier::Wait, the wait ends
    | Take(t: nat)        // GetJobSlice, second critical section
    | Notify(t: nat)      // Scheduler::NotifyJobSliceCompletion
    | Report(t: nat)      // SetJobStatus(FINISHED)
    | Count(t: nat)       // Context::NotifyJobSliceCompletion, the counter
    | StopScheduler       // Scheduler::Stop
    | StopFifo            // FifoScheduler::Stop after that, and the reset of the counter

  function Init(threads: nat): System {
    System(Scheduler(false, [], map[], map[]), Barrier(threads, false), seq(threads, t => Thread(Idle, [], 0, 0)),
           [], [], {}, 0, false, false, [], [])
  }

  predicate Enabled(s: System, a: Action) {
    match a
    case Submit(_) => true
    case Enqueue(job) => job in s.submitting && job < |s.statuses|
    case Ask(t) => t < |s.threads| && s.threads[t].pc.Idle?
    case Arrive(t) => t < |s.threads| && s.threads[t].pc.Arriving?
    case Leave(t) => t < |s.threads| && s.threads[t].pc.Waiting? && MayLeave(s.barrier, s.threads[t].pc.flagCopy)
    case Take(t) => t < |s.threads| && s.threads[t].pc.Passed? && (s.sched.stopped || s.sched.queue != [])
    case Notify(t) => t < |s.threads| && s.threads[t].pc.Working?
    case Report(t) => t < |s.threads| && s.threads[t].pc.Reporting?
    case Count(t) => t < |s.threads| && s.threads[t].pc.Counting?
    case StopScheduler => !s.sched.stopped
    case StopFifo => s.sched.stopped && s.barrier.count != -1
  }

  function At(s: System, t: nat, pc: Pc): System
    requires t < |s.threads|
  {
    s.(threads := s.threads[t := s.threads[t].(pc := pc)])
  }

  /** SetJobStatus. */
  function SetStatus(s: System, job: nat, status: JobStatus): System {
    if job < |s.statuses| && s.statuses[job].Rank() <= status.Rank()
    then s.(statuses := s.statuses[job := status])
    else s.(illegal := true)
  }

  function AfterTake(s: System, t: nat): System
    requires t < |s.threads| && s.sched.queue != []
  {
    var job := s.sched.queue[0];
    if job in s.sched.undispatched && job < |s.numels| then
      var slice := SliceOf(job, s.numels[job], |s.threads|, t);
      var th := s.threads[t].(pc := Working(slice), taken := s.threads[t].taken + [slice]);
      SetStatus(s.(sched := Dispatched(s.sched), threads := s.threads[t := th]), job, RUNNING)
    else s.(illegal := true)
  }

  function AfterNotify(s: System, t: nat): System
    requires t < |s.threads| && s.threads[t].pc.Working?
  {
    var job := s.threads[t].pc.slice.job;
    var th := s.threads[t].(notified := s.threads[t].notified + 1);
    if s.sched.stopped then
      SetStatus(s.(threads := s.threads[t := th.(pc := Idle)]), job, FAILED)
    else if job in s.sched.finished then
      var (sched', done) := Notified(s.sched, job, |s.threads|);
      s.(sched := sched', threads := s.threads[t := th.(pc := if done then Reporting(job) else Idle)],
         reported := if done then s.reported + [job] else s.reported)
    else s.(illegal := true)
  }

  function AfterArrive(s: System, t: nat): System
    requires t < |s.threads|
  {
    if s.barrier.count == -1 then s.(crashed := true)
    else
      var (barrier', waits) := Arrived(s.barrier, |s.threads|);
      var th := s.threads[t].(pc := if waits then Waiting(s.barrier.flag) else Passed,
                              arrived := s.threads[t].arrived + 1);
      s.(barrier := barrier', threads := s.threads[t := th])
  }

  /** Every queued job fails. */
  function AllFailed(s: System, queue: seq<nat>): System
    decreases |queue|
  {
    if queue == [] then s else AllFailed(SetStatus(s, queue[0], FAILED), queue[1..])
  }

  function Next(s: System, a: Action): System
    requires Enabled(s, a)
  {
    match a
    case Submit(numel) =>
      s.(statuses := s.statuses + [INIT], numels := s.numels + [numel],
         submitting := s.submitting + {|s.statuses|}, current := s.current + 1)
    case Enqueue(job) =>
      SetStatus(s.(sched := Enqueued(s.sched, job, |s.threads|), submitting := s.submitting - {job},
                   fifo := s.fifo + [job]), job, QUEUED)
    case Ask(t) => if s.sched.stopped then s else At(s, t, Arriving)
    case Arrive(t) => AfterArrive(s, t)
    case Leave(t) => At(s, t, Passed)
    case Take(t) => if s.sched.stopped then At(s, t, Idle) else AfterTake(s, t)
    case Notify(t) => AfterNotify(s, t)
    case Report(t) => At(SetStatus(s, s.threads[t].pc.job, FINISHED), t, Counting(s.threads[t].pc.job))
    case Count(t) => At(s.(current := s.current - 1), t, Idle)
    case StopScheduler => s.(sched := s.sched.(stopped := true))
    case StopFifo =>
      var s' := AllFailed(s.(barrier := s.barrier.(count := -1)), s.sched.queue);
      s'.(sched := Scheduler(true, [], map[], map[]), current := 0)
  }

  predicate Runnable(s: System, acts: seq<Action>)
    decreases |acts|
  {
    acts == [] || (Enabled(s, acts[0]) && Runnable(Next(s, acts[0]), acts[1..]))
  }

  function Run(s: System, acts: seq<Action>): System
    requires Runnable(s, acts)
    decreases |acts|
  {
    if acts == [] then s else Run(Next(s, acts[0]), acts[1..])
  }

  // ---------- Counting threads ----------

  datatype Measure = ArrivedCount | TakenCount | NotifiedCount | BusyFlag

  predicate Busy(pc: Pc) {
    pc.Reporting? || pc.Counting?
  }

  function Value(th: Thread, m: Measure): nat {
    match m
    case ArrivedCount => th.arrived
    case TakenCount => |th.taken|
    case NotifiedCount => th.notified
    case BusyFlag => if Busy(th.pc) then 1 else 0
  }

  /** How many threads have a measure above i. */
  function Above(ts: seq<Thread>, m: Measure, i: nat): nat {
    if ts == [] then 0
    else Above(ts[..|ts| - 1], m, i) + if Value(ts[|ts| - 1], m) > i then 1 else 0
  }

  lemma {:induction false} AboveUpdate(ts: seq<Thread>, t: nat, th: Thread, m: Measure, i: nat)
    requires t < |ts|
    ensures Above(ts[t := th], m, i) + (if Value(ts[t], m) > i then 1 else 0)
         == Above(ts, m, i) + if Value(th, m) > i then 1 else 0
  {
    var last := |ts| - 1;
    if t == last {
      assert ts[t := th][..last] == ts[..last];
    } else {
      AboveUpdate(ts[..last], t, th, m, i);
      assert ts[t := th][..last] == ts[..last][t := th];
    }
  }

  lemma {:induction false} AboveBounds(ts: seq<Thread>, m: Measure, i: nat)
    ensures Above(ts, m, i) <= |ts|
    ensures Above(ts, m, i) == |ts| <==> forall t :: 0 <= t < |ts| ==> Value(ts[t], m) > i
    ensures Above(ts, m, i) == 0 <==> forall t :: 0 <= t < |ts| ==> Value(ts[t], m) <= i
  {
    if ts != [] {
      var last := |ts| - 1;
      AboveBounds(ts[..last], m, i);
      assert forall t :: 0 <= t < last ==> ts[..last][t] == ts[t];
    }
  }

  /** Two threads above i make the count at least two. */
  lemma {:induction false} TwoAbove(ts: seq<Thread>, m: Measure, i: nat, t: nat, u: nat)
    requires t < u < |ts| && Value(ts[t], m) > i && Value(ts[u], m) > i
    ensures Above(ts, m, i) >= 2
  {
    var last := |ts| - 1;
    if u == last {
      AboveBounds(ts[..last], m, i);
      assert ts[..last][t] == ts[t];
    } else {
      TwoAbove(ts[..last], m, i, t, u);
    }
  }

  // ---------- The invariant while the scheduler is not stopped ----------

  /** p jobs have been given to all threads, b barrier generations are complete, r jobs are reported. */
  datatype Progress = Progress(p: nat, b: nat, r: nat)

  ghost predicate PcInv(th: Thread, flag: bool, fifo: seq<nat>, k: Progress) {
    var g := |th.taken|;
    match th.pc
    case Idle => th.arrived == th.notified == g == k.b
    case Arriving => th.arrived == th.notified == g == k.b
    case Waiting(copy) =>
      th.arrived == g + 1 && th.notified == g && if g == k.b then copy == flag else g + 1 == k.b && copy != flag
    case Passed => th.arrived == g + 1 == k.b && th.notified == g
    case Working(slice) => th.arrived == g == k.b && g > 0 && th.notified == g - 1 && slice == th.taken[g - 1]
    case Reporting(job) => th.arrived == th.notified == g == k.b == k.r && 0 < g <= |fifo| && job == fifo[g - 1]
    case Counting(job) => th.arrived == th.notified == g == k.b == k.r && 0 < g <= |fifo| && job == fifo[g - 1]
  }

  ghost predicate TakenAt(s: System, t: nat, i: nat)
    requires t < |s.threads| && i < |s.threads[t].taken|
  {
    i < |s.fifo| && s.fifo[i] < |s.numels|
    && s.threads[t].taken[i] == SliceOf(s.fifo[i], s.numels[s.fifo[i]], |s.threads|, t)
  }

  ghost predicate ThreadInv(s: System, k: Progress, t: nat)
    requires t < |s.threads|
  {
    var th := s.threads[t];
    && k.p <= |th.taken| <= k.p + 1
    && |th.taken| <= |s.fifo|
    && k.r <= th.notified
    && PcInv(th, s.barrier.flag, s.fifo, k)
    && forall i: nat :: i < |th.taken| ==> TakenAt(s, t, i)
  }

  ghost predicate BarrierInv(s: System, k: Progress) {
    && Above(s.threads, ArrivedCount, k.b) < |s.threads|
    && s.barrier.count == |s.threads| - Above(s.threads, ArrivedCount, k.b)
  }

  /** Position i of the queue, or past it: how many slices of the job are left. */
  ghost predicate UndispatchedAt(s: System, k: Progress, i: nat)
    requires k.p <= i < |s.fifo|
  {
    s.fifo[i] in s.sched.undispatched
    && s.sched.undispatched[s.fifo[i]]
       == if i == k.p then |s.threads| - Above(s.threads, TakenCount, k.p) else |s.threads|
  }

  ghost predicate QueueInv(s: System, k: Progress) {
    && k.p <= |s.fifo| && s.sched.queue == s.fifo[k.p..]
    && Above(s.threads, TakenCount, k.p) < |s.threads|
    && forall i: nat :: k.p <= i < |s.fifo| ==> UndispatchedAt(s, k, i)
  }

  ghost predicate FinishedAt(s: System, i: nat)
    requires i < |s.fifo|
  {
    s.fifo[i] in s.sched.finished && s.sched.finished[s.fifo[i]] == Above(s.threads, NotifiedCount, i)
  }

  ghost predicate ReportInv(s: System, k: Progress) {
    && k.r <= |s.fifo| && s.reported == s.fifo[..k.r]
    && Above(s.threads, NotifiedCount, k.r) < |s.threads|
    && forall i: nat :: k.r <= i < |s.fifo| ==> FinishedAt(s, i)
  }

  predicate Differ(fifo: seq<nat>, i: nat, j: nat)
    requires i < |fifo| && j < |fifo|
  {
    fifo[i] != fifo[j]
  }

  ghost predicate IdsInv(s: System) {
    && |s.statuses| == |s.numels|
    && (forall i :: 0 <= i < |s.fifo| ==> s.fifo[i] < |s.statuses| && s.fifo[i] !in s.submitting)
    && (forall i, j: nat :: 0 <= i < j < |s.fifo| ==> Differ(s.fifo, i, j))
    && (forall j :: j in s.submitting ==> j < |s.statuses| && s.statuses[j] == INIT)
    && (forall j: nat :: j < |s.statuses| ==> j in s.submitting || j in s.fifo)
  }

  ghost predicate BeingReported(s: System, job: nat) {
    exists t :: 0 <= t < |s.threads| && s.threads[t].pc == Reporting(job)
  }

  ghost predicate StatusAt(s: System, k: Progress, i: nat)
    requires i < |s.fifo| && s.fifo[i] < |s.statuses|
  {
    s.statuses[s.fifo[i]]
    == if i < k.r then (if BeingReported(s, s.fifo[i]) then RUNNING else FINISHED)
       else if Above(s.threads, TakenCount, i) > 0 then RUNNING else QUEUED
  }

  ghost predicate StatusInv(s: System, k: Progress)
    requires IdsInv(s)
  {
    forall i: nat :: i < |s.fifo| ==> StatusAt(s, k, i)
  }

  ghost predicate CounterInv(s: System, k: Progress) {
    && Above(s.threads, BusyFlag, 0) <= 1
    && s.current == |s.statuses| - k.r + Above(s.threads, BusyFlag, 0)
  }

  ghost predicate Inv(s: System, k: Progress) {
    && |s.threads| > 0 && !s.sched.stopped && !s.illegal && !s.crashed
    && (forall t: nat :: t < |s.threads| ==> ThreadInv(s, k, t))
    && BarrierInv(s, k) && QueueInv(s, k) && ReportInv(s, k) && IdsInv(s) && StatusInv(s, k) && CounterInv(s, k)
  }

  lemma InitInv(threads: nat)
    requires threads > 0
    ensures Inv(Init(threads), Progress(0, 0, 0))
  {
    var s := Init(threads);
    AboveBounds(s.threads, ArrivedCount, 0);
    AboveBounds(s.threads, TakenCount, 0);
    AboveBounds(s.threads, NotifiedCount, 0);
    AboveBounds(s.threads, BusyFlag, 0);
  }

  /** Some thread still lacks a slice of the next job, so the stages of the run are close together. */
  lemma ProgressFacts(s: System, k: Progress) returns (t: nat)
    requires Inv(s, k)
    ensures t < |s.threads| && |s.threads[t].taken| == k.p
    ensures k.r <= k.p <= k.b <= k.p + 1
  {
    AboveBounds(s.threads, TakenCount, k.p);
    var u :| 0 <= u < |s.threads| && Value(s.threads[u], TakenCount) <= k.p;
    t := u;
    assert ThreadInv(s, k, t);
  }

  lemma SubmitKeepsInv(s: System, k: Progress, numel: nat)
    requires Inv(s, k)
    ensures Inv(Next(s, Submit(numel)), k)
  {
    var s' := Next(s, Submit(numel));
    forall t: nat | t < |s.threads|
      ensures ThreadInv(s', k, t)
    {
      assert ThreadInv(s, k, t);
      forall i: nat | i < |s.threads[t].taken|
        ensures TakenAt(s', t, i)
      {
        assert TakenAt(s, t, i);
      }
    }
    forall i: nat | k.p <= i < |s.fifo|
      ensures UndispatchedAt(s', k, i)
    {
      assert UndispatchedAt(s, k, i);
    }
    forall i: nat | k.r <= i < |s.fifo|
      ensures FinishedAt(s', i)
    {
      assert FinishedAt(s, i);
    }
    assert forall i, j: nat :: 0 <= i < j < |s.fifo| ==> Differ(s.fifo, i, j);
    forall i: nat | i < |s.fifo|
      ensures StatusAt(s', k, i)
    {
      assert StatusAt(s, k, i);
      SameReports(s, s', s.fifo[i]);
    }
  }

  /** Whether a job is being reported depends on the threads alone. */
  lemma SameReports(s: System, s': System, job: nat)
    requires s'.threads == s.threads
    ensures BeingReported(s', job) == BeingReported(s, job)
  {
  }

  function EnqueuedSystem(s: System, job: nat): System
    requires job < |s.statuses|
  {
    s.(sched := Enqueued(s.sched, job, |s.threads|), submitting := s.submitting - {job}, fifo := s.fifo + [job],
       statuses := s.statuses[job := QUEUED])
  }

  lemma ThreadsAfterEnqueue(s: System, k: Progress, job: nat)
    requires Inv(s, k) && job in s.submitting && job < |s.statuses|
    ensures forall t: nat :: t < |s.threads| ==> ThreadInv(EnqueuedSystem(s, job), k, t)
    ensures Above(s.threads, TakenCount, |s.fifo|) == Above(s.threads, NotifiedCount, |s.fifo|) == 0
  {
    var s' := EnqueuedSystem(s, job);
    forall t: nat | t < |s.threads|
      ensures ThreadInv(s', k, t)
      ensures Value(s.threads[t], TakenCount) <= |s.fifo| && Value(s.threads[t], NotifiedCount) <= |s.fifo|
    {
      assert ThreadInv(s, k, t);
      forall i: nat | i < |s.threads[t].taken|
        ensures TakenAt(s', t, i)
      {
        assert TakenAt(s, t, i);
      }
    }
    AboveBounds(s.threads, TakenCount, |s.fifo|);
    AboveBounds(s.threads, NotifiedCount, |s.fifo|);
  }

  lemma MapsAfterEnqueue(s: System, k: Progress, job: nat)
    requires Inv(s, k) && job in s.submitting && job < |s.statuses|
    ensures QueueInv(EnqueuedSystem(s, job), k) && ReportInv(EnqueuedSystem(s, job), k)
  {
    var s', n := EnqueuedSystem(s, job), |s.fifo|;
    ThreadsAfterEnqueue(s, k, job);
    assert s'.fifo[k.p..] == s.fifo[k.p..] + [job] && s'.fifo[..k.r] == s.fifo[..k.r];
    forall i: nat | k.p <= i <= n
      ensures UndispatchedAt(s', k, i)
    {
      assert i < n ==> UndispatchedAt(s, k, i) && s.fifo[i] != job;
    }
    forall i: nat | k.r <= i <= n
      ensures FinishedAt(s', i)
    {
      assert i < n ==> FinishedAt(s, i) && s.fifo[i] != job;
    }
  }

  lemma IdsAfterEnqueue(s: System, k: Progress, job: nat)
    requires Inv(s, k) && job in s.submitting && job < |s.statuses|
    ensures IdsInv(EnqueuedSystem(s, job)) && StatusInv(EnqueuedSystem(s, job), k)
  {
    var s', n := EnqueuedSystem(s, job), |s.fifo|;
    ThreadsAfterEnqueue(s, k, job);
    forall i, j: nat | 0 <= i < j <= n
      ensures Differ(s'.fifo, i, j)
    {
      assert j < n ==> Differ(s.fifo, i, j);
    }
    forall j: nat | j < |s.statuses|
      ensures j in s'.submitting || j in s'.fifo
    {
      assert j == job ==> s'.fifo[n] == j;
    }
    forall i: nat | i <= n
      ensures StatusAt(s', k, i)
    {
      if i < n {
        assert StatusAt(s, k, i) && s.fifo[i] != job;
        SameReports(s, s', s.fifo[i]);
      }
    }
  }

  lemma EnqueueKeepsInv(s: System, k: Progress, job: nat)
    requires Inv(s, k) && Enabled(s, Enqueue(job))
    ensures Inv(Next(s, Enqueue(job)), k)
  {
    assert Next(s, Enqueue(job)) == EnqueuedSystem(s, job);
    ThreadsAfterEnqueue(s, k, job);
    MapsAfterEnqueue(s, k, job);
    IdsAfterEnqueue(s, k, job);
  }

  // ---------- Steps of one thread ----------

  /** A step in which thread t neither takes nor notifies a slice. */
  ghost predicate Quiet(s: System, s': System, t: nat, th: Thread) {
    && t < |s.threads| && s'.threads == s.threads[t := th]
    && th.taken == s.threads[t].taken && th.notified == s.threads[t].notified
    && s'.sched == s.sched && s'.fifo == s.fifo && s'.reported == s.reported && s'.numels == s.numels
    && s'.submitting == s.submitting && |s'.statuses| == |s.statuses|
    && s'.illegal == s.illegal && s'.crashed == s.crashed
  }

  lemma QuietKeeps(s: System, s': System, k: Progress, t: nat, th: Thread)
    requires Inv(s, k) && Quiet(s, s', t, th)
    ensures QueueInv(s', k) && ReportInv(s', k)
    ensures forall u: nat, i: nat :: u < |s.threads| && i < |s.threads[u].taken| ==> TakenAt(s', u, i)
    ensures forall i: nat :: Above(s'.threads, TakenCount, i) == Above(s.threads, TakenCount, i)
  {
    forall i: nat
      ensures Above(s'.threads, TakenCount, i) == Above(s.threads, TakenCount, i)
      ensures Above(s'.threads, NotifiedCount, i) == Above(s.threads, NotifiedCount, i)
    {
      AboveUpdate(s.threads, t, th, TakenCount, i);
      AboveUpdate(s.threads, t, th, NotifiedCount, i);
    }
    forall u: nat, i: nat | u < |s.threads| && i < |s.threads[u].taken|
      ensures TakenAt(s', u, i)
    {
      assert ThreadInv(s, k, u) && TakenAt(s, u, i);
    }
    forall i: nat | k.p <= i < |s.fifo|
      ensures UndispatchedAt(s', k, i)
    {
      assert UndispatchedAt(s, k, i);
    }
    forall i: nat | k.r <= i < |s.fifo|
      ensures FinishedAt(s', i)
    {
      assert FinishedAt(s, i);
    }
  }

  /** Statuses stay right when nobody starts or stops reporting. */
  lemma QuietStatuses(s: System, s': System, k: Progress, t: nat, th: Thread)
    requires Inv(s, k) && Quiet(s, s', t, th) && s'.statuses == s.statuses
    requires !s.threads[t].pc.Reporting? && !th.pc.Reporting?
    ensures IdsInv(s') && StatusInv(s', k)
  {
    QuietKeeps(s, s', k, t, th);
    forall i, j: nat | 0 <= i < j < |s.fifo|
      ensures Differ(s'.fifo, i, j)
    {
      assert Differ(s.fifo, i, j);
    }
    forall i: nat | i < |s.fifo|
      ensures StatusAt(s', k, i)
    {
      assert StatusAt(s, k, i);
      OthersReport(s, s', t, th, s.fifo[i]);
    }
  }

  lemma OthersReport(s: System, s': System, t: nat, th: Thread, job: nat)
    requires t < |s.threads| && s'.threads == s.threads[t := th]
    requires s.threads[t].pc != Reporting(job) && th.pc != Reporting(job)
    ensures BeingReported(s', job) <==> BeingReported(s, job)
  {
    if BeingReported(s, job) {
      var u :| 0 <= u < |s.threads| && s.threads[u].pc == Reporting(job);
      assert s'.threads[u].pc == Reporting(job);
    }
  }

  lemma AskKeepsInv(s: System, k: Progress, t: nat)
    requires Inv(s, k) && Enabled(s, Ask(t))
    ensures Inv(Next(s, Ask(t)), k)
  {
    MoveKeepsInv(s, k, t, Arriving);
  }

  lemma LeaveKeepsInv(s: System, k: Progress, t: nat)
    requires Inv(s, k) && Enabled(s, Leave(t))
    ensures Inv(Next(s, Leave(t)), k)
  {
    MoveKeepsInv(s, k, t, Passed);
  }

  /** A change of place that counts nothing. */
  lemma MoveKeepsInv(s: System, k: Progress, t: nat, pc: Pc)
    requires Inv(s, k) && t < |s.threads| && !Busy(s.threads[t].pc) && !Busy(pc)
    requires PcInv(s.threads[t], s.barrier.flag, s.fifo, k) ==>
               PcInv(s.threads[t].(pc := pc), s.barrier.flag, s.fifo, k)
    ensures Inv(At(s, t, pc), k)
  {
    var th, s' := s.threads[t].(pc := pc), At(s, t, pc);
    QuietKeeps(s, s', k, t, th);
    QuietStatuses(s, s', k, t, th);
    AboveUpdate(s.threads, t, th, ArrivedCount, k.b);
    AboveUpdate(s.threads, t, th, BusyFlag, 0);
    forall u: nat | u < |s.threads|
      ensures ThreadInv(s', k, u)
    {
      assert ThreadInv(s, k, u);
    }
  }

  /** Not the last thread: it waits for the flag to change. */
  lemma ArriveWaits(s: System, k: Progress, t: nat)
    requires Inv(s, k) && Enabled(s, Arrive(t)) && s.barrier.count > 1
    ensures Inv(Next(s, Arrive(t)), k)
  {
    var s' := Next(s, Arrive(t));
    var th := s'.threads[t];
    assert ThreadInv(s, k, t);
    QuietKeeps(s, s', k, t, th);
    QuietStatuses(s, s', k, t, th);
    AboveUpdate(s.threads, t, th, ArrivedCount, k.b);
    AboveUpdate(s.threads, t, th, BusyFlag, 0);
    forall u: nat | u < |s.threads|
      ensures ThreadInv(s', k, u)
    {
      assert ThreadInv(s, k, u);
    }
  }

  /** The last thread: all others have arrived too. */
  lemma AllArrived(s: System, k: Progress, t: nat, u: nat)
    requires Inv(s, k) && Enabled(s, Arrive(t)) && s.barrier.count == 1 && u < |s.threads|
    ensures s.threads[t].arrived == k.b && (u != t ==> s.threads[u].arrived == k.b + 1)
  {
    assert ThreadInv(s, k, t) && ThreadInv(s, k, u);
    var th := s.threads[t].(arrived := k.b + 1);
    AboveUpdate(s.threads, t, th, ArrivedCount, k.b);
    AboveBounds(s.threads[t := th], ArrivedCount, k.b);
    assert Value(s.threads[t := th][u], ArrivedCount) > k.b;
  }

  lemma CompletedBarrier(s: System, k: Progress, t: nat)
    requires Inv(s, k) && Enabled(s, Arrive(t)) && s.barrier.count == 1
    ensures var s', k' := Next(s, Arrive(t)), k.(b := k.b + 1);
            BarrierInv(s', k') && forall u: nat :: u < |s.threads| ==> ThreadInv(s', k', u)
  {
    var s', k' := Next(s, Arrive(t)), k.(b := k.b + 1);
    QuietKeeps(s, s', k, t, s'.threads[t]);
    forall u: nat | u < |s.threads|
      ensures ThreadInv(s', k', u) && Value(s'.threads[u], ArrivedCount) <= k'.b
    {
      assert ThreadInv(s, k, u);
      AllArrived(s, k, t, u);
    }
    AboveBounds(s'.threads, ArrivedCount, k'.b);
  }

  /** So the generation is complete. */
  lemma ArriveCompletes(s: System, k: Progress, t: nat)
    requires Inv(s, k) && Enabled(s, Arrive(t)) && s.barrier.count == 1
    ensures Inv(Next(s, Arrive(t)), k.(b := k.b + 1))
  {
    var s', k' := Next(s, Arrive(t)), k.(b := k.b + 1);
    QuietKeeps(s, s', k, t, s'.threads[t]);
    QuietStatuses(s, s', k, t, s'.threads[t]);
    AboveUpdate(s.threads, t, s'.threads[t], BusyFlag, 0);
    CompletedBarrier(s, k, t);
    OtherProgress(s', k, k');
  }

  /** The queue, the reports, the statuses and the counter do not depend on the barrier. */
  lemma OtherProgress(s: System, k: Progress, k': Progress)
    requires k' == k.(b := k'.b) && QueueInv(s, k) && ReportInv(s, k) && IdsInv(s) && StatusInv(s, k)
    requires CounterInv(s, k)
    ensures QueueInv(s, k') && ReportInv(s, k') && StatusInv(s, k') && CounterInv(s, k')
  {
    forall i: nat | k.p <= i < |s.fifo|
      ensures UndispatchedAt(s, k', i)
    {
      assert UndispatchedAt(s, k, i);
    }
    forall i: nat | i < |s.fifo|
      ensures StatusAt(s, k', i)
    {
      assert StatusAt(s, k, i);
    }
  }

  function ReportedSystem(s: System, t: nat, job: nat): System
    requires t < |s.threads| && job < |s.statuses|
  {
    s.(statuses := s.statuses[job := FINISHED], threads := s.threads[t := s.threads[t].(pc := Counting(job))])
  }

  lemma ReportChangesOneStatus(s: System, k: Progress, t: nat)
    requires Inv(s, k) && Enabled(s, Report(t))
    ensures 0 < |s.threads[t].taken| <= |s.fifo|
    ensures var job := s.fifo[|s.threads[t].taken| - 1];
            job < |s.statuses| && s.threads[t].pc == Reporting(job) && Next(s, Report(t)) == ReportedSystem(s, t, job)
  {
    assert ThreadInv(s, k, t);
    var i: nat := |s.threads[t].taken| - 1;
    assert StatusAt(s, k, i) && BeingReported(s, s.fifo[i]);
  }

  lemma StatusesAfterReport(s: System, k: Progress, t: nat, i: nat)
    requires Inv(s, k) && t < |s.threads| && i < |s.fifo| && s.threads[t].pc == Reporting(s.fifo[i])
    requires i == |s.threads[t].taken| - 1
    ensures IdsInv(ReportedSystem(s, t, s.fifo[i])) && StatusInv(ReportedSystem(s, t, s.fifo[i]), k)
  {
    assert ThreadInv(s, k, t);
    var job := s.fifo[i];
    var s' := ReportedSystem(s, t, job);
    var th := s'.threads[t];
    QuietKeeps(s, s', k, t, th);
    OnlyReporter(s, k, t, s');
    forall j: nat | j < |s.fifo|
      ensures StatusAt(s', k, j)
    {
      assert StatusAt(s, k, j);
      if j != i {
        assert if j < i then Differ(s.fifo, j, i) else Differ(s.fifo, i, j);
        OthersReport(s, s', t, th, s.fifo[j]);
      }
    }
    assert forall i, j: nat :: 0 <= i < j < |s.fifo| ==> Differ(s.fifo, i, j);
  }

  lemma ReportKeepsInv(s: System, k: Progress, t: nat)
    requires Inv(s, k) && Enabled(s, Report(t))
    ensures Inv(Next(s, Report(t)), k)
  {
    ReportChangesOneStatus(s, k, t);
    var i: nat := |s.threads[t].taken| - 1;
    var s' := ReportedSystem(s, t, s.fifo[i]);
    StatusesAfterReport(s, k, t, i);
    CountersAfterReport(s, k, t, s', s'.threads[t]);
  }

  lemma CountersAfterReport(s: System, k: Progress, t: nat, s': System, th: Thread)
    requires Inv(s, k) && Quiet(s, s', t, th) && Busy(s.threads[t].pc) && Busy(th.pc)
    requires th.arrived == s.threads[t].arrived
    requires th.pc.Counting? && s.threads[t].pc.Reporting? && th.pc.job == s.threads[t].pc.job
    requires s'.barrier == s.barrier && s'.current == s.current
    ensures BarrierInv(s', k) && QueueInv(s', k) && ReportInv(s', k) && CounterInv(s', k)
    ensures forall u: nat :: u < |s.threads| ==> ThreadInv(s', k, u)
  {
    QuietKeeps(s, s', k, t, th);
    AboveUpdate(s.threads, t, th, ArrivedCount, k.b);
    AboveUpdate(s.threads, t, th, BusyFlag, 0);
    forall u: nat | u < |s.threads|
      ensures ThreadInv(s', k, u)
    {
      assert ThreadInv(s, k, u);
    }
  }

  /** When the one busy thread has reported, nobody reports. */
  lemma OnlyReporter(s: System, k: Progress, t: nat, s': System)
    requires Inv(s, k) && t < |s.threads| && Busy(s.threads[t].pc)
    requires |s'.threads| == |s.threads| && !s'.threads[t].pc.Reporting?
    requires forall u :: 0 <= u < |s.threads| && u != t ==> s'.threads[u] == s.threads[u]
    ensures forall job :: !BeingReported(s', job)
  {
    forall u: nat | u < |s.threads| && u != t
      ensures !Busy(s.threads[u].pc)
    {
      if Busy(s.threads[u].pc) {
        TwoAbove(s.threads, BusyFlag, 0, if t < u then t else u, if t < u then u else t);
      }
    }
  }

  lemma CountKeepsInv(s: System, k: Progress, t: nat)
    requires Inv(s, k) && Enabled(s, Count(t))
    ensures Inv(Next(s, Count(t)), k)
  {
    assert ThreadInv(s, k, t);
    var s' := Next(s, Count(t));
    var th := s'.threads[t];
    QuietKeeps(s, s', k, t, th);
    QuietStatuses(s, s', k, t, th);
    AboveUpdate(s.threads, t, th, ArrivedCount, k.b);
    AboveUpdate(s.threads, t, th, BusyFlag, 0);
    forall u: nat | u < |s.threads|
      ensures ThreadInv(s', k, u)
    {
      assert ThreadInv(s, k, u);
    }
  }

  // ---------- Taking a slice ----------

  function TakenSystem(s: System, t: nat, job: nat): System
    requires t < |s.threads| && job < |s.statuses| && job < |s.numels|
    requires |s.sched.queue| > 0 && s.sched.queue[0] in s.sched.undispatched
  {
    var slice := SliceOf(job, s.numels[job], |s.threads|, t);
    var th := s.threads[t].(pc := Working(slice), taken := s.threads[t].taken + [slice]);
    s.(sched := Dispatched(s.sched), threads := s.threads[t := th], statuses := s.statuses[job := RUNNING])
  }

  /** The thread takes the slice of the oldest job that is not fully dispatched, the next one for it. */
  lemma TakeIsNext(s: System, k: Progress, t: nat)
    requires Inv(s, k) && Enabled(s, Take(t))
    ensures k.p < |s.fifo| && s.sched.queue[0] == s.fifo[k.p] && |s.threads[t].taken| == k.p
    ensures k.r <= k.p && k.b == k.p + 1
    ensures var job := s.fifo[k.p];
            && job < |s.statuses| && job < |s.numels| && s.sched.queue[0] in s.sched.undispatched
            && s.sched.undispatched[job] == |s.threads| - Above(s.threads, TakenCount, k.p)
            && Next(s, Take(t)) == TakenSystem(s, t, job)
  {
    var u := ProgressFacts(s, k);
    assert ThreadInv(s, k, t);
    assert UndispatchedAt(s, k, k.p);
    assert StatusAt(s, k, k.p);
  }

  /** The counts after the step; only the number of threads past job p changes. */
  lemma CountsAfterTake(s: System, k: Progress, t: nat, job: nat)
    requires Inv(s, k) && Enabled(s, Take(t)) && k.p < |s.fifo| && job == s.fifo[k.p]
    requires job < |s.statuses| && job < |s.numels| && s.sched.queue[0] in s.sched.undispatched
    requires |s.threads[t].taken| == k.p
    ensures var ts := TakenSystem(s, t, job).threads;
            && (forall i: nat ::
                  Above(ts, TakenCount, i) == Above(s.threads, TakenCount, i) + if i == k.p then 1 else 0)
            && (forall i: nat :: Above(ts, NotifiedCount, i) == Above(s.threads, NotifiedCount, i))
            && (forall i: nat :: Above(ts, ArrivedCount, i) == Above(s.threads, ArrivedCount, i))
            && Above(ts, BusyFlag, 0) == Above(s.threads, BusyFlag, 0)
    ensures Above(s.threads, TakenCount, k.p + 1) == 0
  {
    var th := TakenSystem(s, t, job).threads[t];
    forall i: nat
      ensures var ts := s.threads[t := th];
              && Above(ts, TakenCount, i) == Above(s.threads, TakenCount, i) + (if i == k.p then 1 else 0)
              && Above(ts, NotifiedCount, i) == Above(s.threads, NotifiedCount, i)
              && Above(ts, ArrivedCount, i) == Above(s.threads, ArrivedCount, i)
    {
      AboveUpdate(s.threads, t, th, TakenCount, i);
      AboveUpdate(s.threads, t, th, NotifiedCount, i);
      AboveUpdate(s.threads, t, th, ArrivedCount, i);
    }
    AboveUpdate(s.threads, t, th, BusyFlag, 0);
    AboveBounds(s.threads, TakenCount, k.p + 1);
    forall u: nat | u < |s.threads|
      ensures Value(s.threads[u], TakenCount) <= k.p + 1
    {
      assert ThreadInv(s, k, u);
    }
  }

  /** When the last slice is taken, the job leaves the queue. */
  function ProgressAfterTake(s: System, k: Progress): Progress {
    if Above(s.threads, TakenCount, k.p) + 1 == |s.threads| then k.(p := k.p + 1) else k
  }

  lemma ThreadsAfterTake(s: System, k: Progress, t: nat, job: nat, u: nat)
    requires Inv(s, k) && Enabled(s, Take(t)) && u < |s.threads|
    requires k.p < |s.fifo| && job == s.fifo[k.p] && job < |s.statuses| && job < |s.numels|
    requires s.sched.queue[0] in s.sched.undispatched && |s.threads[t].taken| == k.p && k.b == k.p + 1
    ensures ThreadInv(TakenSystem(s, t, job), ProgressAfterTake(s, k), u)
  {
    var s' := TakenSystem(s, t, job);
    assert ThreadInv(s, k, u);
    forall i: nat | i < |s'.threads[u].taken|
      ensures TakenAt(s', u, i)
    {
      assert i < |s.threads[u].taken| ==> TakenAt(s, u, i);
    }
    if Above(s.threads, TakenCount, k.p) + 1 == |s.threads| {
      CountsAfterTake(s, k, t, job);
      AboveBounds(s'.threads, TakenCount, k.p);
      assert Value(s'.threads[u], TakenCount) > k.p;
    }
  }

  lemma QueueAfterTake(s: System, k: Progress, t: nat)
    requires Inv(s, k) && Enabled(s, Take(t))
    ensures QueueInv(Next(s, Take(t)), ProgressAfterTake(s, k))
  {
    TakeIsNext(s, k, t);
    CountsAfterTake(s, k, t, s.fifo[k.p]);
    var s', k' := Next(s, Take(t)), ProgressAfterTake(s, k);
    assert s.fifo[k.p..][1..] == s.fifo[k.p + 1..];
    AboveBounds(s'.threads, TakenCount, k.p);
    forall i: nat | k'.p <= i < |s.fifo|
      ensures UndispatchedAt(s', k', i)
    {
      assert UndispatchedAt(s, k, i);
      assert i > k.p ==> Differ(s.fifo, k.p, i);
    }
  }

  lemma StatusesAfterTake(s: System, k: Progress, t: nat)
    requires Inv(s, k) && Enabled(s, Take(t))
    ensures IdsInv(Next(s, Take(t))) && StatusInv(Next(s, Take(t)), ProgressAfterTake(s, k))
  {
    TakeIsNext(s, k, t);
    CountsAfterTake(s, k, t, s.fifo[k.p]);
    var s', k' := Next(s, Take(t)), ProgressAfterTake(s, k);
    forall i: nat | i < |s.fifo|
      ensures StatusAt(s', k', i)
    {
      assert StatusAt(s, k, i);
      assert i < k.p ==> Differ(s.fifo, i, k.p);
      assert i > k.p ==> Differ(s.fifo, k.p, i);
      OthersReport(s, s', t, s'.threads[t], s.fifo[i]);
    }
    assert forall i, j: nat :: 0 <= i < j < |s.fifo| ==> Differ(s.fifo, i, j);
  }

  lemma TakeKeepsInv(s: System, k: Progress, t: nat)
    requires Inv(s, k) && Enabled(s, Take(t))
    ensures Inv(Next(s, Take(t)), ProgressAfterTake(s, k))
  {
    TakeIsNext(s, k, t);
    var job := s.fifo[k.p];
    CountsAfterTake(s, k, t, job);
    QueueAfterTake(s, k, t);
    StatusesAfterTake(s, k, t);
    var s', k' := TakenSystem(s, t, job), ProgressAfterTake(s, k);
    forall u: nat | u < |s.threads|
      ensures ThreadInv(s', k', u)
    {
      ThreadsAfterTake(s, k, t, job, u);
    }
    forall i: nat | k.r <= i < |s.fifo|
      ensures FinishedAt(s', i)
    {
      assert FinishedAt(s, i);
    }
  }

  // ---------- Notifying ----------

  function NotifiedSystem(s: System, t: nat, job: nat): System
    requires t < |s.threads| && job in s.sched.finished
  {
    var (sched', done) := Notified(s.sched, job, |s.threads|);
    var th := s.threads[t].(notified := s.threads[t].notified + 1, pc := if done then Reporting(job) else Idle);
    s.(sched := sched', threads := s.threads[t := th], reported := if done then s.reported + [job] else s.reported)
  }

  /** All threads but one have notified job number i. */
  ghost predicate OneMissing(s: System, i: nat) {
    Above(s.threads, NotifiedCount, i) + 1 == |s.threads|
  }

  /** Thread t, whose latest job is number i, notifies it; that finishes the job if only t was missing. */
  ghost predicate Notifying(s: System, k: Progress, t: nat, i: nat, s': System, k': Progress) {
    && t < |s.threads| && s.threads[t].pc.Working? && i < |s.fifo|
    && |s.threads[t].taken| == i + 1 == k.b && s.threads[t].notified == i && k.r <= i
    && s.fifo[i] in s.sched.finished && s.sched.finished[s.fifo[i]] == Above(s.threads, NotifiedCount, i)
    && s' == NotifiedSystem(s, t, s.fifo[i])
    && k' == if OneMissing(s, i) then k.(r := k.r + 1) else k
  }

  lemma NotifyFacts(s: System, k: Progress, t: nat) returns (i: nat, s': System, k': Progress)
    requires Inv(s, k) && Enabled(s, Notify(t))
    ensures Notifying(s, k, t, i, s', k') && Next(s, Notify(t)) == s'
  {
    assert ThreadInv(s, k, t);
    i := |s.threads[t].taken| - 1;
    assert TakenAt(s, t, i);
    assert FinishedAt(s, i);
    s' := NotifiedSystem(s, t, s.fifo[i]);
    k' := if OneMissing(s, i) then k.(r := k.r + 1) else k;
  }

  /** The last notification of a job is the next report. */
  lemma LastNotification(s: System, k: Progress, t: nat, i: nat, s': System, k': Progress)
    requires Inv(s, k) && Notifying(s, k, t, i, s', k') && OneMissing(s, i)
    ensures k.r == i
    ensures forall u: nat :: u < |s.threads| && u != t ==> s.threads[u].notified > i
  {
    var th := s.threads[t].(notified := i + 1);
    AboveUpdate(s.threads, t, th, NotifiedCount, i);
    AboveBounds(s.threads[t := th], NotifiedCount, i);
    forall u: nat | u < |s.threads| && u != t
      ensures s.threads[u].notified > i
    {
      assert Value(s.threads[t := th][u], NotifiedCount) > i;
    }
    AboveBounds(s.threads, NotifiedCount, k.r);
    var u :| 0 <= u < |s.threads| && Value(s.threads[u], NotifiedCount) <= k.r;
    assert u != t ==> s.threads[u].notified > i;
  }

  /** No thread is busy with an earlier job then. */
  lemma NobodyBusy(s: System, k: Progress, t: nat, i: nat, s': System, k': Progress)
    requires Inv(s, k) && Notifying(s, k, t, i, s', k') && OneMissing(s, i)
    ensures Above(s.threads, BusyFlag, 0) == 0
    ensures forall u: nat :: u < |s.threads| ==> !Busy(s.threads[u].pc)
  {
    LastNotification(s, k, t, i, s', k');
    forall u: nat | u < |s.threads|
      ensures !Busy(s.threads[u].pc)
    {
      assert ThreadInv(s, k, u);
    }
    AboveBounds(s.threads, BusyFlag, 0);
  }

  lemma CountsAfterNotify(s: System, t: nat, th: Thread)
    requires t < |s.threads| && th.taken == s.threads[t].taken && th.arrived == s.threads[t].arrived
    requires th.notified == s.threads[t].notified + 1 && !Busy(s.threads[t].pc)
    ensures var ts := s.threads[t := th];
            && (forall i: nat :: Above(ts, TakenCount, i) == Above(s.threads, TakenCount, i))
            && (forall i: nat :: Above(ts, ArrivedCount, i) == Above(s.threads, ArrivedCount, i))
            && (forall i: nat :: Above(ts, NotifiedCount, i)
                  == Above(s.threads, NotifiedCount, i) + if i == s.threads[t].notified then 1 else 0)
            && Above(ts, BusyFlag, 0) == Above(s.threads, BusyFlag, 0) + if Busy(th.pc) then 1 else 0
  {
    forall i: nat
      ensures var ts := s.threads[t := th];
              && Above(ts, TakenCount, i) == Above(s.threads, TakenCount, i)
              && Above(ts, ArrivedCount, i) == Above(s.threads, ArrivedCount, i)
              && Above(ts, NotifiedCount, i)
                 == Above(s.threads, NotifiedCount, i) + if i == s.threads[t].notified then 1 else 0
    {
      AboveUpdate(s.threads, t, th, TakenCount, i);
      AboveUpdate(s.threads, t, th, ArrivedCount, i);
      AboveUpdate(s.threads, t, th, NotifiedCount, i);
    }
    AboveUpdate(s.threads, t, th, BusyFlag, 0);
  }

  lemma OtherThreadsAfterNotify(s: System, k: Progress, t: nat, i: nat, s': System, k': Progress, u: nat)
    requires Inv(s, k) && Notifying(s, k, t, i, s', k') && u < |s.threads| && u != t
    ensures ThreadInv(s', k', u)
  {
    assert ThreadInv(s, k, u);
    forall j: nat | j < |s.threads[u].taken|
      ensures TakenAt(s', u, j)
    {
      assert TakenAt(s, u, j);
    }
    if OneMissing(s, i) {
      LastNotification(s, k, t, i, s', k');
      NobodyBusy(s, k, t, i, s', k');
    }
  }

  lemma ThreadAfterNotify(s: System, k: Progress, t: nat, i: nat, s': System, k': Progress)
    requires Inv(s, k) && Notifying(s, k, t, i, s', k')
    ensures ThreadInv(s', k', t)
  {
    assert ThreadInv(s, k, t);
    forall j: nat | j < |s.threads[t].taken|
      ensures TakenAt(s', t, j)
    {
      assert TakenAt(s, t, j);
    }
    if OneMissing(s, i) {
      LastNotification(s, k, t, i, s', k');
    }
  }

  lemma FinishedAfterNotify(s: System, k: Progress, t: nat, i: nat, s': System, k': Progress, j: nat)
    requires Inv(s, k) && Notifying(s, k, t, i, s', k') && k'.r <= j < |s.fifo|
    ensures FinishedAt(s', j)
  {
    CountsAfterNotify(s, t, s'.threads[t]);
    assert FinishedAt(s, j);
    if j != i {
      assert if j < i then Differ(s.fifo, j, i) else Differ(s.fifo, i, j);
    } else if OneMissing(s, i) {
      LastNotification(s, k, t, i, s', k');
    }
  }

  /** Thread t has not notified a later job. */
  lemma NotAllAboveNext(s: System, k: Progress, t: nat, i: nat, s': System, k': Progress)
    requires Inv(s, k) && Notifying(s, k, t, i, s', k')
    ensures Above(s'.threads, NotifiedCount, k'.r) < |s'.threads|
  {
    if OneMissing(s, i) {
      LastNotification(s, k, t, i, s', k');
      AboveBounds(s'.threads, NotifiedCount, k'.r);
      assert Value(s'.threads[t], NotifiedCount) <= k'.r;
    } else {
      CountsAfterNotify(s, t, s'.threads[t]);
    }
  }

  lemma ReportsAfterNotify(s: System, k: Progress, t: nat, i: nat, s': System, k': Progress)
    requires Inv(s, k) && Notifying(s, k, t, i, s', k')
    ensures ReportInv(s', k')
  {
    NotAllAboveNext(s, k, t, i, s', k');
    forall j: nat | k'.r <= j < |s.fifo|
      ensures FinishedAt(s', j)
    {
      FinishedAfterNotify(s, k, t, i, s', k', j);
    }
    if OneMissing(s, i) {
      LastNotification(s, k, t, i, s', k');
      assert s.fifo[..k'.r] == s.fifo[..k.r] + [s.fifo[i]];
    }
  }

  /** The notified job is running, and is being reported if it is finished. */
  lemma OwnStatusAfterNotify(s: System, k: Progress, t: nat, i: nat, s': System, k': Progress)
    requires Inv(s, k) && Notifying(s, k, t, i, s', k')
    ensures StatusAt(s', k', i)
  {
    CountsAfterNotify(s, t, s'.threads[t]);
    assert StatusAt(s, k, i);
    AboveBounds(s.threads, TakenCount, i);
    assert Value(s.threads[t], TakenCount) > i;
    if OneMissing(s, i) {
      LastNotification(s, k, t, i, s', k');
      assert s'.threads[t].pc == Reporting(s.fifo[i]);
    }
  }

  lemma OtherStatusAfterNotify(s: System, k: Progress, t: nat, i: nat, s': System, k': Progress, j: nat)
    requires Inv(s, k) && Notifying(s, k, t, i, s', k') && j < |s.fifo| && j != i
    ensures StatusAt(s', k', j)
  {
    CountsAfterNotify(s, t, s'.threads[t]);
    assert StatusAt(s, k, j);
    assert if j < i then Differ(s.fifo, j, i) else Differ(s.fifo, i, j);
    OthersReport(s, s', t, s'.threads[t], s.fifo[j]);
    if OneMissing(s, i) {
      LastNotification(s, k, t, i, s', k');
    }
  }

  lemma StatusesAfterNotify(s: System, k: Progress, t: nat, i: nat, s': System, k': Progress)
    requires Inv(s, k) && Notifying(s, k, t, i, s', k')
    ensures IdsInv(s') && StatusInv(s', k')
  {
    forall i, j: nat | 0 <= i < j < |s.fifo|
      ensures Differ(s'.fifo, i, j)
    {
      assert Differ(s.fifo, i, j);
    }
    forall j: nat | j < |s.fifo|
      ensures StatusAt(s', k', j)
    {
      if j == i {
        OwnStatusAfterNotify(s, k, t, i, s', k');
      } else {
        OtherStatusAfterNotify(s, k, t, i, s', k', j);
      }
    }
  }

  lemma CountersAfterNotify(s: System, k: Progress, t: nat, i: nat, s': System, k': Progress)
    requires Inv(s, k) && Notifying(s, k, t, i, s', k')
    ensures BarrierInv(s', k') && CounterInv(s', k')
  {
    CountsAfterNotify(s, t, s'.threads[t]);
    if OneMissing(s, i) {
      NobodyBusy(s, k, t, i, s', k');
    }
  }

  lemma QueueAfterNotify(s: System, k: Progress, t: nat, i: nat, s': System, k': Progress)
    requires Inv(s, k) && Notifying(s, k, t, i, s', k')
    ensures QueueInv(s', k')
  {
    CountsAfterNotify(s, t, s'.threads[t]);
    forall j: nat | k.p <= j < |s.fifo|
      ensures UndispatchedAt(s', k', j)
    {
      assert UndispatchedAt(s, k, j);
    }
  }

  lemma NotifyKeepsInv(s: System, k: Progress, t: nat) returns (k': Progress)
    requires Inv(s, k) && Enabled(s, Notify(t))
    ensures Inv(Next(s, Notify(t)), k')
  {
    var i, s';
    i, s', k' := NotifyFacts(s, k, t);
    ReportsAfterNotify(s, k, t, i, s', k');
    StatusesAfterNotify(s, k, t, i, s', k');
    CountersAfterNotify(s, k, t, i, s', k');
    QueueAfterNotify(s, k, t, i, s', k');
    forall u: nat | u < |s.threads|
      ensures ThreadInv(s', k', u)
    {
      if u == t {
        ThreadAfterNotify(s, k, t, i, s', k');
      } else {
        OtherThreadsAfterNotify(s, k, t, i, s', k', u);
      }
    }
  }
}
