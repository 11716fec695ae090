/** The scheduler, the barrier and the jobs as the program writes them. Each method is a critical section, and
    does to the fields what the step of the same name does in Scheduling. */
module SchedulerObjects {
  import opened Scheduling

  class Job {
    const id: nat
    const numel: nat
    var status: JobStatus

    constructor (id: nat, numel: nat)
      ensures this.id == id && this.numel == numel && status == INIT
    {
      this.id, this.numel, status := id, numel, INIT;
    }

    /** A lower status is a fatal error; nothing changes then. */
    method SetJobStatus(status: JobStatus) returns (ok: bool)
      modifies this
      ensures ok <==> old(this.status).Rank() <= status.Rank()
      ensures this.status == if ok then status else old(this.status)
    {
      ok := this.status.Rank() <= status.Rank();
      if ok {
        this.status := status;
      }
    }
  }

  class ThreadBarrier {
    const numParticipants: nat
    var count: int
    var flag: bool

    function View(): Barrier
      reads this
    {
      Barrier(count, flag)
    }

    constructor (numParticipants: nat)
      ensures View() == Barrier(numParticipants, false) && this.numParticipants == numParticipants
    {
      this.numParticipants, count, flag := numParticipants, numParticipants, false;
    }

    /** Wait, until the thread waits or passes. Coming to a destroyed barrier is a fatal error. */
    method Arrive() returns (ok: bool, waits: bool, flagCopy: bool)
      modifies this
      ensures ok <==> old(count) != -1
      ensures !ok ==> View() == old(View())
      ensures ok ==> (View(), waits) == Arrived(old(View()), numParticipants) && flagCopy == old(flag)
    {
      ok, waits, flagCopy := count != -1, false, flag;
      if !ok {
        return;
      }
      count := count - 1;
      if count > 0 {
        waits := true;
      } else {
        flag := !flag;
        count := numParticipants;
      }
    }

    /** The condition for which a waiting thread waits. */
    predicate Released(flagCopy: bool)
      reads this
      ensures Released(flagCopy) <==> MayLeave(View(), flagCopy)
    {
      count == -1 || flagCopy != flag
    }

    method Destroy()
      modifies this
      ensures count == -1 && flag == old(flag)
    {
      count := -1;
    }
  }

  class FifoScheduler {
    const numWorkerThreads: nat
    var stopped: bool
    var queue: seq<Job>
    var finished: map<nat, int>
    var undispatched: map<nat, int>

    ghost function Ids(jobs: seq<Job>): (ids: seq<nat>)
      ensures |ids| == |jobs| && forall i :: 0 <= i < |jobs| ==> ids[i] == jobs[i].id
    {
      seq(|jobs|, i requires 0 <= i < |jobs| => jobs[i].id)
    }

    ghost function View(): Scheduler
      reads this
    {
      Scheduler(stopped, Ids(queue), undispatched, finished)
    }

    constructor (numWorkerThreads: nat)
      ensures View() == Scheduler(false, [], map[], map[]) && this.numWorkerThreads == numWorkerThreads
    {
      this.numWorkerThreads := numWorkerThreads;
      stopped, queue, finished, undispatched := false, [], map[], map[];
    }

    method EnqueueJob(job: Job) returns (ok: bool)
      modifies this, job
      ensures View() == Enqueued(old(View()), job.id, numWorkerThreads) && queue == old(queue) + [job]
      ensures ok <==> old(job.status).Rank() <= QUEUED.Rank()
      ensures job.status == if ok then QUEUED else old(job.status)
    {
      ok := job.SetJobStatus(QUEUED);
      finished := finished[job.id := 0];
      undispatched := undispatched[job.id := numWorkerThreads];
      queue := queue + [job];
    }

    /** GetJobSlice from the barrier on, when it does not wait any more: a slice of the oldest job. */
    method TakeSlice(tid: nat) returns (got: bool, job: Job?, slice: Slice, ok: bool)
      requires numWorkerThreads > 0 && (stopped || |queue| > 0)
      requires !stopped ==> queue[0].id in undispatched
      modifies this, queue
      ensures got <==> !old(stopped)
      ensures !got ==> View() == old(View()) && job == null
      ensures got ==> job == old(queue[0]) && View() == Dispatched(old(View()))
      ensures got ==> slice == SliceOf(job.id, job.numel, numWorkerThreads, tid)
      ensures got ==> (ok <==> old(queue[0].status).Rank() <= RUNNING.Rank())
      ensures got ==> job.status == if ok then RUNNING else old(queue[0].status)
      ensures forall j :: j in old(queue) && j != job ==> j.status == old(j.status)
    {
      got, job, slice, ok := !stopped, null, Slice(0, 0, 0), true;
      if stopped {
        return;
      }
      job := queue[0];
      var left := undispatched[job.id] - 1;
      undispatched := undispatched[job.id := left];
      if left == 0 {
        queue := queue[1..];
        undispatched := undispatched - {job.id};
        assert undispatched == old(undispatched) - {job.id};
      }
      slice := CutSlice(job, tid);
      ok := job.SetJobStatus(RUNNING);
    }

    /** The thread's part of the job's tensor. */
    method CutSlice(job: Job, tid: nat) returns (slice: Slice)
      requires numWorkerThreads > 0
      ensures slice == SliceOf(job.id, job.numel, numWorkerThreads, tid)
    {
      var numel := job.numel / numWorkerThreads;
      var remainder := job.numel % numWorkerThreads;
      var offset;
      if remainder > tid {
        numel := numel + 1;
        offset := tid * numel;
      } else {
        offset := tid * numel + remainder;
      }
      slice := Slice(job.id, offset, numel);
    }

    /** Whether the job is finished; after a stop, the job fails. */
    method NotifyJobSliceCompletion(job: Job) returns (done: bool, ok: bool)
      requires !stopped ==> job.id in finished
      modifies this, job
      ensures old(stopped) ==> View() == old(View()) && !done && ok && job.status == FAILED
      ensures !old(stopped) ==>
                (View(), done) == Notified(old(View()), job.id, numWorkerThreads) && job.status == old(job.status)
    {
      ok, done := true, false;
      if stopped {
        ok := job.SetJobStatus(FAILED);
        return;
      }
      var count := finished[job.id] + 1;
      finished := finished[job.id := count];
      done := count == numWorkerThreads;
      if done {
        finished := finished - {job.id};
        assert finished == old(finished) - {job.id};
      }
    }

    /** What FifoScheduler::Stop does after Scheduler::Stop: all queued jobs fail, and everything is cleared. */
    method StopFifo(barrier: ThreadBarrier)
      requires stopped
      modifies this, barrier, queue
      ensures View() == Scheduler(true, [], map[], map[]) && barrier.count == -1
      ensures forall job :: job in old(queue) ==> job.status == FAILED
    {
      barrier.Destroy();
      ghost var jobs, i := queue, 0;
      while |queue| > 0
        invariant i <= |jobs| && queue == jobs[i..]
        invariant forall k :: 0 <= k < i ==> jobs[k].status == FAILED
        invariant stopped && barrier.count == -1
      {
        var ok := queue[0].SetJobStatus(FAILED);
        queue := queue[1..];
        i := i + 1;
      }
      undispatched := map[];
      finished := map[];
    }
  }
}
