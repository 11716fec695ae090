/** The DPDK worker's use of the switch pool over a sequence of jobs: which slot and set each packet uses, and
    when it is sent. */
module DpdkSlots {
  import opened Basics

  const SET_BIT := 0x8000
  const HEADER_MODULUS := 0x1_0000

  /** x | 0x8000, on 16 bits */
  function WithSetBit(x: nat): nat {
    if x % HEADER_MODULUS < SET_BIT then x % HEADER_MODULUS + SET_BIT else x % HEADER_MODULUS
  }

  function PktId2PoolIndex(pktId: nat, start: nat, shift: nat, m: nat): nat
    requires m > 0
  {
    FromIndex((pktId + shift) % (2 * m), start, m)
  }

  function FromIndex(i: nat, start: nat, m: nat): nat {
    if i < m then (start + i) % HEADER_MODULUS else WithSetBit(start + (i - m))
  }

  // ---------- Jobs ----------

  /** A job slice of some number of main packets, at least one; floats take an extra batch. */
  datatype Job = Job(packets: nat, extra: bool) {
    function Batch(m: nat): nat {
      if m < packets then m else packets
    }

    function Total(m: nat): nat {
      packets + if extra then Batch(m) else 0
    }

    /** The sizes for which slots are used one after another. */
    predicate Fits(m: nat) {
      packets >= m || Total(m) <= m
    }
  }

  /** How many packets the jobs send. */
  function Sum(jobs: seq<Job>, m: nat): nat {
    if jobs == [] then 0 else Sum(jobs[..|jobs| - 1], m) + jobs[|jobs| - 1].Total(m)
  }

  /** switch_pool_index_shift after the jobs. */
  function ShiftAfter(jobs: seq<Job>, m: nat): nat
    requires m > 0
  {
    if jobs == [] then 0 else (ShiftAfter(jobs[..|jobs| - 1], m) + jobs[|jobs| - 1].Total(m)) % (2 * m)
  }

  lemma AddToRemainder(x: nat, y: nat, d: nat)
    requires d > 0
    ensures (x % d + y) % d == (x + y) % d
  {
    var z := x % d + y;
    assert x == x / d * d + x % d;
    assert z == z / d * d + z % d;
    assert x / d * d + z / d * d == (x / d + z / d) * d;
    DivMod(x + y, x / d + z / d, d, z % d);
  }

  lemma {:induction false} ShiftIsSum(jobs: seq<Job>, m: nat)
    requires m > 0
    ensures ShiftAfter(jobs, m) == Sum(jobs, m) % (2 * m)
  {
    if jobs != [] {
      var rest := jobs[..|jobs| - 1];
      ShiftIsSum(rest, m);
      AddToRemainder(Sum(rest, m), jobs[|jobs| - 1].Total(m), 2 * m);
    } else {
      DivMod(0, 0, 2 * m, 0);
    }
  }

  // ---------- Uses of the pool ----------

  /** All packets of all jobs are numbered through; use g of the pool is on this slot, in this set. */
  function SlotOf(g: nat, m: nat): nat
    requires m > 0
  {
    g % m
  }

  function SetOf(g: nat, m: nat): bool
    requires m > 0
  {
    g / m % 2 == 1
  }

  lemma TwoHalves(g: nat, m: nat)
    requires m > 0
    ensures g % (2 * m) == g % m + if SetOf(g, m) then m else 0
  {
    var q, r := g / m, g % m;
    assert g == q * m + r;
    assert q == q / 2 * 2 + q % 2;
    assert q * m == q / 2 * (2 * m) + q % 2 * m;
    DivMod(g, q / 2, 2 * m, q % 2 * m + r);
  }

  /** The pool index of a packet names the slot and the set of its use, across jobs. */
  lemma PoolIndexOfUse(jobs: seq<Job>, pktId: nat, start: nat, m: nat)
    requires m > 0 && start + m <= SET_BIT
    ensures var g := Sum(jobs, m) + pktId;
            PktId2PoolIndex(pktId, start, ShiftAfter(jobs, m), m)
            == start + SlotOf(g, m) + if SetOf(g, m) then SET_BIT else 0
  {
    var g := Sum(jobs, m) + pktId;
    ShiftIsSum(jobs, m);
    AddToRemainder(Sum(jobs, m), pktId, 2 * m);
    TwoHalves(g, m);
    FromHalves(start, m, SlotOf(g, m), SetOf(g, m));
  }

  lemma FromHalves(start: nat, m: nat, slot: nat, bit: bool)
    requires slot < m && start + m <= SET_BIT
    ensures FromIndex(slot + if bit then m else 0, start, m) == start + slot + if bit then SET_BIT else 0
  {
  }

  /** A slot's uses are m apart, and successive ones are in different sets. */
  lemma UsesAlternate(g: nat, m: nat)
    requires m > 0
    ensures SlotOf(g + m, m) == SlotOf(g, m) && SetOf(g + m, m) != SetOf(g, m)
    ensures forall h: nat :: g < h < g + m ==> SlotOf(h, m) != SlotOf(g, m)
  {
    var q, r := g / m, g % m;
    assert g == q * m + r;
    assert (q + 1) * m == q * m + m;
    DivMod(g + m, q + 1, m, r);
    forall h: nat | g < h < g + m
      ensures SlotOf(h, m) != SlotOf(g, m)
    {
      if h < q * m + m {
        DivMod(h, q, m, h - q * m);
      } else {
        DivMod(h, q + 1, m, h - q * m - m);
      }
    }
  }

  // ---------- One job ----------

  /** Packet k has been sent when the packets in `accepted` have been accepted. */
  predicate Sent(job: Job, m: nat, accepted: set<nat>, k: nat) {
    k < job.Total(m) && (k < job.Batch(m) || k - job.Batch(m) in accepted)
  }

  /** Packets are accepted after they have been sent. */
  predicate Run(job: Job, m: nat, accepts: seq<nat>) {
    accepts == []
    || (Run(job, m, accepts[..|accepts| - 1])
        && Sent(job, m, AcceptedIn(accepts[..|accepts| - 1]), accepts[|accepts| - 1]))
  }

  function AcceptedIn(accepts: seq<nat>): set<nat> {
    set k | k in accepts
  }

  lemma RunExtends(job: Job, m: nat, accepts: seq<nat>, k: nat)
    ensures Run(job, m, accepts + [k]) <==> Run(job, m, accepts) && Sent(job, m, AcceptedIn(accepts), k)
  {
    assert (accepts + [k])[..|accepts|] == accepts;
  }

  /** The bitmap of received packets is that of the accepted ones. */
  ghost predicate Marks(bitmap: seq<bool>, accepts: seq<nat>) {
    forall k: nat :: k < |bitmap| ==> (bitmap[k] <==> k in accepts)
  }

  lemma MarksOneMore(bitmap: seq<bool>, accepts: seq<nat>, k: nat)
    requires Marks(bitmap, accepts) && k < |bitmap|
    ensures Marks(bitmap[k := true], accepts + [k])
  {
  }

  /** Every packet that has been sent found its slot free: the packet that used it m before is accepted. */
  ghost predicate Disciplined(job: Job, m: nat, accepted: set<nat>) {
    forall k: nat :: Sent(job, m, accepted, k) && k >= m ==> k - m in accepted
  }

  /** Within a job, slots are used one after another in every run exactly for the sizes that fit. */
  lemma DisciplineNeedsSize(job: Job, m: nat)
    requires m > 0 && job.packets > 0
    ensures (forall accepts :: Run(job, m, accepts) ==> Disciplined(job, m, AcceptedIn(accepts))) <==> job.Fits(m)
  {
    if !job.Fits(m) {
      var accepts := [m - job.Batch(m)];
      assert accepts[..0] == [] && AcceptedIn([]) == {};
      assert Run(job, m, accepts[..0]);
      assert Run(job, m, accepts) && AcceptedIn(accepts) == {m - job.Batch(m)};
      assert Sent(job, m, AcceptedIn(accepts), m);
      assert !Disciplined(job, m, AcceptedIn(accepts));
    }
  }

  /** Use g of the pool has been accepted: it is one of an earlier job, which has ended, or an accepted packet. */
  predicate UseAccepted(jobs: seq<Job>, m: nat, accepted: set<nat>, g: nat) {
    g < Sum(jobs, m) || g - Sum(jobs, m) in accepted
  }

  /** Across jobs: when a packet of the current job has been sent, the previous use of its slot, in the
      other set, has been accepted. */
  lemma SlotFreeAcrossJobs(jobs: seq<Job>, job: Job, m: nat, accepts: seq<nat>, k: nat)
    requires m > 0 && job.packets > 0 && job.Fits(m) && Run(job, m, accepts)
    requires Sent(job, m, AcceptedIn(accepts), k) && Sum(jobs, m) + k >= m
    ensures var g := Sum(jobs, m) + k;
            && UseAccepted(jobs, m, AcceptedIn(accepts), g - m)
            && SlotOf(g - m, m) == SlotOf(g, m) && SetOf(g - m, m) != SetOf(g, m)
  {
    DisciplineNeedsSize(job, m);
    assert Disciplined(job, m, AcceptedIn(accepts));
    UsesAlternate(Sum(jobs, m) + k - m, m);
  }

  // ---------- Threads and the switch ----------

  /** Threads use different pool indices. */
  lemma ThreadsApart(m: nat, threads: nat, t: nat, u: nat, i: nat, j: nat)
    requires m > 0 && t < u < threads && i < m && j < m
    ensures t * (2 * m) + i < u * (2 * m) + j
  {
    Steps(t, u, 2 * m);
  }

  /** udp_receiver: bits 13 to 0, then bit 15. */
  function SwitchIndex(header: nat): nat {
    header % 0x4000 * 2 + header / 0x8000 % 2
  }

  /** udp_sender: bits 13 to 0 are bits 14 to 1, and bit 15 is bit 0. */
  function HeaderIndex(poolIndex: nat): nat {
    poolIndex / 2 % 0x4000 + poolIndex % 2 * SET_BIT
  }

  /** Every pool index of the switch comes back. */
  lemma PoolIndexReturns(poolIndex: nat)
    requires poolIndex < 0x8000
    ensures HeaderIndex(poolIndex) < HEADER_MODULUS && SwitchIndex(HeaderIndex(poolIndex)) == poolIndex
  {
    SwitchOf(poolIndex / 2, poolIndex % 2 == 1);
  }

  /** A header's index comes back exactly if its bit 14 is clear, as it is in a pool of at most 2^14 slots. */
  lemma HeaderReturns(header: nat)
    requires header < HEADER_MODULUS
    ensures SwitchIndex(header) < 0x8000
    ensures HeaderIndex(SwitchIndex(header)) == header <==> header % 0x8000 < 0x4000
  {
    var low, bit14, bit15 := header % 0x4000, header / 0x4000 % 2, header / 0x8000;
    assert header == bit15 * 0x8000 + bit14 * 0x4000 + low;
    assert SwitchIndex(header) == 2 * low + bit15;
    assert HeaderIndex(2 * low + bit15) == low + bit15 * 0x8000;
  }

  lemma SwitchOf(slot: nat, bit: bool)
    requires slot < 0x4000
    ensures SwitchIndex(slot + if bit then SET_BIT else 0) == 2 * slot + if bit then 1 else 0
  {
  }

  /** On the switch, the slot is the worker's slot and the set bit is the set of the use. */
  lemma SwitchSeesUse(jobs: seq<Job>, pktId: nat, start: nat, m: nat)
    requires m > 0 && start + m <= 0x4000
    ensures var g, index := Sum(jobs, m) + pktId,
                SwitchIndex(PktId2PoolIndex(pktId, start, ShiftAfter(jobs, m), m));
            index / 2 == start + SlotOf(g, m) && (index % 2 == 1 <==> SetOf(g, m))
  {
    PoolIndexOfUse(jobs, pktId, start, m);
    var g := Sum(jobs, m) + pktId;
    SwitchOf(start + SlotOf(g, m), SetOf(g, m));
  }

  // ---------- Job ids ----------

  /** The low 8 bits of a job id, which a packet carries. */
  function ShortJobId(jobId: nat): nat {
    jobId % 0x100
  }

  /** Two jobs' packets are told apart exactly if their ids do not differ by a multiple of 256. */
  lemma JobsToldApart(p: nat, q: nat)
    requires p <= q
    ensures ShortJobId(p) != ShortJobId(q) <==> (q - p) % 0x100 != 0
  {
    DivMod(p, p / 0x100, 0x100, p % 0x100);
    DivMod(q, q / 0x100, 0x100, q % 0x100);
  }

  /** What the worker checks before it accepts a packet. */
  predicate Takes(jobId: nat, packetJobId: nat, accepts: seq<nat>, pktId: nat) {
    ShortJobId(packetJobId) == ShortJobId(jobId) && pktId !in accepts
  }

  /** As long as some packet of the current job is missing, late copies of an earlier job's packets are all
      ignored exactly if the two jobs' ids do not differ by a multiple of 256. */
  lemma EarlierJobIgnored(jobId: nat, earlier: nat, accepts: seq<nat>, total: nat, missing: nat)
    requires earlier < jobId && missing < total && missing !in accepts
    ensures (forall k :: 0 <= k < total ==> !Takes(jobId, earlier, accepts, k)) <==> (jobId - earlier) % 0x100 != 0
  {
    JobsToldApart(earlier, jobId);
    assert Takes(jobId, earlier, accepts, missing) <==> ShortJobId(earlier) == ShortJobId(jobId);
  }

  // ---------- The worker thread ----------

  datatype Post = Post(pktId: nat, poolIndex: nat)

  class DpdkWorkerThread {
    const maxOutstanding: nat
    const poolIndexStart: nat
    var shift: nat
    var batch: nat
    var total: nat
    var jobId: nat
    /** The bitmap of received packets, and their number. */
    var bitmap: seq<bool>
    var numReceived: nat
    /** The jobs before the current one, the current one, its packets in the order of acceptance, and what
        has been sent for it. */
    ghost var jobs: seq<Job>
    ghost var job: Job
    ghost var accepts: seq<nat>
    ghost var posted: seq<Post>

    ghost predicate Valid()
      reads this`shift, this`jobs
    {
      && maxOutstanding > 0 && shift == ShiftAfter(jobs, maxOutstanding)
    }

    /** While a job is running: the bitmap and the counters tell what has been accepted. */
    ghost predicate Counting()
      reads this
    {
      && Valid() && job.packets > 0 && batch == job.Batch(maxOutstanding)
      && total == job.Total(maxOutstanding) == |bitmap|
      && numReceived == |accepts| && Marks(bitmap, accepts)
    }

    /** And every accepted packet had been sent. */
    ghost predicate Running()
      reads this
    {
      Counting() && Run(job, maxOutstanding, accepts)
    }

    function PostOf(pktId: nat): Post
      requires maxOutstanding > 0
      reads this`shift
    {
      Post(pktId, PktId2PoolIndex(pktId, poolIndexStart, shift, maxOutstanding))
    }

    constructor (maxOutstanding: nat, tid: nat)
      requires maxOutstanding > 0
      ensures Valid() && jobs == [] && this.maxOutstanding == maxOutstanding
      ensures poolIndexStart == maxOutstanding * 2 * tid
    {
      this.maxOutstanding, poolIndexStart := maxOutstanding, maxOutstanding * 2 * tid;
      shift, batch, total, jobId, bitmap, numReceived := 0, 0, 0, 0, [], 0;
      jobs, job, accepts, posted := [], Job(0, false), [], [];
    }

    /** Sends a packet on the pool index of its id. */
    method SendPacket(pktId: nat)
      requires maxOutstanding > 0
      modifies this`posted
      ensures posted == old(posted) + [PostOf(pktId)]
    {
      posted := posted + [PostOf(pktId)];
    }

    /** Sends the first batch of a job. */
    method BeginJob(packets: nat, extra: bool, jobId: nat)
      requires Valid() && packets > 0
      modifies this
      ensures Running() && job == Job(packets, extra) && jobs == old(jobs) && accepts == [] && this.jobId == jobId
      ensures |posted| == batch && forall k :: 0 <= k < batch ==> posted[k] == PostOf(k)
    {
      job, accepts, posted := Job(packets, extra), [], [];
      this.jobId := jobId;
      batch := if maxOutstanding < packets then maxOutstanding else packets;
      total := packets;
      if extra {
        total := total + batch;
      }
      bitmap := seq(total, k => false);
      numReceived := 0;
      for pktId := 0 to batch
        modifies this`posted
        invariant |posted| == pktId && forall k :: 0 <= k < pktId ==> posted[k] == PostOf(k)
      {
        SendPacket(pktId);
      }
    }

    /** A packet of the job with id packetJobId has come back; it carries 8 bits of that id. It is accepted
        if it is not marked as received and these bits are those of the current job, and its successor is
        sent; otherwise nothing changes. The state stays right unless a packet is accepted that has not been
        sent for this job. */
    method HandlePacket(pktId: nat, packetJobId: nat) returns (accepted: bool)
      requires Running() && pktId < total
      modifies this`bitmap, this`numReceived, this`accepts, this`posted
      ensures Counting()
      ensures Running() <==> (accepted ==> Sent(job, maxOutstanding, AcceptedIn(old(accepts)), pktId))
      ensures accepted <==> Takes(jobId, packetJobId, old(accepts), pktId)
      ensures accepts == old(accepts) + if accepted then [pktId] else []
      ensures posted == old(posted) + if accepted && pktId + batch < total then [PostOf(pktId + batch)] else []
    {
      accepted := Accepts(pktId, packetJobId);
      if accepted {
        Mark(pktId);
        SendNext(pktId);
      }
    }

    /** The two checks. */
    method Accepts(pktId: nat, packetJobId: nat) returns (accepted: bool)
      requires Counting() && pktId < total
      ensures accepted <==> Takes(jobId, packetJobId, accepts, pktId)
    {
      accepted := !bitmap[pktId] && ShortJobId(packetJobId) == ShortJobId(jobId);
    }

    /** Sends the next packet on the slot, if there is one. */
    method SendNext(pktId: nat)
      requires maxOutstanding > 0
      modifies this`posted
      ensures posted == old(posted) + if pktId + batch < total then [PostOf(pktId + batch)] else []
    {
      var next := pktId + batch;
      if next < total {
        SendPacket(next);
      }
    }

    /** Counts a packet and marks it as received. */
    method Mark(pktId: nat)
      requires Running() && pktId < total
      modifies this`bitmap, this`numReceived, this`accepts
      ensures Counting() && accepts == old(accepts) + [pktId]
      ensures Running() <==> Sent(job, maxOutstanding, AcceptedIn(old(accepts)), pktId)
    {
      MarksOneMore(bitmap, accepts, pktId);
      RunExtends(job, maxOutstanding, accepts, pktId);
      numReceived := numReceived + 1;
      bitmap := bitmap[pktId := true];
      accepts := accepts + [pktId];
    }

    /** The shift for the next job, so that it continues where this one ended. */
    method EndJob()
      requires Running() && numReceived == total
      modifies this
      ensures Valid() && jobs == old(jobs) + [old(job)]
    {
      shift := (shift + total) % (2 * maxOutstanding);
      jobs := jobs + [job];
      assert jobs[..|jobs| - 1] == old(jobs);
    }

    /** Whatever has been sent for the current job went to a free slot, if its size fits. */
    lemma SlotsWereFree(k: nat)
      requires Running() && job.Fits(maxOutstanding) && Sent(job, maxOutstanding, AcceptedIn(accepts), k)
      requires Sum(jobs, maxOutstanding) + k >= maxOutstanding && poolIndexStart + maxOutstanding <= SET_BIT
      ensures var g := Sum(jobs, maxOutstanding) + k;
              && UseAccepted(jobs, maxOutstanding, AcceptedIn(accepts), g - maxOutstanding)
              && PostOf(k).poolIndex
                 == poolIndexStart + SlotOf(g, maxOutstanding) + if SetOf(g, maxOutstanding) then SET_BIT else 0
    {
      SlotFreeAcrossJobs(jobs, job, maxOutstanding, accepts, k);
      PoolIndexOfUse(jobs, k, poolIndexStart, maxOutstanding);
    }
  }
}
