/** The RDMA worker's loop over a whole job slice: what it has posted and accepted at any time, and that it
    ends exactly when the result of every message has been accepted. */
module RdmaSlices {
  import opened Basics
  import opened Slots
  import opened Protocol
  import opened RdmaWorker

  // ---------- One queue pair ----------

  /** The rkey of message number k of the slice, on a slot whose set bit was `flag` before the slice. */
  function RkeyOf(slot: nat, flag: bool, k: nat): nat {
    2 * slot + if Odd(k) == flag then 1 else 0
  }

  function PostOf(cfg: Config, slot: nat, flag: bool, k: nat): Post {
    Post(cfg.qpn, RkeyOf(slot, flag, k), cfg.ShortId(k))
  }

  /** How many messages have been posted when the results of a of them have been accepted. */
  function Posted(cfg: Config, a: nat): nat
    requires cfg.qpn < cfg.batch <= cfg.total
  {
    if a < cfg.Rounds() then a + 1 else cfg.Rounds()
  }

  ghost predicate OnTrack(qp: QueuePair, cfg: Config, slot: nat, flag: bool)
    requires cfg.qpn < cfg.batch <= cfg.total
  {
    var a := |qp.accepted|;
    && a <= cfg.Rounds()
    && qp.msgId == cfg.MsgId(a)
    && qp.rkey == RkeyOf(slot, flag, Posted(cfg, a) - 1)
  }

  /** The posts of a queue pair are its messages 0, ..., n - 1 in this order, each followed by any number of
      further copies of itself. */
  ghost predicate Logged(posts: seq<Post>, cfg: Config, slot: nat, flag: bool, n: nat) {
    if posts == [] then n == 0
    else
      var earlier, last := posts[..|posts| - 1], posts[|posts| - 1];
      if last.qpn != cfg.qpn then Logged(earlier, cfg, slot, flag, n)
      else n > 0 && last == PostOf(cfg, slot, flag, n - 1)
           && (Logged(earlier, cfg, slot, flag, n - 1) || Logged(earlier, cfg, slot, flag, n))
  }

  /** The posts of a slice are the protocol's packets; a slice that begins with the set bit 0 in its rkey uses
      the two sets the other way round. */
  lemma PostsArePackets(cfg: Config, w: nat, slot: nat, flag: bool, k: nat)
    requires cfg.Valid() && w < cfg.n && k < cfg.Rounds()
    ensures var post, packet := PostOf(cfg, slot, flag, k), PacketOf(cfg, w, k);
            && post.imm == packet.shortId && post.rkey / 2 == slot
            && (post.rkey % 2 == 1 <==> packet.setBit == flag)
  {
    var bit := if Odd(k) == flag then 1 else 0;
    DivMod(RkeyOf(slot, flag, k), slot, 2, bit);
  }

  lemma LoggedOther(posts: seq<Post>, p: Post, cfg: Config, slot: nat, flag: bool, n: nat)
    requires Logged(posts, cfg, slot, flag, n) && p.qpn != cfg.qpn
    ensures Logged(posts + [p], cfg, slot, flag, n)
  {
    assert (posts + [p])[..|posts|] == posts;
  }

  lemma LoggedNext(posts: seq<Post>, cfg: Config, slot: nat, flag: bool, n: nat)
    requires Logged(posts, cfg, slot, flag, n)
    ensures Logged(posts + [PostOf(cfg, slot, flag, n)], cfg, slot, flag, n + 1)
  {
    assert (posts + [PostOf(cfg, slot, flag, n)])[..|posts|] == posts;
  }

  lemma LoggedAgain(posts: seq<Post>, cfg: Config, slot: nat, flag: bool, n: nat)
    requires Logged(posts, cfg, slot, flag, n) && n > 0
    ensures Logged(posts + [PostOf(cfg, slot, flag, n - 1)], cfg, slot, flag, n)
  {
    assert (posts + [PostOf(cfg, slot, flag, n - 1)])[..|posts|] == posts;
  }

  lemma TrackedIsOutstanding(qp: QueuePair, cfg: Config, slot: nat, flag: bool)
    requires cfg.qpn < cfg.batch <= cfg.total && OnTrack(qp, cfg, slot, flag)
    ensures qp.msgId < cfg.total <==> |qp.accepted| < cfg.Rounds()
    ensures qp.msgId < cfg.total ==> qp.CurrentPost(cfg.qpn) == PostOf(cfg, slot, flag, |qp.accepted|)
  {
    RoundsAreIds(cfg, |qp.accepted|);
  }

  lemma AcceptedStaysOnTrack(qp: QueuePair, qp': QueuePair, cfg: Config, slot: nat, flag: bool, result: Payload)
    requires cfg.qpn < cfg.batch <= cfg.total && OnTrack(qp, cfg, slot, flag) && qp.msgId < cfg.total
    requires qp'.View() == NextMessage(cfg, qp.View(), result) && qp'.rkey / 2 == slot
    ensures OnTrack(qp', cfg, slot, flag) && |qp'.accepted| == |qp.accepted| + 1
  {
    var a := |qp.accepted|;
    RoundsAreIds(cfg, a);
    RoundsAreIds(cfg, a + 1);
    assert (a + 1) * cfg.batch == a * cfg.batch + cfg.batch;
    assert Odd(a + 1) == !Odd(a);
  }

  // ---------- All messages of the slice ----------

  function ConfigFor(qpn: nat, batch: nat, total: nat): Config {
    Config(1, qpn, batch, total, [])
  }

  /** How many of the first k queue pairs' messages there are. */
  function MessagesBelow(batch: nat, total: nat, k: nat): nat
    requires k <= batch <= total
  {
    if k == 0 then 0 else MessagesBelow(batch, total, k - 1) + ConfigFor(k - 1, batch, total).Rounds()
  }

  function AcceptedBelow(qps: seq<QueuePair>, k: nat): nat
    requires k <= |qps|
  {
    if k == 0 then 0 else AcceptedBelow(qps, k - 1) + |qps[k - 1].accepted|
  }

  lemma OneMoreMessage(batch: nat, total: nat, q: nat)
    requires q < batch <= total
    ensures ConfigFor(q, batch, total + 1).Rounds()
         == ConfigFor(q, batch, total).Rounds() + if q == total % batch then 1 else 0
  {
    var d := total - q;
    var u, v := (d - 1) / batch, total / batch;
    assert total == v * batch + total % batch;
    assert d - 1 == u * batch + (d - 1) % batch;
    if q == total % batch {
      assert d == v * batch;
      DivMod(d, v, batch, 0);
      assert (v - 1) * batch == v * batch - batch;
      DivMod(d - 1, v - 1, batch, batch - 1);
    } else if (d - 1) % batch == batch - 1 {
      assert (u + 1) * batch == u * batch + batch;
      DivMod(total, u + 1, batch, q);
    } else {
      DivMod(d, u, batch, (d - 1) % batch + 1);
    }
  }

  lemma {:induction false} OneMoreBelow(batch: nat, total: nat, k: nat)
    requires k <= batch <= total && batch > 0
    ensures MessagesBelow(batch, total + 1, k)
         == MessagesBelow(batch, total, k) + if total % batch < k then 1 else 0
  {
    if k > 0 {
      OneMoreBelow(batch, total, k - 1);
      OneMoreMessage(batch, total, k - 1);
    }
  }

  lemma {:induction false} OneEach(batch: nat, k: nat)
    requires k <= batch
    ensures MessagesBelow(batch, batch, k) == k
  {
    if k > 0 {
      OneEach(batch, k - 1);
      DivMod(batch - k, 0, batch, batch - k);
    }
  }

  /** The queue pairs share the messages out: together they carry each of them once. */
  lemma {:induction false} MessagesShared(batch: nat, total: nat)
    requires 0 < batch <= total
    ensures MessagesBelow(batch, total, batch) == total
    decreases total
  {
    if total == batch {
      OneEach(batch, batch);
    } else {
      MessagesShared(batch, total - 1);
      OneMoreBelow(batch, total - 1, batch);
    }
  }

  ghost predicate WithinRounds(qps: seq<QueuePair>, batch: nat, total: nat)
    requires batch <= |qps| && batch <= total
  {
    forall q: nat :: q < batch ==> |qps[q].accepted| <= ConfigFor(q, batch, total).Rounds()
  }

  ghost predicate HasAllRounds(qps: seq<QueuePair>, batch: nat, total: nat, k: nat)
    requires k <= batch <= |qps| && batch <= total
  {
    forall q: nat :: q < k ==> |qps[q].accepted| == ConfigFor(q, batch, total).Rounds()
  }

  lemma {:induction false} AcceptedAtMost(qps: seq<QueuePair>, batch: nat, total: nat, k: nat)
    requires k <= batch <= |qps| && batch <= total && WithinRounds(qps, batch, total)
    ensures AcceptedBelow(qps, k) <= MessagesBelow(batch, total, k)
    ensures AcceptedBelow(qps, k) == MessagesBelow(batch, total, k) <==> HasAllRounds(qps, batch, total, k)
  {
    if k > 0 {
      AcceptedAtMost(qps, batch, total, k - 1);
      assert |qps[k - 1].accepted| <= ConfigFor(k - 1, batch, total).Rounds();
      assert HasAllRounds(qps, batch, total, k)
        <==> HasAllRounds(qps, batch, total, k - 1) && |qps[k - 1].accepted| == ConfigFor(k - 1, batch, total).Rounds();
    }
  }

  lemma {:induction false} AcceptedOneMore(qps: seq<QueuePair>, qps': seq<QueuePair>, q: nat, k: nat)
    requires k <= |qps| == |qps'| && q < |qps| && |qps'[q].accepted| == |qps[q].accepted| + 1
    requires forall p: nat :: p < |qps| && p != q ==> qps'[p] == qps[p]
    ensures AcceptedBelow(qps', k) == AcceptedBelow(qps, k) + if q < k then 1 else 0
  {
    if k > 0 {
      AcceptedOneMore(qps, qps', q, k - 1);
    }
  }

  lemma {:induction false} NothingAccepted(qps: seq<QueuePair>, k: nat)
    requires k <= |qps| && forall q: nat :: q < k ==> qps[q].accepted == []
    ensures AcceptedBelow(qps, k) == 0
  {
    if k > 0 {
      NothingAccepted(qps, k - 1);
    }
  }

  // ---------- The state of the slice ----------

  /** A queue pair in use, and what has been posted since the slice began. */
  ghost predicate Tracked(qp: QueuePair, cfg: Config, slot: nat, flag: bool, posts: seq<Post>)
    requires cfg.qpn < cfg.batch <= cfg.total
  {
    OnTrack(qp, cfg, slot, flag) && Logged(posts, cfg, slot, flag, Posted(cfg, |qp.accepted|))
  }

  ghost predicate AllTracked(qps: seq<QueuePair>, posts: seq<Post>, batch: nat, total: nat,
                             slots: seq<nat>, flags: seq<bool>)
  {
    && batch <= |qps| == |slots| == |flags| && batch <= total
    && forall q: nat :: q < batch ==> Tracked(qps[q], ConfigFor(q, batch, total), slots[q], flags[q], posts)
  }

  lemma AcceptKeepsOwn(qp: QueuePair, qp': QueuePair, posts: seq<Post>, posts': seq<Post>, cfg: Config,
                       slot: nat, flag: bool, result: Payload)
    requires cfg.qpn < cfg.batch <= cfg.total && Tracked(qp, cfg, slot, flag, posts) && qp.msgId < cfg.total
    requires qp'.View() == NextMessage(cfg, qp.View(), result) && qp'.rkey / 2 == slot
    requires posts' == posts + if qp'.msgId < cfg.total then [qp'.CurrentPost(cfg.qpn)] else []
    ensures Tracked(qp', cfg, slot, flag, posts') && |qp'.accepted| == |qp.accepted| + 1
  {
    AcceptedStaysOnTrack(qp, qp', cfg, slot, flag, result);
    TrackedIsOutstanding(qp, cfg, slot, flag);
    TrackedIsOutstanding(qp', cfg, slot, flag);
    LoggedNext(posts, cfg, slot, flag, Posted(cfg, |qp.accepted|));
    assert posts + [] == posts;
  }

  lemma PostKeepsOther(qp: QueuePair, posts: seq<Post>, posts': seq<Post>, p: Post, cfg: Config, slot: nat, flag: bool)
    requires cfg.qpn < cfg.batch <= cfg.total && Tracked(qp, cfg, slot, flag, posts) && p.qpn != cfg.qpn
    requires posts' == posts + [p] || posts' == posts
    ensures Tracked(qp, cfg, slot, flag, posts')
  {
    LoggedOther(posts, p, cfg, slot, flag, Posted(cfg, |qp.accepted|));
  }

  /** What the acceptance of a result leaves true, if `posted` is everything posted by the worker and the
      slice began after `base` posts. */
  lemma AcceptKeepsTrack(qps: seq<QueuePair>, qps': seq<QueuePair>, posted: seq<Post>, posted': seq<Post>, base: nat,
                         batch: nat, total: nat, slots: seq<nat>, flags: seq<bool>, q: nat, result: Payload)
    requires base <= |posted| && AllTracked(qps, posted[base..], batch, total, slots, flags)
    requires q < batch && qps[q].msgId < total
    requires |qps'| == |qps| && forall p: nat :: p < |qps| && p != q ==> qps'[p] == qps[p]
    requires qps'[q].View() == NextMessage(ConfigFor(q, batch, total), qps[q].View(), result)
    requires qps'[q].rkey / 2 == slots[q]
    requires posted' == posted + if qps'[q].msgId < total then [qps'[q].CurrentPost(q)] else []
    ensures base <= |posted'| && AllTracked(qps', posted'[base..], batch, total, slots, flags)
    ensures AcceptedBelow(qps', batch) == AcceptedBelow(qps, batch) + 1
  {
    var posts, posts' := posted[base..], posted'[base..];
    assert posts' == posts + if qps'[q].msgId < total then [qps'[q].CurrentPost(q)] else [];
    forall p: nat | p < batch
      ensures Tracked(qps'[p], ConfigFor(p, batch, total), slots[p], flags[p], posts')
    {
      assert Tracked(qps[p], ConfigFor(p, batch, total), slots[p], flags[p], posts);
      if p == q {
        AcceptKeepsOwn(qps[p], qps'[p], posts, posts', ConfigFor(p, batch, total), slots[p], flags[p], result);
      } else {
        PostKeepsOther(qps[p], posts, posts', qps'[q].CurrentPost(q), ConfigFor(p, batch, total), slots[p], flags[p]);
      }
    }
    AcceptedOneMore(qps, qps', q, batch);
  }

  lemma ResendKeepsTrack(qps: seq<QueuePair>, posted: seq<Post>, posted': seq<Post>, base: nat,
                         batch: nat, total: nat, slots: seq<nat>, flags: seq<bool>, q: nat)
    requires base <= |posted| && AllTracked(qps, posted[base..], batch, total, slots, flags)
    requires q < batch && qps[q].msgId < total && posted' == posted + [qps[q].CurrentPost(q)]
    ensures base <= |posted'| && AllTracked(qps, posted'[base..], batch, total, slots, flags)
  {
    var posts, posts' := posted[base..], posted'[base..];
    assert posts' == posts + [qps[q].CurrentPost(q)];
    forall p: nat | p < batch
      ensures Tracked(qps[p], ConfigFor(p, batch, total), slots[p], flags[p], posts')
    {
      var cfg := ConfigFor(p, batch, total);
      assert Tracked(qps[p], cfg, slots[p], flags[p], posts);
      if p == q {
        TrackedIsOutstanding(qps[p], cfg, slots[p], flags[p]);
        LoggedAgain(posts, cfg, slots[p], flags[p], |qps[p].accepted| + 1);
      } else {
        PostKeepsOther(qps[p], posts, posts', qps[q].CurrentPost(q), cfg, slots[p], flags[p]);
      }
    }
  }

  /** The first batch: one post per queue pair. */
  lemma {:induction false} FirstPosts(posts: seq<Post>, cfg: Config, slot: nat, flag: bool)
    requires forall p: nat :: p < |posts| ==> posts[p].qpn == p
    requires cfg.qpn < |posts| ==> posts[cfg.qpn] == PostOf(cfg, slot, flag, 0)
    ensures Logged(posts, cfg, slot, flag, if cfg.qpn < |posts| then 1 else 0)
    decreases |posts|
  {
    if posts != [] {
      FirstPosts(posts[..|posts| - 1], cfg, slot, flag);
    }
  }

  lemma StartsTracked(was: seq<QueuePair>, qps: seq<QueuePair>, posted: seq<Post>, base: nat, batch: nat, total: nat,
                      slots: seq<nat>, flags: seq<bool>)
    requires batch <= |was| == |qps| == |slots| == |flags| && batch <= total && |posted| == base + batch
    requires forall q: nat :: q < batch ==> qps[q] == was[q].Sent() && posted[base + q] == qps[q].CurrentPost(q)
    requires forall q: nat :: q < batch ==>
               was[q].msgId == q && was[q].accepted == [] && was[q].rkey / 2 == slots[q]
               && flags[q] == (was[q].rkey % 2 == 1)
    ensures AllTracked(qps, posted[base..], batch, total, slots, flags) && AcceptedBelow(qps, batch) == 0
  {
    var posts := posted[base..];
    forall q: nat | q < batch
      ensures posts[q] == qps[q].CurrentPost(q)
    {
    }
    forall q: nat | q < batch
      ensures Tracked(qps[q], ConfigFor(q, batch, total), slots[q], flags[q], posts)
    {
      var cfg := ConfigFor(q, batch, total);
      RoundsAreIds(cfg, 0);
      assert qps[q].rkey == RkeyOf(slots[q], flags[q], 0);
      FirstPosts(posts, cfg, slots[q], flags[q]);
    }
    NothingAccepted(qps, batch);
  }

  /** The number of results is that of the messages exactly if every queue pair in use has them all. */
  lemma AllReceived(qps: seq<QueuePair>, posts: seq<Post>, batch: nat, total: nat, slots: seq<nat>, flags: seq<bool>)
    requires AllTracked(qps, posts, batch, total, slots, flags) && batch > 0
    ensures AcceptedBelow(qps, batch) <= total
    ensures AcceptedBelow(qps, batch) == total <==> HasAllRounds(qps, batch, total, batch)
  {
    MessagesShared(batch, total);
    forall q: nat | q < batch
      ensures |qps[q].accepted| <= ConfigFor(q, batch, total).Rounds()
    {
      assert Tracked(qps[q], ConfigFor(q, batch, total), slots[q], flags[q], posts);
    }
    AcceptedAtMost(qps, batch, total, batch);
  }

  // ---------- The loop ----------

  /** A receive completion: its queue pair, the short id and the result in it, and the time since the last
      reading of the clock. */
  datatype Completion = Completion(qpn: nat, shortId: nat, result: Payload, elapsed: nat)

  /** What a turn of the loop polls, and the time until it checks the timers. */
  datatype Turn = Turn(completions: seq<Completion>, elapsed: nat)

  ghost function SlotsOf(t: RdmaWorkerThread): (s: seq<nat>)
    ensures |s| == t.numQps && forall q: nat :: q < t.numQps ==> s[q] == t.FirstSlot(q)
  {
    seq(t.numQps, q requires 0 <= q => t.FirstSlot(q))
  }

  /** The set bits in the rkeys. */
  ghost function FlagsOf(qps: seq<QueuePair>): (flags: seq<bool>)
    ensures |flags| == |qps| && forall q: nat :: q < |qps| ==> flags[q] == (qps[q].rkey % 2 == 1)
  {
    seq(|qps|, q requires 0 <= q < |qps| => qps[q].rkey % 2 == 1)
  }

  /** No queue pair has a message outstanding. */
  ghost predicate Idle(t: RdmaWorkerThread)
    reads t, t.msgIds, t.rkeys, t.imms, t.receives, t.timeouts, t.timeouts.entries
  {
    && t.Shape() && t.TimersValid() && t.numQps > 0
    && forall q: nat :: q < t.numQps ==>
         !t.Qps()[q].timed && t.Qps()[q].receives == 0 && t.Qps()[q].rkey / 2 == t.FirstSlot(q)
  }

  /** In the slice that began after `base` posts with the given set bits. */
  ghost predicate InSlice(t: RdmaWorkerThread, base: nat, flags: seq<bool>)
    reads t, t.msgIds, t.rkeys, t.imms, t.receives, t.timeouts, t.timeouts.entries
  {
    && t.Valid() && base <= |t.posted|
    && AllTracked(t.Qps(), t.posted[base..], t.batch, t.total, SlotsOf(t), flags)
    && t.numReceived == AcceptedBelow(t.Qps(), t.batch)
  }

  /** The completions of one turn. One can only come for a receive request that is posted. */
  method HandleCompletions(t: RdmaWorkerThread, completions: seq<Completion>, time: int,
                           ghost base: nat, ghost flags: seq<bool>) returns (now: int)
    requires InSlice(t, base, flags) && t.clock <= time
    modifies t`posted, t`accepted, t`clock, t`numReceived
    modifies t.msgIds, t.rkeys, t.imms, t.receives, t.timeouts, t.timeouts.entries
    ensures InSlice(t, base, flags) && t.clock <= now && old(t.posted) <= t.posted
  {
    now := time;
    for i := 0 to |completions|
      invariant InSlice(t, base, flags) && t.clock <= now && old(t.posted) <= t.posted
    {
      var c := completions[i];
      now := now + c.elapsed;
      if c.qpn < t.numQps && t.receives[c.qpn] > 0 {
        HandleOne(t, c, now, base, flags);
      }
    }
  }

  method HandleOne(t: RdmaWorkerThread, c: Completion, now: int, ghost base: nat, ghost flags: seq<bool>)
    requires InSlice(t, base, flags) && t.clock <= now && c.qpn < t.numQps && t.receives[c.qpn] > 0
    modifies t`posted, t`accepted, t`clock, t`numReceived
    modifies t.msgIds, t.rkeys, t.imms, t.receives, t.timeouts, t.timeouts.entries
    ensures InSlice(t, base, flags) && t.clock <= now && old(t.posted) <= t.posted
  {
    ghost var qps, posted := t.Qps(), t.posted;
    assert qps[c.qpn].Valid(c.qpn, t.batch, t.total, t.FirstSlot(c.qpn));
    var ok := t.HandleCompletion(c.qpn, c.shortId, c.result, now);
    if ok {
      assert t.Qps()[c.qpn].Valid(c.qpn, t.batch, t.total, t.FirstSlot(c.qpn));
      AcceptKeepsTrack(qps, t.Qps(), posted, t.posted, base, t.batch, t.total, SlotsOf(t), flags, c.qpn, c.result);
    }
  }

  /** The end of a turn. */
  method Resend(t: RdmaWorkerThread, now: int, ghost base: nat, ghost flags: seq<bool>)
    requires InSlice(t, base, flags) && t.clock <= now
    modifies t`posted, t`clock, t.rkeys, t.imms, t.timeouts, t.timeouts.entries
    ensures InSlice(t, base, flags) && t.clock <= now && old(t.posted) <= t.posted
  {
    ghost var posted := t.posted;
    assert posted + [] == posted;
    var qpn := t.CheckTimeouts(now);
    if qpn >= 0 {
      ResendKeepsTrack(t.Qps(), posted, t.posted, base, t.batch, t.total, SlotsOf(t), flags, qpn);
    }
  }

  /** Everything before the loop: ids from 0, and the first message of each queue pair in use. */
  method StartSlice(t: RdmaWorkerThread, messages: nat, extraBatch: bool, now: int)
    requires Idle(t) && messages > 0 && t.clock <= now
    modifies t.Footprint()
    ensures t.batch == (if t.numQps < messages then t.numQps else messages)
    ensures t.total == messages + if extraBatch then t.batch else 0
    ensures InSlice(t, |old(t.posted)|, FlagsOf(old(t.Qps()))) && t.clock <= now && old(t.posted) <= t.posted
  {
    ghost var base, flags := |t.posted|, FlagsOf(t.Qps());
    t.SetUpSlice(messages, extraBatch);
    ghost var was := t.Qps();
    t.PostFirstBatch(now);
    StartsTracked(was, t.Qps(), t.posted, base, t.batch, t.total, SlotsOf(t), flags);
  }

  /** The number of accepted results reaches that of the messages exactly when every queue pair has all its
      results, and then nothing is outstanding. */
  lemma SliceEnds(t: RdmaWorkerThread, base: nat, flags: seq<bool>)
    requires InSlice(t, base, flags)
    ensures t.numReceived >= t.total <==> HasAllRounds(t.Qps(), t.batch, t.total, t.batch)
    ensures t.numReceived >= t.total ==> Idle(t)
  {
    var qps := t.Qps();
    AllReceived(qps, t.posted[base..], t.batch, t.total, SlotsOf(t), flags);
    if t.numReceived >= t.total {
      forall q: nat | q < t.numQps
        ensures !qps[q].timed && qps[q].receives == 0 && qps[q].rkey / 2 == t.FirstSlot(q)
      {
        assert qps[q].Valid(q, t.batch, t.total, t.FirstSlot(q));
        if q < t.batch {
          var cfg := ConfigFor(q, t.batch, t.total);
          assert Tracked(qps[q], cfg, t.FirstSlot(q), flags[q], t.posted[base..]);
          TrackedIsOutstanding(qps[q], cfg, t.FirstSlot(q), flags[q]);
        }
      }
    }
  }

  /** As long as the loop runs, some message has a running timer, so that it will be posted again unless
      its result comes. */
  lemma SomeTimerRuns(t: RdmaWorkerThread, base: nat, flags: seq<bool>) returns (q: nat)
    requires InSlice(t, base, flags) && t.numReceived < t.total
    ensures q < t.batch && t.Qps()[q].timed && |t.Qps()[q].accepted| < ConfigFor(q, t.batch, t.total).Rounds()
  {
    var qps := t.Qps();
    AllReceived(qps, t.posted[base..], t.batch, t.total, SlotsOf(t), flags);
    q :| q < t.batch && |qps[q].accepted| != ConfigFor(q, t.batch, t.total).Rounds();
    assert qps[q].Valid(q, t.batch, t.total, t.FirstSlot(q));
    var cfg := ConfigFor(q, t.batch, t.total);
    assert Tracked(qps[q], cfg, t.FirstSlot(q), flags[q], t.posted[base..]);
    TrackedIsOutstanding(qps[q], cfg, t.FirstSlot(q), flags[q]);
  }

  /** The loop. The worker leaves it early only if the context stops running, here after the given turns. */
  method TakeTurns(t: RdmaWorkerThread, start: int, turns: seq<Turn>, ghost base: nat, ghost flags: seq<bool>)
    requires InSlice(t, base, flags) && t.clock <= start
    modifies t`posted, t`accepted, t`clock, t`numReceived
    modifies t.msgIds, t.rkeys, t.imms, t.receives, t.timeouts, t.timeouts.entries
    ensures InSlice(t, base, flags) && old(t.posted) <= t.posted
  {
    var now, i := start, 0;
    while t.numReceived < t.total && i < |turns|
      invariant InSlice(t, base, flags) && t.clock <= now && old(t.posted) <= t.posted
      decreases |turns| - i
    {
      now := HandleCompletions(t, turns[i].completions, now, base, flags);
      now := now + turns[i].elapsed;
      Resend(t, now, base, flags);
      i := i + 1;
    }
  }

  /** One job slice. All along, each queue pair posts its messages in order, with alternating set bits, and
      repeats only the last one. The loop has ended by itself exactly if every queue pair has all its
      results, and then the worker is ready for the next slice. */
  method RunJobSlice(t: RdmaWorkerThread, messages: nat, extraBatch: bool, start: int, turns: seq<Turn>)
    returns (done: bool)
    requires Idle(t) && messages > 0 && t.clock <= start
    modifies t.Footprint()
    ensures t.batch == (if t.numQps < messages then t.numQps else messages)
    ensures t.total == messages + if extraBatch then t.batch else 0
    ensures InSlice(t, |old(t.posted)|, FlagsOf(old(t.Qps()))) && old(t.posted) <= t.posted
    ensures done <==> HasAllRounds(t.Qps(), t.batch, t.total, t.batch)
    ensures done ==> Idle(t)
  {
    ghost var base, flags := |t.posted|, FlagsOf(t.Qps());
    StartSlice(t, messages, extraBatch, start);
    TakeTurns(t, start, turns, base, flags);
    done := t.numReceived >= t.total;
    SliceEnds(t, base, flags);
  }
}
