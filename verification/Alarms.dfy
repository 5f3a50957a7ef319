/** What an alarm and a send do to the packets in flight, said of the packets themselves. */
module Alarms {
  import opened PacketLists
  import opened SentPackets

  /** Exactly the packets in flight that pass the test have left, for the back of the queue and in order. */
  ghost predicate Moved(before: Core, after: Core, leaves: Packet -> bool) {
    && |before.queue| <= |after.queue| && after.queue[..|before.queue|] == before.queue
    && Increasing(after.queue[|before.queue|..]) && Increasing(after.history) && after.inFlight == Total(after.history)
    && (forall p :: p in after.queue[|before.queue|..] <==> p in before.history && leaves(p))
    && forall p :: p in after.history <==> p in before.history && !leaves(p)
  }

  /** Nothing else is touched but the counters of the alarm and the announcement. */
  ghost predicate Otherwise(before: Core, after: Core, probes: nat, timeouts: nat, lossTime: bool) {
    after == before.(history := after.history, queue := after.queue, inFlight := after.inFlight, waiting := after.waiting,
                     tlpCount := before.tlpCount + probes, rtoCount := before.rtoCount + timeouts, lossTime := lossTime)
  }

  ghost function Older(h: seq<Packet>, p: Packet): set<Packet> {
    set q | q in h && q.number < p.number
  }

  /** A packet with a frame that counts as outstanding is in flight. */
  ghost predicate SomethingOutstanding(c: Core) {
    exists p :: p in c.history && HasListed(p)
  }

  ghost predicate HasListed(p: Packet) {
    exists f :: f in p.frames && f.Listed?
  }

  /** Sent long enough ago, and not after the largest acknowledged number. */
  ghost function IsOverdue(c: Core, late: nat -> bool): Packet -> bool {
    (p: Packet) => p.number <= c.largestAcked && late(p.number)
  }

  /** The newest packet in flight. */
  ghost function IsNewest(c: Core): Packet -> bool {
    (p: Packet) => forall q :: q in c.history ==> q.number <= p.number
  }

  /** One of the two oldest, or any one when the path is held to have failed. */
  ghost function AfterTimeout(c: Core, failed: bool): Packet -> bool {
    (p: Packet) => failed || |Older(c.history, p)| < 2
  }

  /** What the retransmission alarm does: nothing without an outstanding packet; detected losses leave when a loss
      time is set; the newest packet leaves in the first two probes; after those the two oldest leave, or all. */
  ghost predicate AlarmDoes(before: Core, after: Core, late: nat -> bool, failed: bool) {
    if !SomethingOutstanding(before) then after == before
    else if before.lossTime then
      && Moved(before, after, IsOverdue(before, late))
      && Otherwise(before, after, 0, 0, exists p :: p in before.history && p.number <= before.largestAcked && !late(p.number))
    else
      && |after.queue| > |before.queue|
      && if before.tlpCount < 2 then
          Moved(before, after, IsNewest(before)) && Otherwise(before, after, 1, 0, false)
        else
          Moved(before, after, AfterTimeout(before, failed)) && Otherwise(before, after, 0, 1, false)
  }

  lemma {:induction false} OlderCount(h: seq<Packet>, i: nat)
    requires Increasing(h) && i < |h|
    ensures |Older(h, h[i])| == i
  {
    var older := Older(h, h[i]);
    if i == 0 {
      forall q | q in older ensures false { OlderIndex(h, 0, q); }
      assert older == {};
    } else {
      OlderCount(h, i - 1);
      var before := Older(h, h[i - 1]);
      assert Less(h, i - 1, i);
      forall q ensures q in older <==> q in before + {h[i - 1]} {
        if q in older { OlderIndex(h, i, q); }
      }
      assert older == before + {h[i - 1]};
    }
  }

  lemma OlderIndex(h: seq<Packet>, i: nat, q: Packet)
    requires Increasing(h) && i < |h| && q in h && q.number < h[i].number
    ensures exists j :: 0 <= j < i && h[j] == q
    ensures i > 0 && (q == h[i - 1] || q.number < h[i - 1].number)
  {
    var j :| 0 <= j < |h| && h[j] == q;
    assert i < j ==> Less(h, i, j);
    assert j < i - 1 ==> Less(h, j, i - 1);
  }

  /** The first two packets in flight are those with fewer than two older ones. */
  lemma OldestTwo(c: Core, p: Packet)
    requires c.Ok() && p in c.history
    ensures c.Oldest(2)(p) <==> |Older(c.history, p)| < 2
  {
    var h := c.history;
    var i :| 0 <= i < |h| && h[i] == p;
    OlderCount(h, i);
    var m := if 2 <= |h| then 2 else |h|;
    assert i < m ==> h[..m][i] == p;
    if p in h[..m] {
      var j :| 0 <= j < m && h[j] == p;
      OlderCount(h, j);
    }
  }

  lemma NewestIsLast(c: Core, p: Packet)
    requires c.Ok() && p in c.history
    ensures p.number == c.history[|c.history| - 1].number <==> IsNewest(c)(p)
  {
    var h := c.history;
    forall q | q in h
      ensures q.number <= h[|h| - 1].number
    {
      var j :| 0 <= j < |h| && h[j] == q;
      if j < |h| - 1 { assert Less(h, j, |h| - 1); }
    }
  }

  lemma QueuedMoves(c: Core, t: Packet -> bool, leaves: Packet -> bool)
    requires c.Ok() && forall p :: p in c.history ==> (t(p) <==> leaves(p))
    ensures Moved(c, c.Queued(t), leaves)
  {
    var gone, after := Taken(c.history, t), c.Queued(t);
    assert after.queue[|c.queue|..] == gone;
    TakenIncreasing(c.history, t);
    TakenIncreasing(c.history, Not(t));
    TakenTotal(c.history, t);
    forall p ensures (p in gone <==> p in c.history && leaves(p)) && (p in after.history <==> p in c.history && !leaves(p)) {
      TakenIn(c.history, t, p);
      RestIn(c.history, t, p);
    }
  }

  lemma OutstandingIff(c: Core)
    ensures c.Outstanding() <==> SomethingOutstanding(c)
  {
    forall p ensures IsRetransmittable(p) <==> HasListed(p) {
      if i :| 0 <= i < |p.frames| && p.frames[i].Listed? { assert p.frames[i] in p.frames; }
    }
  }

  lemma SomethingMoved(before: Core, after: Core, leaves: Packet -> bool, p: Packet)
    requires Moved(before, after, leaves) && p in before.history && leaves(p)
    ensures |after.queue| > |before.queue|
  {
    assert p in after.queue[|before.queue|..];
  }

  lemma LossDoes(c: Core, late: nat -> bool)
    requires c.Ok()
    ensures var after := c.LossDetected(late);
      && Moved(c, after, IsOverdue(c, late))
      && Otherwise(c, after, 0, 0, exists p :: p in c.history && p.number <= c.largestAcked && !late(p.number))
  {
    var waits := SomeWait(c.history, c.largestAcked, late);
    if p :| p in c.history && p.number <= c.largestAcked && !late(p.number) {
      var i :| 0 <= i < |c.history| && c.history[i] == p;
    }
    QueuedMoves(c.(lossTime := waits), c.Lost(late), IsOverdue(c, late));
  }

  lemma ProbeDoes(c: Core)
    requires c.Ok() && c.history != [] && !c.lossTime
    ensures var after := c.Probed();
      |after.queue| > |c.queue| && Moved(c, after, IsNewest(c)) && Otherwise(c, after, 1, 0, false)
  {
    var h := c.history;
    var last := h[|h| - 1];
    forall p | p in h ensures ByNumber(last.number)(p) <==> IsNewest(c)(p) { NewestIsLast(c, p); }
    QueuedMoves(c, ByNumber(last.number), IsNewest(c));
    assert last in h;
    SomethingMoved(c, c.Queued(ByNumber(last.number)), IsNewest(c), last);
  }

  lemma TimeoutDoes(c: Core, failed: bool)
    requires c.Ok() && c.history != [] && !c.lossTime
    ensures var after := c.TimedOut(failed);
      |after.queue| > |c.queue| && Moved(c, after, AfterTimeout(c, failed)) && Otherwise(c, after, 0, 1, false)
  {
    var h, t := c.history, if failed then Everything else c.Oldest(2);
    forall p | p in h ensures t(p) <==> AfterTimeout(c, failed)(p) { OldestTwo(c, p); }
    QueuedMoves(c, t, AfterTimeout(c, failed));
    OlderCount(h, 0);
    assert h[0] in h;
    SomethingMoved(c, c.Queued(t), AfterTimeout(c, failed), h[0]);
  }

  /** Every alarm does that. */
  lemma AlarmMoves(c: Core, late: nat -> bool, failed: bool)
    requires c.Ok()
    ensures AlarmDoes(c, c.Alarmed(late, failed), late, failed)
  {
    OutstandingIff(c);
    if c.Outstanding() {
      if c.lossTime { LossDoes(c, late); } else if c.tlpCount < 2 { ProbeDoes(c); } else { TimeoutDoes(c, failed); }
    }
  }

  // ---------- sending ----------

  ghost predicate Tracked(f: Frame) {
    f != StopWaiting && f != Frame.Ack
  }

  lemma {:induction false} StrippedKeeps(fs: seq<Frame>, f: Frame)
    ensures multiset(Stripped(fs))[f] == if Tracked(f) then multiset(fs)[f] else 0
  {
    if fs != [] {
      var k := |fs| - 1;
      StrippedKeeps(fs[..k], f);
      assert fs == fs[..k] + [fs[k]];
      assert multiset(fs) == multiset(fs[..k]) + multiset{fs[k]};
    }
  }

  ghost function Between(a: nat, b: nat): (r: seq<nat>)
    ensures |r| == (if a < b then b - a else 0) && forall i :: 0 <= i < |r| ==> r[i] == a + i
  {
    seq(if a < b then b - a else 0, i requires 0 <= i => a + i)
  }

  ghost function LastTen(ns: seq<nat>): seq<nat> {
    if |ns| <= 10 then ns else ns[|ns| - 10..]
  }

  lemma {:induction false} LastTenOf(x: nat, ns: seq<nat>)
    requires |ns| >= 10
    ensures LastTen([x] + ns) == LastTen(ns)
  {
    var all := [x] + ns;
    assert all[|all| - 10..] == ns[|ns| - 10..];
  }

  lemma {:induction false} BetweenSplits(skipped: seq<nat>, a: nat, b: nat)
    requires a < b
    ensures skipped + Between(a, b) == (skipped + [a]) + Between(a + 1, b)
  {
    assert Between(a, b) == [a] + Between(a + 1, b);
  }

  lemma {:induction false} SkipsLastTen(skipped: seq<nat>, a: nat, b: nat)
    requires |skipped| <= 10
    ensures SkipAll(skipped, a, b) == LastTen(skipped + Between(a, b))
    decreases b - a
  {
    if a >= b {
      assert skipped + Between(a, b) == skipped;
    } else {
      var s := skipped + [a];
      BetweenSplits(skipped, a, b);
      if |s| > 10 {
        SkipsLastTen(s[1..], a + 1, b);
        assert s + Between(a + 1, b) == [s[0]] + (s[1..] + Between(a + 1, b));
        LastTenOf(s[0], s[1..] + Between(a + 1, b));
      } else {
        SkipsLastTen(s, a + 1, b);
      }
    }
  }

  /** What a send does: refused for a number that does not grow or with 5000 packets tracked.  Otherwise the numbers
      passed over are remembered, the last ten of them, and the packet is in flight, without its acknowledgement and
      stop-waiting frames, exactly when another frame is left. */
  ghost predicate SendDoes(before: Core, p: Packet, after: Core, r: SendResult) {
    && (r.NotIncreasing? <==> p.number <= before.lastSent)
    && (r.TooManyTracked? <==> p.number > before.lastSent && |before.queue| + |before.history| >= 5000)
    && (!r.SendOk? ==> after == before)
    && (r.SendOk? ==>
      && after == before.(lastSent := p.number, skipped := LastTen(before.skipped + Between(before.lastSent + 1, p.number)),
                          history := after.history, inFlight := after.inFlight)
      && if forall f :: f in p.frames ==> !Tracked(f) then after.history == before.history && after.inFlight == before.inFlight
         else
          && |after.history| == |before.history| + 1 && after.history[..|before.history|] == before.history
          && after.inFlight == before.inFlight + p.length
          && var kept := after.history[|before.history|];
             kept == p.(frames := kept.frames) && forall f :: multiset(kept.frames)[f] == if Tracked(f) then multiset(p.frames)[f] else 0)
  }

  lemma NothingTracked(fs: seq<Frame>)
    ensures Stripped(fs) == [] <==> forall f :: f in fs ==> !Tracked(f)
  {
    forall f | f in fs && Tracked(f) ensures f in Stripped(fs) { StrippedKeeps(fs, f); }
    if Stripped(fs) != [] {
      StrippedKeeps(fs, Stripped(fs)[0]);
      assert Stripped(fs)[0] in Stripped(fs);
    }
  }

  /** Every send does that. */
  lemma SendTracks(c: Core, p: Packet)
    requires c.Ok()
    ensures SendDoes(c, p, c.Send(p).0, c.Send(p).1)
  {
    NothingTracked(p.frames);
    SkipsLastTen(c.skipped, c.lastSent + 1, p.number);
    forall f ensures multiset(Stripped(p.frames))[f] == if Tracked(f) then multiset(p.frames)[f] else 0 { StrippedKeeps(p.frames, f); }
  }

  /** Skipped numbers in rising order. */
  ghost predicate Rises(ns: seq<nat>) {
    forall i, j :: 0 <= i < j < |ns| ==> ns[i] < ns[j]
  }

  /** Exactly the skipped numbers above the largest one acknowledged in order stay remembered. */
  lemma {:induction false} CollectKeeps(ns: seq<nat>, n: int, x: nat)
    requires Rises(ns)
    ensures x in SkippedAfter(ns, n) <==> x in ns && x > n
  {
    if ns != [] {
      var k := |ns| - 1;
      CollectKeeps(ns[..k], n, x);
      assert ns == ns[..k] + [ns[k]];
      if ns[k] <= n && x in ns {
        var i :| 0 <= i < |ns| && ns[i] == x;
        assert x <= ns[k];
      }
    }
  }
}
