/** The sent-packet handler with its fields and loops, each method tied to the functions on values. */
module SentHandler {
  import opened ReceivedPackets
  import opened PacketLists
  import opened AckFrames
  import opened SentPackets
  import opened Alarms

  class StopWaitingManager {
    var largestLeastUnackedSent: nat
    var nextLeastUnacked: nat
    var lastStopWaitingFrame: Option<nat>

    function Value(): Waiting reads this {
      Waiting(largestLeastUnackedSent, nextLeastUnacked, lastStopWaitingFrame)
    }

    constructor ()
      ensures Value() == Waiting(0, 0, None)
    {
      largestLeastUnackedSent, nextLeastUnacked, lastStopWaitingFrame := 0, 0, None;
    }

    method GetStopWaitingFrame(force: bool) returns (frame: Option<nat>)
      modifies this
      ensures (Value(), frame) == old(Value()).Get(force)
    {
      if nextLeastUnacked <= largestLeastUnackedSent {
        if force {
          if lastStopWaitingFrame.None? && largestLeastUnackedSent > 0 {
            lastStopWaitingFrame := Some(nextLeastUnacked);
          }
          return lastStopWaitingFrame;
        }
        return None;
      }
      largestLeastUnackedSent := nextLeastUnacked;
      lastStopWaitingFrame := Some(nextLeastUnacked);
      return lastStopWaitingFrame;
    }

    method ReceivedAck(largest: nat)
      modifies this
      ensures Value() == old(Value()).Past(largest)
    {
      if largest >= nextLeastUnacked { nextLeastUnacked := largest + 1; }
    }

    method QueuedRetransmissionForPacketNumber(p: nat)
      modifies this
      ensures Value() == old(Value()).Past(p)
    {
      if p >= nextLeastUnacked { nextLeastUnacked := p + 1; }
    }
  }

  method StripNonRetransmittableFrames(fs: seq<Frame>) returns (res: seq<Frame>)
    ensures res == Stripped(fs)
  {
    res := [];
    for i := 0 to |fs|
      invariant res == Stripped(fs[..i])
    {
      assert fs[..i + 1][..i] == fs[..i];
      if fs[i] != StopWaiting && fs[i] != Frame.Ack { res := res + [fs[i]]; }
    }
    assert fs[..|fs|] == fs;
  }

  // ---------- which packets an acknowledgement frame names ----------

  /** Above every lower interval and not above this one, a number is covered iff this interval holds it. */
  lemma CoversAt(r: seq<Interval>, k: nat, x: nat)
    requires Falling(r) && k < |r| && x <= r[k].end
    requires k + 1 < |r| ==> r[k + 1].end < x
    ensures Covers(r, x) <==> r[k].start <= x
  {
    forall i | k < i < |r| ensures r[i].end < x { assert i == k + 1 || r[i].end < r[k + 1].start <= r[k + 1].end; }
    forall i | 0 <= i < k ensures x < r[i].start { assert r[k].end < r[i].start; }
  }

  /** Moves on to the first interval, from below, that does not end before `n`. */
  method AdvanceRange(r: seq<Interval>, k0: nat, n: nat) returns (k: nat)
    requires Falling(r) && k0 < |r| && n <= r[0].end
    requires k0 + 1 < |r| ==> r[k0 + 1].end < n
    ensures k < |r| && (k + 1 < |r| ==> r[k + 1].end < n)
    ensures Covers(r, n) <==> r[k].start <= n
  {
    k := k0;
    while n > r[k].end && k > 0
      invariant k < |r| && (k + 1 < |r| ==> r[k + 1].end < n)
    {
      k := k - 1;
    }
    assert n <= r[k].end;
    CoversAt(r, k, n);
  }

  /** Interval `k`, counted from the top, is the one to look at for numbers from `n` on. */
  ghost predicate At(r: seq<Interval>, k: nat, n: nat) {
    r == [] || (k < |r| && (k + 1 < |r| ==> r[k + 1].end < n))
  }

  /** Whether the frame acknowledges a number between its lowest and its largest. */
  method NamesPacket(a: AckFrame, k0: nat, n: nat) returns (b: bool, k: nat)
    requires ValidRanges(a) && At(a.ranges, k0, n) && a.lowest <= n <= a.largest
    ensures (b <==> Acks(a, n)) && At(a.ranges, k, n)
  {
    if a.ranges == [] { return true, k0; }
    k := AdvanceRange(a.ranges, k0, n);
    b := n >= a.ranges[k].start;
  }

  /** Walks packets upwards and intervals from the lowest, each once. */
  method DetermineNewlyAckedPackets(h: seq<Packet>, a: AckFrame) returns (acked: seq<Packet>)
    requires Increasing(h) && ValidRanges(a)
    ensures acked == Taken(h, AckedBy(a))
  {
    acked := [];
    ghost var t := AckedBy(a);
    var k: nat := if |a.ranges| > 0 then |a.ranges| - 1 else 0;
    var i: nat := 0;
    while i < |h|
      invariant i <= |h| && acked == Taken(h[..i], t)
      invariant forall n :: (i > 0 ==> h[i - 1].number <= n) ==> At(a.ranges, k, n)
    {
      var n := h[i].number;
      assert i > 0 ==> Less(h, i - 1, i);
      NextTaken(h, i, t);
      if n > a.largest {
        forall j | i <= j < |h| ensures !t(h[j]) { assert i == j || Less(h, i, j); }
        NoneBeyond(h, i, t);
        return;
      }
      if n >= a.lowest {
        var b;
        b, k := NamesPacket(a, k, n);
        if b { acked := acked + [h[i]]; }
      }
      i := i + 1;
    }
    assert h[..|h|] == h;
  }

  lemma {:induction false} NextTaken(h: seq<Packet>, i: nat, t: Packet -> bool)
    requires i < |h|
    ensures Taken(h[..i + 1], t) == if t(h[i]) then Taken(h[..i], t) + [h[i]] else Taken(h[..i], t)
  {
    assert h[..i + 1] == h[..i] + [h[i]];
    TakenSnoc(h[..i], h[i], t);
  }

  /** Nothing is taken from a tail that fails the test. */
  lemma {:induction false} NoneBeyond(h: seq<Packet>, i: nat, t: Packet -> bool)
    requires i <= |h| && forall j :: i <= j < |h| ==> !t(h[j])
    ensures Taken(h, t) == Taken(h[..i], t)
  {
    if i == |h| {
      assert h[..i] == h;
    } else {
      NoneBeyond(h[..|h| - 1], i, t);
      assert h[..|h| - 1][..i] == h[..i];
    }
  }

  // ---------- taking listed packets out one by one ----------

  /** After the first `k` of the packets to go, taking out the next one. */
  lemma NextOut(h: seq<Packet>, t: Packet -> bool, gone: seq<Packet>, k: nat)
    requires Increasing(h) && gone == Taken(h, t) && k < |gone|
    ensures gone[k] in Rest(h, Among(gone[..k]))
    ensures Rest(Rest(h, Among(gone[..k])), ByNumber(gone[k].number)) == Rest(h, Among(gone[..k + 1]))
    ensures Increasing(Rest(h, Among(gone[..k])))
  {
    var p := gone[k];
    TakenIncreasing(h, t);
    PrefixIncreasing(gone, k);
    TakenIn(h, t, p);
    RestIn(h, Among(gone[..k]), p);
    TakenIncreasing(h, Not(Among(gone[..k])));
    forall q | q in h ensures q in gone[..k + 1] <==> q in gone[..k] || q.number == p.number {
      if q.number == p.number { SameNumber(h, p, q); }
      assert gone[..k + 1] == gone[..k] + [p];
    }
    TakenTwice(h, Not(Among(gone[..k])), Not(ByNumber(p.number)), Not(Among(gone[..k + 1])));
  }

  lemma AllOut(h: seq<Packet>, t: Packet -> bool)
    ensures Rest(h, Among([])) == h
    ensures Rest(h, Among(Taken(h, t))) == Rest(h, t)
  {
    TakenAll(h, Not(Among([])));
    forall q | q in h ensures q in Taken(h, t) <==> t(q) { TakenIn(h, t, q); }
    TakenSame(h, Not(Among(Taken(h, t))), Not(t));
  }

  lemma {:induction false} TotalPrefix(ps: seq<Packet>, k: nat)
    requires k <= |ps|
    ensures Total(ps[..k]) <= Total(ps)
    ensures k < |ps| ==> Total(ps[..k + 1]) == Total(ps[..k]) + ps[k].length
    decreases |ps| - k
  {
    if k < |ps| {
      TotalPrefix(ps, k + 1);
      assert ps[..k + 1][..k] == ps[..k];
    } else {
      assert ps[..k] == ps;
    }
  }

  /** The packets up to `n` that were sent too long ago, and whether another one up to `n` is still waiting. */
  method CollectLost(h: seq<Packet>, n: nat, late: nat -> bool, ghost t: Packet -> bool) returns (lost: seq<Packet>, waiting: bool)
    requires Increasing(h) && forall p :: t(p) <==> p.number <= n && late(p.number)
    ensures lost == Taken(h, t) && (waiting <==> SomeWait(h, n, late))
  {
    lost, waiting := [], false;
    for i := 0 to |h|
      invariant lost == Taken(h[..i], t)
      invariant waiting <==> exists j :: 0 <= j < i && h[j].number <= n && !late(h[j].number)
    {
      if h[i].number > n {
        forall j | i <= j < |h| ensures h[j].number > n { assert i == j || Less(h, i, j); }
        NoneBeyond(h, i, t);
        return;
      }
      assert h[..i + 1] == h[..i] + [h[i]];
      TakenSnoc(h[..i], h[i], t);
      if late(h[i].number) { lost := lost + [h[i]]; } else { waiting := true; }
    }
    assert h[..|h|] == h;
  }

  method CollectUpTo(h: seq<Packet>, n: nat) returns (lost: seq<Packet>)
    requires Increasing(h)
    ensures lost == Taken(h, UpTo(n))
  {
    lost := [];
    for i := 0 to |h|
      invariant lost == Taken(h[..i], UpTo(n))
    {
      if h[i].number > n {
        forall j | i <= j < |h| ensures h[j].number > n { assert i == j || Less(h, i, j); }
        NoneBeyond(h, i, UpTo(n));
        return;
      }
      assert h[..i + 1] == h[..i] + [h[i]];
      TakenSnoc(h[..i], h[i], UpTo(n));
      lost := lost + [h[i]];
    }
    assert h[..|h|] == h;
  }

  /** One more packet behind the queue, and the announcement moved past it. */
  lemma {:induction false} NextQueued(queue: seq<Packet>, lost: seq<Packet>, k: nat, w: Waiting)
    requires k < |lost|
    ensures queue + lost[..k] + [lost[k]] == queue + lost[..k + 1]
    ensures w.PastAll(lost[..k]).Past(lost[k].number) == w.PastAll(lost[..k + 1])
  {
    assert lost[..k + 1] == lost[..k] + [lost[k]] && lost[..k + 1][..k] == lost[..k];
  }

  /** The first `k` packets of those to go are out: `now` is what is left and `bytes` its size. */
  ghost predicate Out(h: seq<Packet>, t: Packet -> bool, gone: seq<Packet>, k: nat, now: seq<Packet>, bytes: nat) {
    && Increasing(h) && gone == Taken(h, t) && k <= |gone|
    && now == Rest(h, Among(gone[..k])) && bytes + Total(gone[..k]) == Total(h)
  }

  lemma OutStart(h: seq<Packet>, t: Packet -> bool)
    requires Increasing(h)
    ensures Out(h, t, Taken(h, t), 0, h, Total(h))
  {
    AllOut(h, t);
  }

  lemma OutNext(h: seq<Packet>, t: Packet -> bool, gone: seq<Packet>, k: nat, now: seq<Packet>, bytes: nat)
    requires Out(h, t, gone, k, now, bytes) && k < |gone|
    ensures Increasing(now) && gone[k] in now && gone[k].length <= bytes
    ensures Out(h, t, gone, k + 1, Rest(now, ByNumber(gone[k].number)), bytes - gone[k].length)
  {
    NextOut(h, t, gone, k);
    TotalPrefix(gone, k);
    TotalPrefix(gone, k + 1);
    TakenTotal(h, t);
  }

  lemma OutEnd(h: seq<Packet>, t: Packet -> bool, gone: seq<Packet>, now: seq<Packet>, bytes: nat)
    requires Out(h, t, gone, |gone|, now, bytes)
    ensures now == Rest(h, t) && bytes + Total(gone) == Total(h)
  {
    assert gone[..|gone|] == gone;
    AllOut(h, t);
  }

  class SentPacketHandler {
    const stopWaitingManager: StopWaitingManager
    var lastSentPacketNumber: nat
    var skippedPackets: seq<nat>
    var largestAcked: nat
    var largestReceivedPacketWithAck: nat
    var packetHistory: seq<Packet>
    var retransmissionQueue: seq<Packet>
    var bytesInFlight: nat
    var tlpCount: nat
    var rtoCount: nat
    var lossTimeSet: bool

    ghost function Value(): Core reads this, stopWaitingManager {
      Core(lastSentPacketNumber, skippedPackets, largestAcked, largestReceivedPacketWithAck,
           packetHistory, retransmissionQueue, bytesInFlight, tlpCount, rtoCount, lossTimeSet, stopWaitingManager.Value())
    }

    ghost predicate Valid() reads this, stopWaitingManager { Value().Ok() }

    constructor ()
      ensures Valid() && fresh(stopWaitingManager)
      ensures Value() == Core(0, [], 0, 0, [], [], 0, 0, 0, false, Waiting(0, 0, None))
    {
      stopWaitingManager := new StopWaitingManager();
      lastSentPacketNumber, skippedPackets, largestAcked, largestReceivedPacketWithAck := 0, [], 0, 0;
      packetHistory, retransmissionQueue, bytesInFlight := [], [], 0;
      tlpCount, rtoCount, lossTimeSet := 0, 0, false;
    }

    method SkipPackets(n: nat)
      modifies this`skippedPackets
      ensures skippedPackets == SkipAll(old(skippedPackets), lastSentPacketNumber + 1, n)
    {
      var p := lastSentPacketNumber + 1;
      while p < n
        invariant SkipAll(skippedPackets, p, n) == SkipAll(old(skippedPackets), lastSentPacketNumber + 1, n)
        decreases n - p
      {
        skippedPackets := skippedPackets + [p];
        if |skippedPackets| > MaxTrackedSkippedPackets { skippedPackets := skippedPackets[1..]; }
        p := p + 1;
      }
    }

    method SentPacket(packet: Packet) returns (r: SendResult)
      requires Valid()
      modifies this
      ensures Valid() && (Value(), r) == old(Value()).Send(packet)
    {
      SendKeepsOk(Value(), packet);
      if packet.number <= lastSentPacketNumber { return NotIncreasing; }
      if |retransmissionQueue| + |packetHistory| + 1 > MaxTrackedSentPackets { return TooManyTracked; }
      SkipPackets(packet.number);
      lastSentPacketNumber := packet.number;
      var frames := StripNonRetransmittableFrames(packet.frames);
      if frames != [] {
        bytesInFlight := bytesInFlight + packet.length;
        packetHistory := packetHistory + [packet.(frames := frames)];
      }
      return SendOk;
    }

    /** Unlinks one element. */
    method Remove(p: Packet)
      requires Increasing(packetHistory) && p in packetHistory
      modifies this`packetHistory
      ensures packetHistory == Rest(old(packetHistory), ByNumber(p.number))
    {
      var i :| 0 <= i < |packetHistory| && packetHistory[i] == p;
      RemoveAt(packetHistory, i);
      packetHistory := packetHistory[..i] + packetHistory[i + 1..];
    }

    method OnPacketAcked(p: Packet)
      requires Increasing(packetHistory) && p in packetHistory && p.length <= bytesInFlight
      modifies this`packetHistory, this`bytesInFlight, this`rtoCount, this`tlpCount
      ensures packetHistory == Rest(old(packetHistory), ByNumber(p.number))
      ensures bytesInFlight == old(bytesInFlight) - p.length && rtoCount == 0 && tlpCount == 0
    {
      bytesInFlight := bytesInFlight - p.length;
      rtoCount, tlpCount := 0, 0;
      Remove(p);
    }

    method RemoveAcked(acked: seq<Packet>, ghost t: Packet -> bool)
      requires Out(packetHistory, t, acked, 0, packetHistory, bytesInFlight)
      modifies this`packetHistory, this`bytesInFlight, this`rtoCount, this`tlpCount
      ensures Out(old(packetHistory), t, acked, |acked|, packetHistory, bytesInFlight)
      ensures (rtoCount, tlpCount) == if acked == [] then (old(rtoCount), old(tlpCount)) else (0, 0)
    {
      for k := 0 to |acked|
        invariant Out(old(packetHistory), t, acked, k, packetHistory, bytesInFlight)
        invariant (rtoCount, tlpCount) == if k == 0 then (old(rtoCount), old(tlpCount)) else (0, 0)
      {
        OutNext(old(packetHistory), t, acked, k, packetHistory, bytesInFlight);
        OnPacketAcked(acked[k]);
      }
    }

    method AcknowledgeAll(acked: seq<Packet>, ghost t: Packet -> bool)
      requires Valid() && acked == Taken(packetHistory, t)
      modifies this`packetHistory, this`bytesInFlight, this`rtoCount, this`tlpCount
      ensures Valid() && Value() == old(Value()).Acknowledged(t)
    {
      OutStart(packetHistory, t);
      AcknowledgedOk(Value(), t);
      RemoveAcked(acked, t);
      OutEnd(old(packetHistory), t, acked, packetHistory, bytesInFlight);
    }

    method QueuePacketForRetransmission(p: Packet)
      requires Increasing(packetHistory) && p in packetHistory && p.length <= bytesInFlight
      modifies this`packetHistory, this`bytesInFlight, this`retransmissionQueue, stopWaitingManager
      ensures packetHistory == Rest(old(packetHistory), ByNumber(p.number))
      ensures bytesInFlight == old(bytesInFlight) - p.length && retransmissionQueue == old(retransmissionQueue) + [p]
      ensures stopWaitingManager.Value() == old(stopWaitingManager.Value()).Past(p.number)
    {
      bytesInFlight := bytesInFlight - p.length;
      retransmissionQueue := retransmissionQueue + [p];
      Remove(p);
      stopWaitingManager.QueuedRetransmissionForPacketNumber(p.number);
    }

    method RemoveLost(lost: seq<Packet>, ghost t: Packet -> bool)
      requires Out(packetHistory, t, lost, 0, packetHistory, bytesInFlight)
      modifies this`packetHistory, this`bytesInFlight, this`retransmissionQueue, stopWaitingManager
      ensures Out(old(packetHistory), t, lost, |lost|, packetHistory, bytesInFlight)
      ensures retransmissionQueue == old(retransmissionQueue) + lost
      ensures stopWaitingManager.Value() == old(stopWaitingManager.Value()).PastAll(lost)
    {
      for k := 0 to |lost|
        invariant Out(old(packetHistory), t, lost, k, packetHistory, bytesInFlight)
        invariant retransmissionQueue == old(retransmissionQueue) + lost[..k]
        invariant stopWaitingManager.Value() == old(stopWaitingManager.Value()).PastAll(lost[..k])
      {
        OutNext(old(packetHistory), t, lost, k, packetHistory, bytesInFlight);
        NextQueued(old(retransmissionQueue), lost, k, old(stopWaitingManager.Value()));
        QueuePacketForRetransmission(lost[k]);
      }
      assert lost[..|lost|] == lost;
    }

    method QueueAll(lost: seq<Packet>, ghost t: Packet -> bool)
      requires Valid() && lost == Taken(packetHistory, t)
      modifies this`packetHistory, this`bytesInFlight, this`retransmissionQueue, stopWaitingManager
      ensures Valid() && Value() == old(Value()).Queued(t)
    {
      OutStart(packetHistory, t);
      QueuedOk(Value(), t);
      RemoveLost(lost, t);
      OutEnd(old(packetHistory), t, lost, packetHistory, bytesInFlight);
    }

    method DetectLostPackets(late: nat -> bool)
      requires Valid()
      modifies this, stopWaitingManager
      ensures Valid() && Value() == old(Value()).LossDetected(late)
    {
      ghost var t := Value().Lost(late);
      var lost, waiting := CollectLost(packetHistory, largestAcked, late, t);
      lossTimeSet := waiting;
      QueueAll(lost, t);
    }

    method SetInflightAsLost()
      requires Valid()
      modifies this, stopWaitingManager
      ensures Valid() && Value() == old(Value()).InflightLost()
    {
      var lost := CollectUpTo(packetHistory, largestAcked);
      QueueAll(lost, UpTo(largestAcked));
    }

    method SkippedPacketsAcked(a: AckFrame) returns (b: bool)
      ensures b <==> Value().AcksSkipped(a)
    {
      for i := 0 to |skippedPackets|
        invariant forall j :: 0 <= j < i ==> !Acks(a, skippedPackets[j])
      {
        var acks := AcksPacket(a, skippedPackets[i]);
        if acks { return true; }
      }
      return false;
    }

    method GarbageCollectSkippedPackets()
      modifies this`skippedPackets
      ensures Value() == old(Value()).Collected()
    {
      var lioa := if packetHistory != [] then packetHistory[0].number - 1 else largestAcked;
      var deleteIndex := 0;
      var sk := skippedPackets;
      for i := 0 to |sk|
        invariant 0 <= deleteIndex <= i && skippedPackets == sk
        invariant SkippedAfter(sk[..i], lioa) == sk[deleteIndex..i]
      {
        assert sk[..i + 1][..i] == sk[..i];
        if sk[i] <= lioa { deleteIndex := i + 1; }
      }
      assert sk[..|sk|] == sk;
      skippedPackets := sk[deleteIndex..];
    }

    method ReceivedAck(a: AckFrame, withPacketNumber: nat, late: nat -> bool) returns (r: AckResult)
      requires Valid() && ValidRanges(a)
      modifies this, stopWaitingManager
      ensures Valid() && (Value(), r) == old(Value()).Ack(a, withPacketNumber, late)
    {
      AckKeepsOk(Value(), a, withPacketNumber, late);
      if a.largest > lastSentPacketNumber { return AckUnsent; }
      if withPacketNumber <= largestReceivedPacketWithAck { return AckDuplicate; }
      largestReceivedPacketWithAck := withPacketNumber;
      var lioa := if packetHistory != [] then packetHistory[0].number - 1 else largestAcked;
      if a.largest <= lioa { return AckOk; }
      largestAcked := a.largest;
      var skippedAcked := SkippedPacketsAcked(a);
      if skippedAcked { return AckSkipped; }
      ApplyAck(a, late);
      return AckOk;
    }

    method ApplyAck(a: AckFrame, late: nat -> bool)
      requires Valid() && ValidRanges(a)
      modifies this, stopWaitingManager
      ensures Value() == old(Value()).AckApplied(a, late)
    {
      var acked := DetermineNewlyAckedPackets(packetHistory, a);
      AcknowledgeAll(acked, AckedBy(a));
      DetectLostPackets(late);
      GarbageCollectSkippedPackets();
      stopWaitingManager.ReceivedAck(a.largest);
    }

    method ReceivedClosePath(a: AckFrame, withPacketNumber: nat) returns (r: AckResult)
      requires Valid() && ValidRanges(a)
      modifies this, stopWaitingManager
      ensures Valid() && (Value(), r) == old(Value()).ClosePath(a, withPacketNumber)
    {
      CloseKeepsOk(Value(), a, withPacketNumber);
      if a.largest > lastSentPacketNumber { return AckUnsent; }
      if withPacketNumber <= largestReceivedPacketWithAck { return AckDuplicate; }
      largestReceivedPacketWithAck := withPacketNumber;
      var skippedAcked := SkippedPacketsAcked(a);
      if skippedAcked { return AckSkipped; }
      var acked := DetermineNewlyAckedPackets(packetHistory, a);
      AcknowledgeAll(acked, AckedBy(a));
      SetInflightAsLost();
      GarbageCollectSkippedPackets();
      return AckOk;
    }

    method HasOutstandingRetransmittablePacket() returns (b: bool)
      ensures b <==> Value().Outstanding()
    {
      for i := 0 to |packetHistory|
        invariant forall j :: 0 <= j < i ==> !IsRetransmittable(packetHistory[j])
      {
        var p := packetHistory[i];
        for k := 0 to |p.frames|
          invariant forall l :: 0 <= l < k ==> !p.frames[l].Listed?
        {
          if p.frames[k].Listed? {
            assert IsRetransmittable(p) && p in packetHistory;
            return true;
          }
        }
      }
      return false;
    }

    /** Queues the packets at the front, at most `n` of them. */
    method RetransmitOldest(n: nat)
      requires Valid()
      modifies this, stopWaitingManager
      ensures Valid() && Value() == old(Value()).Queued(old(Value()).Oldest(n))
    {
      ghost var c := Value();
      var m := if n <= |packetHistory| then n else |packetHistory|;
      OldestTaken(c, n);
      QueueAll(packetHistory[..m], c.Oldest(n));
    }

    method OnAlarm(late: nat -> bool, potentiallyFailed: bool)
      requires Valid()
      modifies this, stopWaitingManager
      ensures Valid() && Value() == old(Value()).Alarmed(late, potentiallyFailed)
      ensures AlarmDoes(old(Value()), Value(), late, potentiallyFailed)
    {
      AlarmMoves(Value(), late, potentiallyFailed);
      var outstanding := HasOutstandingRetransmittablePacket();
      if !outstanding { return; }
      if lossTimeSet {
        DetectLostPackets(late);
      } else if tlpCount < MaxTailLossProbes {
        RetransmitTlp();
      } else {
        RetransmitAfterTimeout(potentiallyFailed);
      }
    }

    method RetransmitTlp()
      requires Valid()
      modifies this, stopWaitingManager
      ensures Valid() && Value() == old(Value()).Probed()
    {
      if |packetHistory| > 0 { QueueNewest(); }
      tlpCount := tlpCount + 1;
    }

    method QueueNewest()
      requires Valid() && packetHistory != []
      modifies this`packetHistory, this`bytesInFlight, this`retransmissionQueue, stopWaitingManager
      ensures Valid() && Value() == old(Value()).Queued(ByNumber(old(packetHistory)[|old(packetHistory)| - 1].number))
    {
      var p := packetHistory[|packetHistory| - 1];
      LastTaken(packetHistory);
      QueueAll([p], ByNumber(p.number));
    }

    method RetransmitAfterTimeout(potentiallyFailed: bool)
      requires Valid()
      modifies this, stopWaitingManager
      ensures Valid() && Value() == old(Value()).TimedOut(potentiallyFailed)
    {
      if potentiallyFailed { RetransmitAll(); } else { RetransmitOldest(2); }
      rtoCount := rtoCount + 1;
    }

    method RetransmitAll()
      requires Valid()
      modifies this, stopWaitingManager
      ensures Valid() && Value() == old(Value()).Queued(Everything)
    {
      TakenAll(packetHistory, Everything);
      QueueAll(packetHistory, Everything);
    }

    method DequeuePacketForRetransmission() returns (p: Option<Packet>)
      modifies this`retransmissionQueue
      ensures old(retransmissionQueue) == [] ==> p == None && retransmissionQueue == []
      ensures old(retransmissionQueue) != [] ==> p.Some? && [p.value] + retransmissionQueue == old(retransmissionQueue)
    {
      if |retransmissionQueue| == 0 { return None; }
      p := Some(retransmissionQueue[0]);
      retransmissionQueue := retransmissionQueue[1..];
    }

    method DuplicatePacket(p: Packet)
      modifies this`retransmissionQueue
      ensures retransmissionQueue == old(retransmissionQueue) + [p]
    {
      retransmissionQueue := retransmissionQueue + [p];
    }
  }

  lemma OldestTaken(c: Core, n: nat)
    requires c.Ok()
    ensures Taken(c.history, c.Oldest(n)) == c.history[..if n <= |c.history| then n else |c.history|]
  {
    var h := c.history;
    var m := if n <= |h| then n else |h|;
    var t := c.Oldest(n);
    TakenAll(h[..m], t);
    forall j | m <= j < |h| ensures !t(h[j]) {
      forall i | 0 <= i < m ensures h[i] != h[j] { assert Less(h, i, j); }
    }
    NoneBeyond(h, m, t);
  }

  lemma LastTaken(h: seq<Packet>)
    requires Increasing(h) && h != []
    ensures Taken(h, ByNumber(h[|h| - 1].number)) == [h[|h| - 1]]
  {
    var k := |h| - 1;
    var t := ByNumber(h[k].number);
    PrefixIncreasing(h, k);
    TakenNone(h[..k], t);
    assert Taken(h, t) == Taken(h[..k], t) + One(t(h[k]), h[k]);
  }
}
