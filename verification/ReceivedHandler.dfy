/** The receiving side of acknowledgement: which packets are recorded and when a frame is due. */
module ReceivedHandler {
  import opened ReceivedPackets
  import opened AckFrames

  const MaxPacketsReceivedBeforeAckSend: nat := 20
  const RetransmittablePacketsBeforeAck: nat := 2

  datatype Outcome = Accepted | InvalidPacketNumber | TooManyRanges

  /** The handler as a value. `alarm` is a time, zero when unset; `ackEvery20` is set below version 39. */
  datatype Receiver = Receiver(
    largest: nat, limit: nat, ranges: seq<Interval>,
    received: nat, retransmittable: nat, queued: bool, alarm: nat, lastAck: Option<AckFrame>,
    ackEvery20: bool, ackSendDelay: nat)
  {
    /** Reasons to acknowledge at once. */
    predicate AckNow(p: nat) {
      || queued || lastAck.None?
      || (ackEvery20 && received >= MaxPacketsReceivedBeforeAckSend)
      || (lastAck.Some? && (p < lastAck.value.largest || Highest(ranges).start > lastAck.value.largest))
    }

    function MaybeQueued(p: nat, instigate: bool, now: nat): Receiver {
      var r := this.(received := received + 1, retransmittable := retransmittable + if instigate then 1 else 0);
      if r.AckNow(p) || (instigate && r.retransmittable >= RetransmittablePacketsBeforeAck) then
        r.(queued := true, alarm := 0)
      else if instigate && r.alarm == 0 then
        r.(alarm := now + ackSendDelay)
      else
        r
    }

    predicate Due(now: nat) { queued || (alarm != 0 && alarm <= now) }

    function Sent(): Receiver
      requires ranges != []
    {
      this.(lastAck := Some(FrameOf(largest, ranges)), alarm := 0, queued := false, received := 0, retransmittable := 0)
    }
  }

  /** What one arrival does. */
  ghost predicate Arrives(r: Receiver, p: nat, instigate: bool, now: nat, r': Receiver, o: Outcome) {
    var seen := r.(largest := Max(r.largest, p));
    if p == 0 then o == InvalidPacketNumber && r' == r
    else if p <= r.limit then o == Accepted && r' == seen
    else if |r.ranges| >= MaxTrackedReceivedAckRanges then o == TooManyRanges && r' == seen
    else o == Accepted && Adds(r.ranges, p, r'.ranges) && r' == seen.(ranges := r'.ranges).MaybeQueued(p, instigate, now)
  }

  // ---------- when a frame is promised ----------

  /** A recorded packet: its number, whether it asks for an acknowledgement, when it came, and the list with it. */
  datatype Arrival = Arrival(number: nat, asks: bool, now: nat, ranges: seq<Interval>)

  /** The packets recorded since the last frame was sent. */
  function Recorded(r: Receiver, arrivals: seq<Arrival>): Receiver {
    if arrivals == [] then r
    else
      var a := arrivals[|arrivals| - 1];
      Recorded(r, arrivals[..|arrivals| - 1]).(ranges := a.ranges).MaybeQueued(a.number, a.asks, a.now)
  }

  function Asking(arrivals: seq<Arrival>): nat {
    if arrivals == [] then 0 else Asking(arrivals[..|arrivals| - 1]) + if arrivals[|arrivals| - 1].asks then 1 else 0
  }

  /** Arrival `i` calls for a frame at once: nothing was acknowledged before, it is the twentieth for an old version,
      it was reported missing, it opens a new gap, or it is the second to ask. */
  ghost predicate CallsForFrame(r: Receiver, arrivals: seq<Arrival>, i: nat)
    requires i < |arrivals|
  {
    var a := arrivals[i];
    || r.lastAck.None? || (r.ackEvery20 && i + 1 >= 20)
    || (r.lastAck.Some? && a.number < r.lastAck.value.largest)
    || (r.lastAck.Some? && a.ranges != [] && a.ranges[|a.ranges| - 1].start > r.lastAck.value.largest)
    || (a.asks && Asking(arrivals[..i + 1]) >= 2)
  }

  ghost predicate SomeCall(r: Receiver, arrivals: seq<Arrival>) {
    exists i :: 0 <= i < |arrivals| && CallsForFrame(r, arrivals, i)
  }

  /** No frame is queued and no alarm set, as after a frame was sent. */
  ghost predicate Settled(r: Receiver) {
    r.received == 0 && r.retransmittable == 0 && !r.queued && r.alarm == 0
  }

  lemma {:induction false} SomeCallNext(r: Receiver, arrivals: seq<Arrival>)
    requires arrivals != []
    ensures SomeCall(r, arrivals) <==> SomeCall(r, arrivals[..|arrivals| - 1]) || CallsForFrame(r, arrivals, |arrivals| - 1)
  {
    var k := |arrivals| - 1;
    forall i | 0 <= i < k
      ensures CallsForFrame(r, arrivals[..k], i) <==> CallsForFrame(r, arrivals, i)
    {
      assert arrivals[..k][..i + 1] == arrivals[..i + 1];
    }
  }

  /** What the packets since `r` leave: how many there were, how many asked, and whether a frame was called for. */
  ghost predicate Promises(r: Receiver, r': Receiver, count: nat, asking: nat, called: bool) {
    && r'.lastAck == r.lastAck && r'.ackEvery20 == r.ackEvery20 && r'.ackSendDelay == r.ackSendDelay
    && r'.received == count && r'.retransmittable == asking && (r'.queued <==> called) && (r'.alarm != 0 <==> !called && asking > 0)
  }

  lemma PromisesNext(r: Receiver, r': Receiver, arrivals: seq<Arrival>, asking: nat, called: bool)
    requires arrivals != [] && Promises(r, r', |arrivals| - 1, asking, called)
    requires var a := arrivals[|arrivals| - 1]; a.now + r.ackSendDelay > 0 && Asking(arrivals) == asking + if a.asks then 1 else 0
    ensures var k, a := |arrivals| - 1, arrivals[|arrivals| - 1];
      Promises(r, r'.(ranges := a.ranges).MaybeQueued(a.number, a.asks, a.now), k + 1, Asking(arrivals),
        called || CallsForFrame(r, arrivals, k))
  {
    assert arrivals[..|arrivals| - 1 + 1] == arrivals;
  }

  /** A frame is queued exactly when some packet since the last one called for it; otherwise an alarm is set exactly
      when one asked, and it is the only one. */
  lemma {:induction false} FramePromised(r: Receiver, arrivals: seq<Arrival>)
    requires Settled(r) && forall i :: 0 <= i < |arrivals| ==> arrivals[i].now + r.ackSendDelay > 0
    ensures Promises(r, Recorded(r, arrivals), |arrivals|, Asking(arrivals), SomeCall(r, arrivals))
  {
    if arrivals != [] {
      var before := arrivals[..|arrivals| - 1];
      FramePromised(r, before);
      SomeCallNext(r, arrivals);
      PromisesNext(r, Recorded(r, before), arrivals, Asking(before), SomeCall(r, before));
    }
  }

  /** The alarm is the delay after some packet that asked. */
  ghost predicate DueAfter(r: Receiver, arrivals: seq<Arrival>, alarm: nat) {
    exists i :: 0 <= i < |arrivals| && arrivals[i].asks && alarm == arrivals[i].now + r.ackSendDelay
  }

  /** So a second packet that asks always leaves a frame queued, and a first one a frame or an alarm, which is due
      once the delay has passed since some packet that asked. */
  lemma {:induction false} AskedIsAnswered(r: Receiver, arrivals: seq<Arrival>)
    requires Settled(r) && forall i :: 0 <= i < |arrivals| ==> arrivals[i].now + r.ackSendDelay > 0
    ensures var r' := Recorded(r, arrivals);
      && (Asking(arrivals) >= 2 ==> r'.queued)
      && (Asking(arrivals) >= 1 ==> r'.queued || DueAfter(r, arrivals, r'.alarm))
  {
    FramePromised(r, arrivals);
    if arrivals != [] {
      var k := |arrivals| - 1;
      AskedIsAnswered(r, arrivals[..k]);
      FramePromised(r, arrivals[..k]);
      SomeCallNext(r, arrivals);
      assert arrivals[..k + 1] == arrivals;
      if i :| 0 <= i < k && arrivals[..k][i].asks && Recorded(r, arrivals[..k]).alarm == arrivals[..k][i].now + r.ackSendDelay {
        assert arrivals[i] == arrivals[..k][i];
      }
    }
  }

  /** What a new lower limit does. The limit may also fall. */
  ghost predicate Limits(r: Receiver, p: nat, r': Receiver) {
    Keeps(r.ranges, p, r'.ranges) && r' == r.(limit := p, ranges := r'.ranges)
  }

  class ReceivedPacketHandler {
    const packetHistory: ReceivedPacketHistory
    const ackEvery20: bool
    const ackSendDelay: nat
    var largestObserved: nat
    var lowerLimit: nat
    var packetsReceivedSinceLastAck: nat
    var retransmittablePacketsReceivedSinceLastAck: nat
    var ackQueued: bool
    var ackAlarm: nat
    var lastAck: Option<AckFrame>

    ghost predicate Valid() reads this, packetHistory { packetHistory.Valid() }

    ghost function Value(): Receiver reads this, packetHistory {
      Receiver(largestObserved, lowerLimit, packetHistory.ranges,
               packetsReceivedSinceLastAck, retransmittablePacketsReceivedSinceLastAck, ackQueued, ackAlarm, lastAck,
               ackEvery20, ackSendDelay)
    }

    constructor (below39: bool, delay: nat)
      ensures Valid() && fresh(packetHistory)
      ensures Value() == Receiver(0, 0, [], 0, 0, false, 0, None, below39, delay)
    {
      packetHistory := new ReceivedPacketHistory();
      ackEvery20, ackSendDelay := below39, delay;
      largestObserved, lowerLimit := 0, 0;
      packetsReceivedSinceLastAck, retransmittablePacketsReceivedSinceLastAck := 0, 0;
      ackQueued, ackAlarm, lastAck := false, 0, None;
    }

    method CheckAckNow(p: nat)
      modifies this`ackQueued
      ensures ackQueued <==> old(Value()).AckNow(p)
    {
      if lastAck.None? { ackQueued := true; }
      if ackEvery20 && packetsReceivedSinceLastAck >= MaxPacketsReceivedBeforeAckSend { ackQueued := true; }
      if lastAck.Some? && p < lastAck.value.largest { ackQueued := true; }
      var highest := packetHistory.GetHighestAckRange();
      if lastAck.Some? && highest.start > lastAck.value.largest { ackQueued := true; }
    }

    method MaybeQueueAck(p: nat, shouldInstigateAck: bool, now: nat)
      modifies this
      ensures Value() == old(Value()).MaybeQueued(p, shouldInstigateAck, now)
    {
      packetsReceivedSinceLastAck := packetsReceivedSinceLastAck + 1;
      if shouldInstigateAck {
        retransmittablePacketsReceivedSinceLastAck := retransmittablePacketsReceivedSinceLastAck + 1;
      }
      CheckAckNow(p);
      if !ackQueued && shouldInstigateAck {
        if retransmittablePacketsReceivedSinceLastAck >= RetransmittablePacketsBeforeAck {
          ackQueued := true;
        } else if ackAlarm == 0 {
          ackAlarm := now + ackSendDelay;
        }
      }
      if ackQueued { ackAlarm := 0; }
    }

    method ReceivedPacket(p: nat, shouldInstigateAck: bool, now: nat) returns (o: Outcome)
      requires Valid()
      modifies this, packetHistory
      ensures Valid() && Arrives(old(Value()), p, shouldInstigateAck, now, Value(), o)
    {
      if p == 0 { return InvalidPacketNumber; }
      if p > largestObserved { largestObserved := p; }
      if p <= lowerLimit { return Accepted; }
      var ok := packetHistory.ReceivedPacket(p);
      if !ok { return TooManyRanges; }
      MaybeQueueAck(p, shouldInstigateAck, now);
      return Accepted;
    }

    method SetLowerLimit(p: nat)
      requires Valid()
      modifies this, packetHistory
      ensures Valid() && Limits(old(Value()), p, Value())
    {
      lowerLimit := p;
      packetHistory.DeleteUpTo(p);
    }

    /** The list must not be empty when a frame is due: its last entry is read. */
    method GetAckFrame(now: nat) returns (frame: Option<AckFrame>)
      requires Valid() && (Value().Due(now) ==> packetHistory.ranges != [])
      modifies this
      ensures Valid()
      ensures !old(Value()).Due(now) ==> frame == None && Value() == old(Value())
      ensures old(Value()).Due(now) ==> Value() == old(Value()).Sent() && frame == Value().lastAck
    {
      if !ackQueued && (ackAlarm == 0 || ackAlarm > now) { return None; }
      var ack := BuildFrame();
      lastAck := Some(ack);
      ackAlarm, ackQueued := 0, false;
      packetsReceivedSinceLastAck, retransmittablePacketsReceivedSinceLastAck := 0, 0;
      return lastAck;
    }

    method BuildFrame() returns (ack: AckFrame)
      requires packetHistory.ranges != []
      ensures ack == FrameOf(largestObserved, packetHistory.ranges)
    {
      var ackRanges := packetHistory.GetAckRanges();
      ack := AckFrame(largestObserved, ackRanges[|ackRanges| - 1].start, []);
      if |ackRanges| > 1 { ack := ack.(ranges := ackRanges); }
    }

    /** The closing frame carries the same three fields. */
    method GetClosePathFrame() returns (frame: AckFrame)
      requires Valid() && packetHistory.ranges != []
      ensures frame == FrameOf(largestObserved, packetHistory.ranges)
    {
      frame := BuildFrame();
    }
  }
}
