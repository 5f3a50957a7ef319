/** One path with both ends: packets and acknowledgements over a network that loses, repeats and reorders. */
module AckSystem {
  import opened ReceivedPackets
  import opened AckFrames
  import opened AckWire
  import opened PacketLists
  import opened SentPackets
  import opened ReceivedHandler
  import SentRuns

  datatype Message =
    | Data(number: nat, leastUnacked: Option<nat>, instigate: bool)
    | AckMessage(frame: AckFrame)
    | CloseMessage(frame: AckFrame)

  /** `asked` is a stop-waiting frame waiting for a packet to carry it.  `numbers` are all packet numbers sent,
      `arrived` those the receiver has taken in.  `closed`: the receiver gave up on too many intervals, or on a
      frame it could not write.
      `crashed`: it built a frame from an empty list.  `failed`: the sender rejected an acknowledgement. */
  datatype Sys = Sys(snd: SentRuns.State, asked: Option<nat>, rcv: Receiver, wire: set<Message>,
                     numbers: set<nat>, arrived: set<nat>, closed: bool, crashed: bool, failed: bool)

  datatype Event =
    | Send(packet: Packet, instigate: bool, withStop: bool)
    | AskStop(force: bool)
    | Local(op: SentRuns.Op)
    | DeliverData(message: Message, now: nat)
    | MakeAck(now: nat)
    | MakeClose
    | DeliverAck(message: Message, blocks: nat, withNumber: nat, late: nat -> bool)
    | DeliverClose(message: Message, blocks: nat, withNumber: nat)

  function InitialReceiver(ackEvery20: bool, delay: nat): Receiver {
    Receiver(0, 0, [], 0, 0, false, 0, None, ackEvery20, delay)
  }

  ghost predicate Init(s: Sys) {
    && s.snd == SentRuns.Initial && s.asked == None && s.wire == {} && s.numbers == {} && s.arrived == {}
    && !s.closed && !s.crashed && !s.failed
    && s.rcv == InitialReceiver(s.rcv.ackEvery20, s.rcv.ackSendDelay)
  }

  predicate IsLocal(op: SentRuns.Op) {
    op.Alarm? || op.InflightLost? || op.Dequeue? || op.Duplicate?
  }

  predicate Fatal(r: AckResult) { r == AckUnsent || r == AckSkipped }

  ghost predicate Sends(s: Sys, p: Packet, instigate: bool, withStop: bool, s': Sys)
    requires s.snd.core.Ok()
  {
    if s.snd.core.Send(p).1 != SendOk then s' == s
    else
      var stop := if withStop then s.asked else None;
      s' == s.(snd := SentRuns.SendStep(s.snd, p), asked := if withStop then None else s.asked,
               numbers := s.numbers + {p.number}, wire := s.wire + {Data(p.number, stop, instigate)})
  }

  /** A packet is recorded before its stop-waiting frame is acted on. */
  ghost predicate Receives(s: Sys, m: Message, now: nat, s': Sys)
    requires m.Data?
  {
    exists r, o :: Arrives(s.rcv, m.number, m.instigate, now, r, o) && ReceivedAs(s, m, r, o, s')
  }

  ghost predicate ReceivedAs(s: Sys, m: Message, r: Receiver, o: Outcome, s': Sys)
    requires m.Data?
  {
    if o != Accepted then s' == s.(closed := true)
    else
      && s' == s.(rcv := s'.rcv, arrived := s.arrived + {m.number})
      && (match m.leastUnacked
          case None => s'.rcv == r
          case Some(v) => v > 0 && Limits(r, v - 1, s'.rcv))
  }

  ghost predicate Next(s: Sys, e: Event, s': Sys)
    requires s.snd.core.Ok()
  {
    match e
    case Send(p, instigate, withStop) => Sends(s, p, instigate, withStop, s')
    case AskStop(force) =>
      var (w, frame) := s.snd.core.waiting.Get(force);
      s' == s.(snd := s.snd.(core := s.snd.core.(waiting := w)), asked := if frame.Some? then frame else s.asked)
    case Local(op) => IsLocal(op) && s' == s.(snd := SentRuns.Step(s.snd, op))
    case DeliverData(m, now) => m.Data? && m in s.wire && !s.closed && Receives(s, m, now, s')
    case MakeAck(now) =>
      !s.closed && s.rcv.Due(now) &&
      if s.rcv.ranges == [] then s' == s.(crashed := true)
      else if TooWide(FrameOf(s.rcv.largest, s.rcv.ranges).ranges) then s' == s.(closed := true)
      else s' == s.(rcv := s.rcv.Sent(), wire := s.wire + {AckMessage(FrameOf(s.rcv.largest, s.rcv.ranges))})
    case MakeClose =>
      !s.closed && s.rcv.ranges != [] &&
      if TooWide(FrameOf(s.rcv.largest, s.rcv.ranges).ranges) then s' == s.(closed := true)
      else s' == s.(wire := s.wire + {CloseMessage(FrameOf(s.rcv.largest, s.rcv.ranges))})
    case DeliverAck(m, blocks, n, late) =>
      m.AckMessage? && m in s.wire &&
      var a := Cut(m.frame, blocks);
      s' == s.(snd := SentRuns.AckStep(s.snd, a, n, late), failed := s.failed || Fatal(s.snd.core.Ack(a, n, late).1))
    case DeliverClose(m, blocks, n) =>
      m.CloseMessage? && m in s.wire &&
      var a := Cut(m.frame, blocks);
      s' == s.(snd := SentRuns.CloseStep(s.snd, a, n), failed := s.failed || Fatal(s.snd.core.ClosePath(a, n).1))
  }

  // ---------- the invariant ----------

  /** The list is never empty once something arrived, and the largest number seen tops it. */
  ghost predicate ReceiverOk(r: Receiver, arrived: set<nat>) {
    && Canonical(r.ranges)
    && (forall x: nat :: Covers(r.ranges, x) ==> x in arrived)
    && (if r.largest == 0 then r.ranges == [] && !r.queued && r.alarm == 0 && r.limit == 0
        else r.ranges != [] && Highest(r.ranges).end == r.largest && r.limit < r.largest)
  }

  ghost predicate FrameOk(a: AckFrame, arrived: set<nat>) {
    && WellFormed(a) && !TooWide(a.ranges)
    && a.largest in arrived && forall x: nat :: Acks(a, x) ==> x in arrived
  }

  ghost predicate MessageOk(m: Message, numbers: set<nat>, arrived: set<nat>) {
    match m
    case Data(n, least, _) => n in numbers && (least.Some? ==> 1 <= least.value <= n)
    case AckMessage(a) => FrameOk(a, arrived)
    case CloseMessage(a) => FrameOk(a, arrived)
  }

  ghost predicate NumbersOk(numbers: set<nat>, skipped: seq<nat>, lastSent: nat, asked: Option<nat>) {
    && (forall n :: n in numbers ==> 1 <= n <= lastSent)
    && (forall n :: n in skipped ==> n !in numbers && n <= lastSent)
    && (asked.Some? ==> 1 <= asked.value <= lastSent + 1)
  }

  ghost predicate AckedArrived(acked: seq<Packet>, arrived: set<nat>) {
    forall p :: p in acked ==> p.number in arrived
  }

  ghost predicate Inv(s: Sys) {
    && SentRuns.Inv(s.snd)
    && NumbersOk(s.numbers, s.snd.core.skipped, s.snd.core.lastSent, s.asked)
    && AckedArrived(s.snd.ledger.acked, s.arrived)
    && s.arrived <= s.numbers
    && (s.closed || ReceiverOk(s.rcv, s.arrived))
    && (forall m :: m in s.wire ==> MessageOk(m, s.numbers, s.arrived))
    && !s.crashed && !s.failed
  }

  lemma {:induction false} InitInv(s: Sys)
    requires Init(s)
    ensures Inv(s)
  {
  }

  // ---------- the receiver ----------

  lemma CoverHighest(r: seq<Interval>)
    requires Canonical(r) && r != []
    ensures Covers(r, Highest(r).end)
  {
    assert r[|r| - 1].start <= Highest(r).end <= r[|r| - 1].end;
  }

  /** The top of a list is its largest covered number. */
  lemma TopIs(r: seq<Interval>, top: nat)
    requires Canonical(r) && Covers(r, top) && forall x: nat :: Covers(r, x) ==> x <= top
    ensures r != [] && Highest(r).end == top
  {
    CoverBounds(r, top);
    CoverHighest(r);
  }

  lemma ArrivalKeeps(r: Receiver, p: nat, instigate: bool, now: nat, r': Receiver, arrived: set<nat>)
    requires ReceiverOk(r, arrived) && p > 0 && Arrives(r, p, instigate, now, r', Accepted)
    ensures ReceiverOk(r', arrived + {p}) && p <= r'.largest
  {
    if p > r.limit {
      forall x: nat | Covers(r.ranges, x) ensures x <= r.largest { CoverBounds(r.ranges, x); }
      if r.ranges != [] { CoverHighest(r.ranges); }
      assert Covers(r'.ranges, r'.largest);
      TopIs(r'.ranges, r'.largest);
    }
  }

  lemma LimitKeeps(r: Receiver, p: nat, r': Receiver, arrived: set<nat>)
    requires ReceiverOk(r, arrived) && p < r.largest && Limits(r, p, r')
    ensures ReceiverOk(r', arrived)
  {
    forall x: nat | Covers(r.ranges, x) ensures x <= r.largest { CoverBounds(r.ranges, x); }
    CoverHighest(r.ranges);
    TopIs(r'.ranges, r.largest);
  }

  lemma FrameOfOk(r: Receiver, arrived: set<nat>)
    requires ReceiverOk(r, arrived) && r.ranges != [] && !TooWide(FrameOf(r.largest, r.ranges).ranges)
    ensures FrameOk(FrameOf(r.largest, r.ranges), arrived)
  {
    FrameExactIff(r.largest, r.ranges);
    CoverHighest(r.ranges);
    assert Exact(r.largest, r.ranges);
  }

  lemma MoreArrived(m: Message, numbers: set<nat>, arrived: set<nat>, numbers': set<nat>, arrived': set<nat>)
    requires MessageOk(m, numbers, arrived) && numbers <= numbers' && arrived <= arrived'
    ensures MessageOk(m, numbers', arrived')
  {
  }

  lemma ReceiveKeepsInv(s: Sys, m: Message, now: nat, s': Sys)
    requires Inv(s) && m in s.wire && m.Data? && !s.closed && Receives(s, m, now, s')
    ensures Inv(s')
  {
    var r, o :| Arrives(s.rcv, m.number, m.instigate, now, r, o) && ReceivedAs(s, m, r, o, s');
    if o == Accepted {
      ArrivalKeeps(s.rcv, m.number, m.instigate, now, r, s.arrived);
      if m.leastUnacked.Some? { LimitKeeps(r, m.leastUnacked.value - 1, s'.rcv, s'.arrived); }
      forall x | x in s'.wire ensures MessageOk(x, s'.numbers, s'.arrived) {
        MoreArrived(x, s.numbers, s.arrived, s'.numbers, s'.arrived);
      }
    }
  }

  // ---------- the sender ----------

  lemma {:induction false} SkipAllIn(skipped: seq<nat>, a: nat, b: nat, n: nat)
    requires n in SkipAll(skipped, a, b)
    ensures n in skipped || a <= n < b
    decreases b - a
  {
    if a < b {
      var s := skipped + [a];
      SkipAllIn(if |s| > MaxTrackedSkippedPackets then s[1..] else s, a + 1, b, n);
    }
  }

  lemma {:induction false} SkippedAfterIn(skipped: seq<nat>, l: int, n: nat)
    requires n in SkippedAfter(skipped, l)
    ensures n in skipped
  {
    var k := |skipped| - 1;
    if n != skipped[k] { SkippedAfterIn(skipped[..k], l, n); }
  }

  lemma SendNumbers(numbers: set<nat>, skipped: seq<nat>, lastSent: nat, asked: Option<nat>, n: nat, asked': Option<nat>)
    requires NumbersOk(numbers, skipped, lastSent, asked) && n > lastSent && (asked' == None || asked' == asked)
    ensures NumbersOk(numbers + {n}, SkipAll(skipped, lastSent + 1, n), n, asked')
  {
    var skipped' := SkipAll(skipped, lastSent + 1, n);
    forall k | k in skipped' ensures k !in numbers + {n} && k <= n {
      SkipAllIn(skipped, lastSent + 1, n, k);
    }
    assert NumbersOk(numbers + {n}, skipped', n, asked');
  }

  lemma SendShape(s: SentRuns.State, p: Packet)
    requires s.core.Send(p).1 == SendOk
    ensures p.number > s.core.lastSent
    ensures var s' := SentRuns.SendStep(s, p);
      && s'.core.lastSent == p.number && s'.core.skipped == SkipAll(s.core.skipped, s.core.lastSent + 1, p.number)
      && s'.ledger.acked == s.ledger.acked
  {
  }

  lemma SendKeepsInv(s: Sys, p: Packet, instigate: bool, withStop: bool, s': Sys)
    requires Inv(s) && Sends(s, p, instigate, withStop, s')
    ensures Inv(s')
  {
    var c := s.snd.core;
    if c.Send(p).1 == SendOk {
      SentRuns.SendKeepsInv(s.snd, p);
      SendShape(s.snd, p);
      SendNumbers(s.numbers, c.skipped, c.lastSent, s.asked, p.number, s'.asked);
      forall x | x in s.wire ensures MessageOk(x, s'.numbers, s'.arrived) {
        MoreArrived(x, s.numbers, s.arrived, s'.numbers, s'.arrived);
      }
    }
  }

  /** What the cut frame acknowledges, the whole one does. */
  lemma CutOk(a: AckFrame, blocks: nat, arrived: set<nat>)
    requires FrameOk(a, arrived)
    ensures FrameOk(Cut(a, blocks), arrived)
  {
    var b := Cut(a, blocks);
    if 2 <= blocks < |a.ranges| {
      forall x: nat | Acks(b, x) ensures x in arrived {
        var i :| 0 <= i < |b.ranges| && b.ranges[i].start <= x <= b.ranges[i].end;
        assert a.ranges[i] == b.ranges[i];
        var k := |a.ranges| - 1;
        assert a.ranges[k].start <= a.ranges[k].end < a.ranges[i].start;
        assert Covers(a.ranges, x);
        assert Acks(a, x);
      }
    }
  }

  /** Steps that leave the acknowledged packets, the numbers and the skipped list as they are. */
  lemma QuietKeepsInv(s: Sys, snd: SentRuns.State)
    requires Inv(s) && SentRuns.Inv(snd)
    requires snd.core.lastSent == s.snd.core.lastSent && snd.core.skipped == s.snd.core.skipped
    requires snd.ledger.acked == s.snd.ledger.acked
    ensures Inv(s.(snd := snd))
  {
  }

  lemma LocalIsQuiet(s: SentRuns.State, op: SentRuns.Op)
    requires s.core.Ok() && IsLocal(op)
    ensures var s' := SentRuns.Step(s, op);
      s'.core.lastSent == s.core.lastSent && s'.core.skipped == s.core.skipped && s'.ledger.acked == s.ledger.acked
  {
    assert s.ledger.acked + [] == s.ledger.acked;
  }

  lemma AskKeepsInv(s: Sys, force: bool, s': Sys)
    requires Inv(s) && Next(s, AskStop(force), s')
    ensures Inv(s')
  {
    SentRuns.StopWaitingKeepsInv(s.snd, force);
    var (w, frame) := s.snd.core.waiting.Get(force);
    QuietKeepsInv(s, s.snd.(core := s.snd.core.(waiting := w)));
  }

  /** A truthful frame is neither about unsent nor about skipped numbers, and removes only packets that arrived. */
  lemma TruthfulFrame(s: Sys, a: AckFrame)
    requires NumbersOk(s.numbers, s.snd.core.skipped, s.snd.core.lastSent, s.asked)
    requires s.arrived <= s.numbers && FrameOk(a, s.arrived) && AckedArrived(s.snd.ledger.acked, s.arrived)
    ensures a.largest <= s.snd.core.lastSent && !s.snd.core.AcksSkipped(a)
    ensures AckedArrived(s.snd.ledger.acked + Taken(s.snd.core.history, AckedBy(a)), s.arrived)
  {
    forall p | p in Taken(s.snd.core.history, AckedBy(a)) ensures p.number in s.arrived {
      TakenIn(s.snd.core.history, AckedBy(a), p);
    }
  }

  lemma AppliedSkipped(c: Core, a: AckFrame, late: nat -> bool)
    requires c.Ok()
    ensures forall n :: n in c.AckApplied(a, late).skipped ==> n in c.skipped
    ensures c.AckApplied(a, late).lastSent == c.lastSent
  {
    AcknowledgedOk(c, AckedBy(a));
    var c1 := c.Acknowledged(AckedBy(a)).LossDetected(late);
    forall n | n in c.AckApplied(a, late).skipped ensures n in c.skipped {
      SkippedAfterIn(c1.skipped, c1.LargestInOrderAcked(), n);
    }
  }

  /** An acknowledgement changes the numbers only by forgetting skipped ones, and is not rejected. */
  lemma AckShape(c: Core, a: AckFrame, n: nat, late: nat -> bool)
    requires c.Ok() && a.largest <= c.lastSent && !c.AcksSkipped(a)
    ensures var (c', r) := c.Ack(a, n, late);
      !Fatal(r) && c'.lastSent == c.lastSent && forall n :: n in c'.skipped ==> n in c.skipped
  {
    if SentRuns.Processes(c, a, n) {
      SentRuns.AckProcessed(c, a, n, late);
      AppliedSkipped(c.(withAck := n, largestAcked := a.largest), a, late);
    } else {
      SentRuns.AckIgnored(c, a, n, late);
    }
  }

  lemma AckKeepsInv(s: Sys, a: AckFrame, n: nat, late: nat -> bool)
    requires Inv(s) && FrameOk(a, s.arrived)
    ensures !Fatal(s.snd.core.Ack(a, n, late).1) && Inv(s.(snd := SentRuns.AckStep(s.snd, a, n, late)))
  {
    TruthfulFrame(s, a);
    AckShape(s.snd.core, a, n, late);
    SentRuns.AckKeepsInv(s.snd, a, n, late);
    assert s.snd.ledger.acked + [] == s.snd.ledger.acked;
  }

  lemma CloseShape(c: Core, a: AckFrame, n: nat)
    requires c.Ok() && a.largest <= c.lastSent && !c.AcksSkipped(a)
    ensures var (c', r) := c.ClosePath(a, n);
      !Fatal(r) && c'.lastSent == c.lastSent && forall n :: n in c'.skipped ==> n in c.skipped
  {
    if SentRuns.Closes(c, a, n) {
      var c0 := c.(withAck := n);
      AcknowledgedOk(c0, AckedBy(a));
      var c1 := c0.Acknowledged(AckedBy(a)).InflightLost();
      forall k | k in c.ClosePath(a, n).0.skipped ensures k in c.skipped {
        SkippedAfterIn(c1.skipped, c1.LargestInOrderAcked(), k);
      }
    }
  }

  lemma CloseKeepsInv(s: Sys, a: AckFrame, n: nat)
    requires Inv(s) && FrameOk(a, s.arrived)
    ensures !Fatal(s.snd.core.ClosePath(a, n).1) && Inv(s.(snd := SentRuns.CloseStep(s.snd, a, n)))
  {
    TruthfulFrame(s, a);
    CloseShape(s.snd.core, a, n);
    SentRuns.CloseKeepsInv(s.snd, a, n);
    assert s.snd.ledger.acked + [] == s.snd.ledger.acked;
  }

  // ---------- every run ----------

  lemma MakeFrameKeepsInv(s: Sys, s': Sys, m: Message)
    requires Inv(s) && !s.closed && s.rcv.ranges != [] && !TooWide(FrameOf(s.rcv.largest, s.rcv.ranges).ranges)
    requires m == AckMessage(FrameOf(s.rcv.largest, s.rcv.ranges)) || m == CloseMessage(FrameOf(s.rcv.largest, s.rcv.ranges))
    requires s' == s.(rcv := s'.rcv, wire := s.wire + {m}) && (s'.rcv == s.rcv || s'.rcv == s.rcv.Sent())
    ensures Inv(s')
  {
    FrameOfOk(s.rcv, s.arrived);
  }

  lemma {:induction false} NextKeepsInv(s: Sys, e: Event, s': Sys)
    requires Inv(s) && Next(s, e, s')
    ensures Inv(s')
  {
    match e
    case Send(p, instigate, withStop) => SendKeepsInv(s, p, instigate, withStop, s');
    case AskStop(force) => AskKeepsInv(s, force, s');
    case Local(op) =>
      LocalIsQuiet(s.snd, op);
      SentRuns.StepKeepsInv(s.snd, op);
      QuietKeepsInv(s, s'.snd);
    case DeliverData(m, now) => ReceiveKeepsInv(s, m, now, s');
    case MakeAck(now) =>
      if !s'.closed { MakeFrameKeepsInv(s, s', AckMessage(FrameOf(s.rcv.largest, s.rcv.ranges))); }
    case MakeClose =>
      if !s'.closed { MakeFrameKeepsInv(s, s', CloseMessage(FrameOf(s.rcv.largest, s.rcv.ranges))); }
    case DeliverAck(m, blocks, n, late) =>
      CutOk(m.frame, blocks, s.arrived);
      AckKeepsInv(s, Cut(m.frame, blocks), n, late);
    case DeliverClose(m, blocks, n) =>
      CutOk(m.frame, blocks, s.arrived);
      CloseKeepsInv(s, Cut(m.frame, blocks), n);
  }

  /** A sender that has lost track of its packets might do anything; none is ever reached. */
  ghost predicate Follows(s: Sys, e: Event, s': Sys) {
    s.snd.core.Ok() ==> Next(s, e, s')
  }

  ghost predicate Run(states: seq<Sys>, events: seq<Event>) {
    && |states| == |events| + 1 && Init(states[0])
    && forall i :: 0 <= i < |events| ==> Follows(states[i], events[i], states[i + 1])
  }

  lemma {:induction false} RunInv(states: seq<Sys>, events: seq<Event>, k: nat)
    requires Run(states, events) && k < |states|
    ensures Inv(states[k])
  {
    if k == 0 {
      InitInv(states[0]);
    } else {
      RunInv(states, events, k - 1);
      assert Follows(states[k - 1], events[k - 1], states[k]);
      NextKeepsInv(states[k - 1], events[k - 1], states[k]);
    }
  }

  /** Whatever the network does, a packet the sender counts as acknowledged did arrive. */
  lemma {:induction false} AckedWasReceived(states: seq<Sys>, events: seq<Event>, k: nat, p: Packet)
    requires Run(states, events) && k < |states| && p in states[k].snd.ledger.acked
    ensures p.number in states[k].arrived
  {
    RunInv(states, events, k);
  }

  /** No run leads to a rejected acknowledgement, nor to a frame built from an empty list. */
  lemma {:induction false} NeverRejected(states: seq<Sys>, events: seq<Event>, k: nat)
    requires Run(states, events) && k < |states|
    ensures !states[k].failed && !states[k].crashed
  {
    RunInv(states, events, k);
  }

  /** Until it closes, the receiver has a nonempty list topped by the largest number seen as soon as a
      packet arrived, so a frame can always be built, and it acknowledges exactly the numbers recorded. */
  lemma {:induction false} ReceiverNeverEmpty(states: seq<Sys>, events: seq<Event>, k: nat, now: nat)
    requires Run(states, events) && k < |states| && !states[k].closed && (states[k].rcv.Due(now) || states[k].rcv.largest > 0)
    ensures !states[k].crashed && states[k].rcv.ranges != []
    ensures Highest(states[k].rcv.ranges).end == states[k].rcv.largest && Exact(states[k].rcv.largest, states[k].rcv.ranges)
  {
    RunInv(states, events, k);
    FrameExactIff(states[k].rcv.largest, states[k].rcv.ranges);
  }

  /** Every acknowledgement put on the wire can be read at the other end: what arrives is its longest part that
      fits, one of the cuts a delivery step may choose. */
  lemma {:induction false} FramesAreReadable(states: seq<Sys>, events: seq<Event>, k: nat, m: Message)
    requires Run(states, events) && k < |states| && m in states[k].wire && !m.Data?
    ensures WellFormed(m.frame) && Chained(m.frame.ranges) && Parsed(OnWire(m.frame)) ==
            Some(if m.frame.ranges == [] then m.frame else Cut(m.frame, Fit(m.frame.ranges)))
  {
    RunInv(states, events, k);
    var a := m.frame;
    assert MessageOk(m, states[k].numbers, states[k].arrived);
    FallingIsChained(a.ranges);
    if a.ranges == [] {
      assert Acks(a, a.lowest);
    } else {
      ParsedRanges(a);
    }
  }
}
