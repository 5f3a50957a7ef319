/** Every run of the sending side: where each packet is, and how many bytes are in flight. */
module SentRuns {
  import opened ReceivedPackets
  import opened PacketLists
  import opened AckFrames
  import opened SentPackets
  import opened Folds

  /** What happened to packets so far: sent retransmittably, acknowledged, declared lost, queued as an
      extra copy, taken from the queue. */
  datatype Ledger = Ledger(sent: seq<Packet>, acked: seq<Packet>, lost: seq<Packet>, copies: seq<Packet>, dequeued: seq<Packet>)

  datatype State = State(core: Core, ledger: Ledger)

  datatype Op =
    | Send(packet: Packet)
    | Ack(frame: AckFrame, withNumber: nat, late: nat -> bool)
    | ClosePath(frame: AckFrame, withNumber: nat)
    | Alarm(late: nat -> bool, failed: bool)
    | InflightLost
    | Dequeue
    | Duplicate(packet: Packet)
    | StopWaiting(force: bool)

  const Initial := State(Core(0, [], 0, 0, [], [], 0, 0, 0, false, Waiting(0, 0, None)), Ledger([], [], [], [], []))

  // ---------- the two ways out of flight ----------

  ghost function AckMove(s: State, t: Packet -> bool): State
    requires s.core.Ok()
  {
    State(s.core.Acknowledged(t), s.ledger.(acked := s.ledger.acked + Taken(s.core.history, t)))
  }

  ghost function LossMove(s: State, t: Packet -> bool): State
    requires s.core.Ok()
  {
    State(s.core.Queued(t), s.ledger.(lost := s.ledger.lost + Taken(s.core.history, t)))
  }

  // ---------- steps ----------

  /** The frame gets as far as removing packets. */
  ghost predicate Processes(c: Core, a: AckFrame, withNumber: nat) {
    a.largest <= c.lastSent && c.withAck < withNumber && c.LargestInOrderAcked() < a.largest && !c.AcksSkipped(a)
  }

  ghost predicate Closes(c: Core, a: AckFrame, withNumber: nat) {
    a.largest <= c.lastSent && c.withAck < withNumber && !c.AcksSkipped(a)
  }

  ghost function SendStep(s: State, p: Packet): State {
    var c := s.core.Send(p).0;
    State(c, s.ledger.(sent := s.ledger.sent + Added(s.core.history, c.history)))
  }

  ghost function Added(before: seq<Packet>, after: seq<Packet>): seq<Packet> {
    if |before| <= |after| then after[|before|..] else []
  }

  /** The ledger after an operation left the core `c`: what was appended to the queue is lost. */
  ghost function Booked(s: State, c: Core, gone: seq<Packet>): State {
    State(c, s.ledger.(acked := s.ledger.acked + gone, lost := s.ledger.lost + Added(s.core.queue, c.queue)))
  }

  ghost function AckStep(s: State, a: AckFrame, n: nat, late: nat -> bool): State
    requires s.core.Ok()
  {
    Booked(s, s.core.Ack(a, n, late).0, if Processes(s.core, a, n) then Taken(s.core.history, AckedBy(a)) else [])
  }

  ghost function CloseStep(s: State, a: AckFrame, n: nat): State
    requires s.core.Ok()
  {
    Booked(s, s.core.ClosePath(a, n).0, if Closes(s.core, a, n) then Taken(s.core.history, AckedBy(a)) else [])
  }

  ghost function Step(s: State, op: Op): State
    requires s.core.Ok()
  {
    match op
    case Send(p) => SendStep(s, p)
    case Ack(a, n, late) => AckStep(s, a, n, late)
    case ClosePath(a, n) => CloseStep(s, a, n)
    case Alarm(late, failed) => Booked(s, s.core.Alarmed(late, failed), [])
    case InflightLost => Booked(s, s.core.InflightLost(), [])
    case Dequeue => DequeueStep(s)
    case Duplicate(p) => State(s.core.(queue := s.core.queue + [p]), s.ledger.(copies := s.ledger.copies + [p]))
    case StopWaiting(force) => State(s.core.(waiting := s.core.waiting.Get(force).0), s.ledger)
  }

  ghost function DequeueStep(s: State): State {
    if s.core.queue == [] then s
    else State(s.core.(queue := s.core.queue[1..]), s.ledger.(dequeued := s.ledger.dequeued + [s.core.queue[0]]))
  }

  ghost function Run(ops: seq<Op>): (s: State)
    ensures Inv(s)
  {
    if ops == [] then InitialInv(); Initial
    else
      var s := Run(ops[..|ops| - 1]);
      StepKeepsInv(s, ops[|ops| - 1]);
      Step(s, ops[|ops| - 1])
  }

  // ---------- the invariant ----------

  ghost predicate WaitingOk(w: Waiting, lastSent: nat) {
    && w.next <= lastSent + 1 && w.sent <= w.next
    && (w.last.None? <==> w.sent == 0)
    && (w.last.Some? ==> 1 <= w.last.value <= w.sent)
  }

  /** Each packet sent is in one place, and the queue holds the lost packets and the copies not yet taken. */
  ghost predicate Balanced(c: Core, l: Ledger) {
    && multiset(l.sent) == multiset(c.history) + multiset(l.acked) + multiset(l.lost)
    && multiset(c.queue) + multiset(l.dequeued) == multiset(l.lost) + multiset(l.copies)
  }

  ghost predicate Inv(s: State) {
    && s.core.Ok()
    && Balanced(s.core, s.ledger)
    && Increasing(s.ledger.sent)
    && (forall p :: p in s.ledger.sent ==> p.number <= s.core.lastSent && p.frames != [])
    && WaitingOk(s.core.waiting, s.core.lastSent)
    && |s.core.history| + |s.core.queue| <= MaxTrackedSentPackets + |s.ledger.copies|
  }

  lemma InitialInv()
    ensures Inv(Initial)
  {
  }

  // ---------- moves ----------

  lemma AckMoveInv(s: State, t: Packet -> bool)
    requires Inv(s)
    ensures Inv(AckMove(s, t))
  {
    AcknowledgedOk(s.core, t);
    TakenConserves(s.core.history, t);
  }

  lemma {:induction false} PastAllOk(w: Waiting, ps: seq<Packet>, lastSent: nat)
    requires WaitingOk(w, lastSent) && forall p :: p in ps ==> p.number <= lastSent
    ensures WaitingOk(w.PastAll(ps), lastSent)
  {
    if ps != [] {
      PastAllOk(w, ps[..|ps| - 1], lastSent);
      assert ps[|ps| - 1] in ps;
    }
  }

  lemma LossBalanced(c: Core, l: Ledger, gone: seq<Packet>, rest: seq<Packet>, c': Core, l': Ledger)
    requires Balanced(c, l) && multiset(c.history) == multiset(gone) + multiset(rest)
    requires c'.history == rest && c'.queue == c.queue + gone && l' == l.(lost := l.lost + gone)
    ensures Balanced(c', l')
  {
    var g := multiset(gone);
    assert multiset(c'.queue) == multiset(c.queue) + g && multiset(l'.lost) == multiset(l.lost) + g;
    assert multiset(l.sent) == multiset(rest) + multiset(l.acked) + (multiset(l.lost) + g);
    AddToBoth(multiset(c.queue), multiset(l.dequeued), multiset(l.lost), multiset(l.copies), g);
  }

  lemma LossMoveInv(s: State, t: Packet -> bool)
    requires Inv(s)
    ensures Inv(LossMove(s, t))
  {
    var gone := Taken(s.core.history, t);
    var s' := LossMove(s, t);
    QueuedOk(s.core, t);
    TakenConserves(s.core.history, t);
    LossBalanced(s.core, s.ledger, gone, Rest(s.core.history, t), s'.core, s'.ledger);
    assert WaitingOk(s'.core.waiting, s'.core.lastSent) by {
      forall p | p in gone ensures p.number <= s.core.lastSent { TakenIn(s.core.history, t, p); }
      PastAllOk(s.core.waiting, gone, s.core.lastSent);
    }
  }

  // ---------- each step ----------

  lemma SendBalanced(s: State, kept: Packet, c': Core, l': Ledger)
    requires Inv(s) && kept.number > s.core.lastSent && kept.frames != []
    requires c'.history == s.core.history + [kept] && c'.queue == s.core.queue
    requires l' == s.ledger.(sent := s.ledger.sent + [kept])
    ensures Balanced(c', l') && Increasing(l'.sent)
  {
    SnocIncreasing(s.ledger.sent, kept);
  }

  lemma TrackedInv(s: State, kept: Packet, skipped: seq<nat>)
    requires Inv(s) && kept.number > s.core.lastSent && kept.frames != []
    requires |skipped| <= MaxTrackedSkippedPackets
    requires |s.core.queue| + |s.core.history| + 1 <= MaxTrackedSentPackets
    ensures Inv(State(
      s.core.(lastSent := kept.number, skipped := skipped, history := s.core.history + [kept], inFlight := s.core.inFlight + kept.length),
      s.ledger.(sent := s.ledger.sent + [kept])))
  {
    var c := s.core.(lastSent := kept.number, skipped := skipped, history := s.core.history + [kept], inFlight := s.core.inFlight + kept.length);
    SendOkCore(s.core, kept, c);
    SendBalanced(s, kept, c, s.ledger.(sent := s.ledger.sent + [kept]));
  }

  lemma UntrackedInv(s: State, n: nat, skipped: seq<nat>)
    requires Inv(s) && n > s.core.lastSent && |skipped| <= MaxTrackedSkippedPackets
    ensures Inv(s.(core := s.core.(lastSent := n, skipped := skipped)))
  {
  }

  lemma SendKeepsInv(s: State, p: Packet)
    requires Inv(s)
    ensures Inv(SendStep(s, p))
  {
    var h := s.core.history;
    var skipped := SkipAll(s.core.skipped, s.core.lastSent + 1, p.number);
    SkipAllShort(s.core.skipped, s.core.lastSent + 1, p.number);
    var kept := p.(frames := Stripped(p.frames));
    assert h[|h|..] == [] && (h + [kept])[|h|..] == [kept];
    assert s.ledger.sent + [] == s.ledger.sent;
    if s.core.Send(p).1 != SendOk {
      assert SendStep(s, p) == s;
    } else if kept.frames == [] {
      UntrackedInv(s, p.number, skipped);
      assert SendStep(s, p) == s.(core := s.core.(lastSent := p.number, skipped := skipped));
    } else {
      TrackedInv(s, kept, skipped);
      assert SendStep(s, p).ledger.sent == s.ledger.sent + [kept];
    }
  }

  /** Operations that only queue packets are a loss move. */
  lemma BookedQueued(s: State, t: Packet -> bool, c: Core)
    requires Inv(s)
    requires c == s.core.Queued(t).(tlpCount := c.tlpCount, rtoCount := c.rtoCount, lossTime := c.lossTime)
    ensures Inv(Booked(s, c, []))
  {
    LossMoveInv(s, t);
    assert Added(s.core.queue, c.queue) == Taken(s.core.history, t);
    assert s.ledger.acked + [] == s.ledger.acked;
  }

  lemma AlarmKeepsInv(s: State, late: nat -> bool, failed: bool)
    requires Inv(s)
    ensures Inv(Booked(s, s.core.Alarmed(late, failed), []))
  {
    var c := s.core;
    var c' := c.Alarmed(late, failed);
    if !c.Outstanding() {
      BookedNothing(s, c');
    } else if c.lossTime {
      LossBooked(s, late);
    } else if c.tlpCount < MaxTailLossProbes {
      BookedQueued(s, ByNumber(c.history[|c.history| - 1].number), c');
    } else {
      BookedQueued(s, if failed then Everything else c.Oldest(2), c');
    }
  }

  lemma BookedNothing(s: State, c: Core)
    requires Inv(s) && c == s.core.(withAck := c.withAck, largestAcked := c.largestAcked)
    ensures Inv(Booked(s, c, []))
  {
    assert Added(s.core.queue, c.queue) == [];
    assert s.ledger.acked + [] == s.ledger.acked && s.ledger.lost + [] == s.ledger.lost;
  }

  lemma LossBooked(s: State, late: nat -> bool)
    requires Inv(s)
    ensures Inv(Booked(s, s.core.LossDetected(late), []))
  {
    BookedQueued(s, s.core.Lost(late), s.core.LossDetected(late));
  }

  lemma DequeueKeepsInv(s: State)
    requires Inv(s)
    ensures Inv(DequeueStep(s))
  {
    var q := s.core.queue;
    if q != [] {
      assert q == [q[0]] + q[1..];
      assert multiset(q) == multiset{q[0]} + multiset(q[1..]);
    }
  }

  lemma DuplicateKeepsInv(s: State, p: Packet)
    requires Inv(s)
    ensures Inv(State(s.core.(queue := s.core.queue + [p]), s.ledger.(copies := s.ledger.copies + [p])))
  {
    AddToBoth(multiset(s.core.queue), multiset(s.ledger.dequeued), multiset(s.ledger.copies), multiset(s.ledger.lost), multiset{p});
    assert multiset(s.core.queue + [p]) == multiset(s.core.queue) + multiset{p};
    assert multiset(s.ledger.copies + [p]) == multiset(s.ledger.copies) + multiset{p};
  }

  lemma StopWaitingKeepsInv(s: State, force: bool)
    requires Inv(s)
    ensures Inv(State(s.core.(waiting := s.core.waiting.Get(force).0), s.ledger))
  {
  }

  lemma StepKeepsInv(s: State, op: Op)
    requires Inv(s)
    ensures Inv(Step(s, op))
  {
    match op
    case Send(p) => SendKeepsInv(s, p);
    case Ack(a, n, late) => AckKeepsInv(s, a, n, late);
    case ClosePath(a, n) => CloseKeepsInv(s, a, n);
    case Alarm(late, failed) => AlarmKeepsInv(s, late, failed);
    case InflightLost => BookedQueued(s, UpTo(s.core.largestAcked), s.core.InflightLost());
    case Dequeue => DequeueKeepsInv(s);
    case Duplicate(p) => DuplicateKeepsInv(s, p);
    case StopWaiting(force) => StopWaitingKeepsInv(s, force);
  }

  /** Acknowledging some packets and then losing some of the others. */
  lemma AckThenLoss(s: State, t: Packet -> bool, c1: Core, u: Packet -> bool, c: Core)
    requires Inv(s) && c1 == s.core.Acknowledged(t) && c1.Ok()
    requires c == c1.Queued(u).(lossTime := c.lossTime)
    ensures Inv(Booked(s, c, Taken(s.core.history, t)))
  {
    AckMoveInv(s, t);
    var s' := AckMove(s, t);
    BookedQueued(s', u, c);
    assert s'.ledger.acked + [] == s'.ledger.acked;
    assert Booked(s', c, []) == Booked(s, c, Taken(s.core.history, t));
  }

  lemma DetectedInv(s: State, a: AckFrame, late: nat -> bool, c1: Core)
    requires Inv(s) && c1 == s.core.Acknowledged(AckedBy(a)) && c1.Ok()
    ensures Inv(Booked(s, c1.LossDetected(late), Taken(s.core.history, AckedBy(a))))
  {
    AckThenLoss(s, AckedBy(a), c1, c1.Lost(late), c1.LossDetected(late));
  }

  lemma AppliedInv(s: State, a: AckFrame, late: nat -> bool)
    requires Inv(s) && a.largest <= s.core.lastSent
    ensures Inv(Booked(s, s.core.AckApplied(a, late), Taken(s.core.history, AckedBy(a))))
  {
    AcknowledgedOk(s.core, AckedBy(a));
    var c1 := s.core.Acknowledged(AckedBy(a));
    DetectedInv(s, a, late, c1);
    CollectedInv(Booked(s, c1.LossDetected(late), Taken(s.core.history, AckedBy(a))), a.largest);
  }

  /** A frame that is refused or ignored leaves every packet where it is. */
  lemma AckIgnored(c: Core, a: AckFrame, n: nat, late: nat -> bool)
    requires c.Ok() && !Processes(c, a, n)
    ensures var c' := c.Ack(a, n, late).0; c' == c.(withAck := c'.withAck, largestAcked := c'.largestAcked)
  {
  }

  lemma AckProcessed(c: Core, a: AckFrame, n: nat, late: nat -> bool)
    requires c.Ok() && Processes(c, a, n)
    ensures c.Ack(a, n, late) == (c.(withAck := n, largestAcked := a.largest).AckApplied(a, late), AckOk)
  {
  }

  lemma AckKeepsInv(s: State, a: AckFrame, n: nat, late: nat -> bool)
    requires Inv(s)
    ensures Inv(AckStep(s, a, n, late))
  {
    if Processes(s.core, a, n) {
      var s1 := s.(core := s.core.(withAck := n, largestAcked := a.largest));
      AppliedInv(s1, a, late);
      AckProcessed(s.core, a, n, late);
      assert AckStep(s, a, n, late) == Booked(s1, s1.core.AckApplied(a, late), Taken(s.core.history, AckedBy(a)));
    } else {
      AckIgnored(s.core, a, n, late);
      BookedNothing(s, s.core.Ack(a, n, late).0);
    }
  }

  lemma CollectedInv(s: State, n: nat)
    requires Inv(s) && n <= s.core.lastSent
    ensures Inv(s.(core := s.core.Collected().(waiting := s.core.waiting.Past(n))))
    ensures Inv(s.(core := s.core.Collected()))
  {
    CollectedShort(s.core.skipped, s.core.LargestInOrderAcked());
  }

  lemma CloseKeepsInv(s: State, a: AckFrame, n: nat)
    requires Inv(s)
    ensures Inv(CloseStep(s, a, n))
  {
    if !Closes(s.core, a, n) {
      BookedNothing(s, s.core.ClosePath(a, n).0);
    } else {
      var s1 := s.(core := s.core.(withAck := n));
      AcknowledgedOk(s1.core, AckedBy(a));
      var c1 := s1.core.Acknowledged(AckedBy(a));
      var c := c1.InflightLost();
      AckThenLoss(s1, AckedBy(a), c1, UpTo(c1.largestAcked), c);
      CollectedInv(Booked(s1, c, Taken(s.core.history, AckedBy(a))), 0);
    }
  }

  // ---------- what every run keeps ----------

  lemma {:induction false} CountOne(h: seq<Packet>, p: Packet)
    requires Increasing(h)
    ensures multiset(h)[p] == if p in h then 1 else 0
  {
    if h != [] {
      var k := |h| - 1;
      PrefixIncreasing(h, k);
      CountOne(h[..k], p);
      assert h == h[..k] + [h[k]];
    }
  }

  function Count(h: seq<Packet>, p: Packet): nat { multiset(h)[p] }

  /** A packet sent is in flight, acknowledged or lost: in exactly one of the three, and once. */
  lemma EveryPacketInOnePlace(ops: seq<Op>, p: Packet)
    ensures var s := Run(ops);
      Count(s.core.history, p) + Count(s.ledger.acked, p) + Count(s.ledger.lost, p) == if p in s.ledger.sent then 1 else 0
    ensures var s := Run(ops);
      Count(s.core.queue, p) + Count(s.ledger.dequeued, p) == Count(s.ledger.lost, p) + Count(s.ledger.copies, p)
  {
    var s := Run(ops);
    CountOne(s.ledger.sent, p);
    assert multiset(s.ledger.sent)[p] == (multiset(s.core.history) + multiset(s.ledger.acked) + multiset(s.ledger.lost))[p];
    assert (multiset(s.core.queue) + multiset(s.ledger.dequeued))[p] == (multiset(s.ledger.lost) + multiset(s.ledger.copies))[p];
  }

  /** The list in flight is in order and its bytes are counted; copies apart, the tracked packets are bounded. */
  lemma FlightIsCounted(ops: seq<Op>)
    ensures var c := Run(ops).core; Increasing(c.history) && c.inFlight == Total(c.history)
    ensures var s := Run(ops); |s.core.history| + |s.core.queue| <= MaxTrackedSentPackets + |s.ledger.copies|
  {
    assert Inv(Run(ops));
  }

  /** A stop-waiting frame names a positive number not above the next packet number. */
  lemma StopWaitingBounds(ops: seq<Op>, force: bool)
    ensures var c := Run(ops).core;
      var frame := c.waiting.Get(force).1; frame.Some? ==> 1 <= frame.value <= c.lastSent + 1
  {
    assert Inv(Run(ops));
  }

  // ---------- what one acknowledgement does ----------

  /** Exactly the packets that are neither acknowledged nor overdue stay in flight. */
  lemma AckLeaves(c: Core, a: AckFrame, n: nat, late: nat -> bool, p: Packet)
    requires c.Ok() && Processes(c, a, n)
    ensures p in c.Ack(a, n, late).0.history <==>
      p in c.history && !Acks(a, p.number) && !(p.number <= a.largest && late(p.number))
  {
    var c1 := c.(withAck := n, largestAcked := a.largest);
    AckProcessed(c, a, n, late);
    AcknowledgedOk(c1, AckedBy(a));
    var c2 := c1.Acknowledged(AckedBy(a));
    RestIn(c1.history, AckedBy(a), p);
    RestIn(c2.history, c2.Lost(late), p);
  }

  /** After a closing frame exactly the packets it does not acknowledge above the largest acknowledged number are in flight. */
  lemma CloseLeaves(c: Core, a: AckFrame, n: nat, p: Packet)
    requires c.Ok() && Closes(c, a, n)
    ensures p in c.ClosePath(a, n).0.history <==> p in c.history && !Acks(a, p.number) && p.number > c.largestAcked
  {
    var c1 := c.(withAck := n);
    AcknowledgedOk(c1, AckedBy(a));
    var c2 := c1.Acknowledged(AckedBy(a));
    RestIn(c1.history, AckedBy(a), p);
    RestIn(c2.history, UpTo(c2.largestAcked), p);
  }
}
