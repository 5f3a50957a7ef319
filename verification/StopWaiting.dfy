/** When the number announced in STOP_WAITING frames is at or below every packet still in flight. */
module StopWaitingTruth {
  import opened ReceivedPackets
  import opened PacketLists
  import opened AckFrames
  import opened SentPackets
  import opened SentRuns

  /** Every packet in flight is at or above the number announced next. */
  ghost predicate Truthful(c: Core) {
    forall p :: p in c.history ==> c.waiting.next <= p.number
  }

  // ---------- packets that leave for the queue ----------

  /** After a list of retransmissions the announcement is at most `n` exactly when it was and all numbers are below `n`. */
  lemma {:induction false} PastAllAtMost(w: Waiting, ps: seq<Packet>, n: nat)
    ensures w.PastAll(ps).next <= n <==> w.next <= n && forall p :: p in ps ==> p.number < n
  {
    if ps != [] {
      PastAllAtMost(w, ps[..|ps| - 1], n);
      assert ps == ps[..|ps| - 1] + [ps[|ps| - 1]];
    }
  }

  /** Every packet that passes the test is older than every packet that does not. */
  ghost predicate OlderFirst(h: seq<Packet>, t: Packet -> bool) {
    forall p, q :: p in h && q in h && t(p) && !t(q) ==> p.number < q.number
  }

  /** Queueing packets for retransmission keeps the announcement truthful exactly when they are the oldest ones. */
  lemma {:induction false} QueuedTruthfulIff(c: Core, t: Packet -> bool)
    requires c.Ok() && Truthful(c)
    ensures Truthful(c.Queued(t)) <==> OlderFirst(c.history, t)
  {
    var gone := Taken(c.history, t);
    forall q | q in c.history && !t(q)
      ensures c.Queued(t).waiting.next <= q.number <==> forall p :: p in c.history && t(p) ==> p.number < q.number
    {
      PastAllAtMost(c.waiting, gone, q.number);
      forall p ensures p in gone <==> p in c.history && t(p) { TakenIn(c.history, t, p); }
    }
    forall q ensures q in c.Queued(t).history <==> q in c.history && !t(q) { RestIn(c.history, t, q); }
  }

  /** A tail loss probe keeps it exactly when no more than one packet is in flight. */
  lemma {:induction false} ProbedTruthfulIff(c: Core)
    requires c.Ok() && Truthful(c)
    ensures Truthful(c.Probed()) <==> |c.history| <= 1
  {
    var h := c.history;
    if h != [] {
      var t := ByNumber(h[|h| - 1].number);
      QueuedTruthfulIff(c, t);
      if |h| > 1 {
        assert Less(h, 0, |h| - 1);
        assert h[|h| - 1] in h && h[0] in h && t(h[|h| - 1]) && !t(h[0]);
      }
    }
  }

  /** Everything older than an overdue packet is overdue. */
  ghost predicate OverdueFirst(c: Core, late: nat -> bool) {
    forall p, q :: p in c.history && q in c.history && q.number < p.number <= c.largestAcked && late(p.number) ==> late(q.number)
  }

  lemma OverdueFirstIff(c: Core, late: nat -> bool)
    ensures OlderFirst(c.history, c.Lost(late)) <==> OverdueFirst(c, late)
  {
    var t := c.Lost(late);
    if OverdueFirst(c, late) {
      forall p, q | p in c.history && q in c.history && t(p) && !t(q) ensures p.number < q.number {
        assert q.number < p.number <= c.largestAcked ==> late(q.number);
      }
    }
  }

  /** Loss detection keeps it exactly when the overdue packets are the oldest ones. */
  lemma {:induction false} LossTruthfulIff(c: Core, late: nat -> bool)
    requires c.Ok() && Truthful(c)
    ensures Truthful(c.LossDetected(late)) <==> OverdueFirst(c, late)
  {
    OverdueFirstIff(c, late);
    QueuedTruthfulIff(c.(lossTime := SomeWait(c.history, c.largestAcked, late)), c.Lost(late));
  }

  /** Retransmitting the oldest packets keeps it. */
  lemma {:induction false} OldestTruthful(c: Core, n: nat)
    requires c.Ok() && Truthful(c)
    ensures Truthful(c.Queued(c.Oldest(n)))
  {
    var h := c.history;
    var m := if n <= |h| then n else |h|;
    QueuedTruthfulIff(c, c.Oldest(n));
    forall p, q | p in h && q in h && p in h[..m] && q !in h[..m] ensures p.number < q.number {
      var i, j :| 0 <= i < m && 0 <= j < |h| && h[i] == p && h[j] == q;
      assert forall k :: 0 <= k < m ==> h[k] in h[..m];
      assert Less(h, i, j);
    }
  }

  /** So does retransmitting everything, and everything up to the largest acknowledged number. */
  lemma {:induction false} EverythingTruthful(c: Core)
    requires c.Ok() && Truthful(c)
    ensures Truthful(c.Queued(Everything)) && Truthful(c.InflightLost())
  {
    QueuedTruthfulIff(c, Everything);
    QueuedTruthfulIff(c, UpTo(c.largestAcked));
  }

  /** What the alarm may do without announcing too much. */
  ghost predicate AlarmIsTruthful(c: Core, late: nat -> bool) {
    if !c.Outstanding() then true
    else if c.lossTime then OverdueFirst(c, late)
    else c.tlpCount < MaxTailLossProbes ==> |c.history| == 1
  }

  lemma {:induction false} AlarmTruthfulIff(c: Core, late: nat -> bool, failed: bool)
    requires c.Ok() && Truthful(c)
    ensures Truthful(c.Alarmed(late, failed)) <==> AlarmIsTruthful(c, late)
  {
    if c.Outstanding() {
      if c.lossTime {
        LossTruthfulIff(c, late);
      } else if c.tlpCount < MaxTailLossProbes {
        ProbedTruthfulIff(c);
      } else if failed {
        EverythingTruthful(c);
      } else {
        OldestTruthful(c, 2);
      }
    }
  }

  // ---------- acknowledgements ----------

  lemma {:induction false} PastAllNext(w: Waiting, ps: seq<Packet>, n: nat)
    requires forall p :: p in ps ==> p.number <= n
    ensures w.PastAll(ps).Past(n).next == Max(w.next, n + 1)
  {
    if ps != [] {
      PastAllNext(w, ps[..|ps| - 1], n);
      assert ps[|ps| - 1] in ps;
    }
  }

  lemma {:induction false} AckNext(c: Core, a: AckFrame, n: nat, late: nat -> bool)
    requires c.Ok() && Processes(c, a, n)
    ensures c.Ack(a, n, late).0.waiting.next == Max(c.waiting.next, a.largest + 1)
  {
    var c1 := c.(withAck := n, largestAcked := a.largest);
    AckProcessed(c, a, n, late);
    AcknowledgedOk(c1, AckedBy(a));
    var c2 := c1.Acknowledged(AckedBy(a));
    var lost := Taken(c2.history, c2.Lost(late));
    forall p | p in lost ensures p.number <= a.largest { TakenIn(c2.history, c2.Lost(late), p); }
    PastAllNext(c.waiting, lost, a.largest);
  }

  /** Every packet up to the frame's largest number is acknowledged or overdue. */
  ghost predicate Decided(c: Core, a: AckFrame, late: nat -> bool) {
    forall p :: p in c.history && p.number <= a.largest ==> Acks(a, p.number) || late(p.number)
  }

  /** An acknowledgement keeps it exactly when it leaves nothing undecided below its largest number. */
  lemma {:induction false} AckTruthfulIff(c: Core, a: AckFrame, n: nat, late: nat -> bool)
    requires c.Ok() && Truthful(c)
    ensures Truthful(c.Ack(a, n, late).0) <==> (Processes(c, a, n) ==> Decided(c, a, late))
  {
    var c' := c.Ack(a, n, late).0;
    if Processes(c, a, n) {
      AckNext(c, a, n, late);
      forall p ensures p in c'.history <==>
        p in c.history && !Acks(a, p.number) && !(p.number <= a.largest && late(p.number))
      {
        AckLeaves(c, a, n, late, p);
      }
    } else {
      AckIgnored(c, a, n, late);
    }
  }

  /** A closing frame always keeps it. */
  lemma {:induction false} CloseTruthful(c: Core, a: AckFrame, n: nat)
    requires c.Ok() && Truthful(c)
    ensures Truthful(c.ClosePath(a, n).0)
  {
    if Closes(c, a, n) {
      var c0 := c.(withAck := n);
      AcknowledgedOk(c0, AckedBy(a));
      var c1 := c0.Acknowledged(AckedBy(a));
      forall p | p in c1.history ensures c1.waiting.next <= p.number { RestIn(c0.history, AckedBy(a), p); }
      EverythingTruthful(c1);
    }
  }

  // ---------- every operation ----------

  /** The exact condition for an operation to keep the announcement truthful. */
  ghost predicate KeepsTruth(c: Core, op: SentRuns.Op) {
    match op
    case Ack(a, n, late) => Processes(c, a, n) ==> Decided(c, a, late)
    case Alarm(late, _) => AlarmIsTruthful(c, late)
    case _ => true
  }

  lemma {:induction false} StepTruthfulIff(s: State, op: SentRuns.Op)
    requires Inv(s) && Truthful(s.core)
    ensures Truthful(Step(s, op).core) <==> KeepsTruth(s.core, op)
  {
    match op
    case Send(p) => SendTruthful(s.core, p);
    case Ack(a, n, late) => AckTruthfulIff(s.core, a, n, late);
    case ClosePath(a, n) => CloseTruthful(s.core, a, n);
    case Alarm(late, failed) => AlarmTruthfulIff(s.core, late, failed);
    case InflightLost => EverythingTruthful(s.core);
    case Dequeue =>
    case Duplicate(p) =>
    case StopWaiting(force) =>
  }

  /** In every run whose announcement is truthful so far, the next operation keeps it so exactly then. */
  lemma {:induction false} RunTruthfulIff(ops: seq<SentRuns.Op>, op: SentRuns.Op)
    requires Truthful(Run(ops).core)
    ensures Truthful(Run(ops + [op]).core) <==> KeepsTruth(Run(ops).core, op)
  {
    var all := ops + [op];
    assert all[..|all| - 1] == ops && all[|all| - 1] == op;
    StepTruthfulIff(Run(ops), op);
  }

  /** Packets are stamped as they are sent, so a later one has a later time. */
  ghost predicate Rising(sendTime: nat -> int) {
    forall a, b :: a <= b ==> sendTime(a) <= sendTime(b)
  }

  function Overdue(sendTime: nat -> int, now: int, delay: int): nat -> bool {
    (number: nat) => now - sendTime(number) > delay
  }

  /** By the clock the overdue packets are always the oldest ones: loss detection never spoils the
      announcement, and an alarm does exactly when it probes with more than one packet in flight. */
  lemma {:induction false} ClockKeepsTruth(c: Core, sendTime: nat -> int, now: int, delay: int, failed: bool)
    requires c.Ok() && Truthful(c) && Rising(sendTime)
    ensures Truthful(c.LossDetected(Overdue(sendTime, now, delay)))
    ensures Truthful(c.Alarmed(Overdue(sendTime, now, delay), failed)) <==>
      (c.Outstanding() && !c.lossTime && c.tlpCount < MaxTailLossProbes ==> |c.history| == 1)
  {
    var late := Overdue(sendTime, now, delay);
    forall p, q | p in c.history && q in c.history && q.number < p.number <= c.largestAcked && late(p.number)
      ensures late(q.number)
    {
      assert sendTime(q.number) <= sendTime(p.number);
    }
    LossTruthfulIff(c, late);
    AlarmTruthfulIff(c, late, failed);
  }

  lemma {:induction false} SendTruthful(c: Core, p: Packet)
    requires Truthful(c) && c.waiting.next <= c.lastSent + 1
    ensures Truthful(c.Send(p).0)
  {
  }

  // ---------- it can fail ----------

  const TwoSent: Core :=
    Core(2, [], 0, 0, [Packet(1, [Listed(0)], 0), Packet(2, [Listed(0)], 0)], [], 0, 0, 0, false, Waiting(0, 0, None))

  lemma {:induction false} SendNext(c: Core, p: Packet)
    requires p.number == c.lastSent + 1 && |p.frames| == 1 && p.frames[0].Listed?
    requires |c.queue| + |c.history| < MaxTrackedSentPackets
    ensures c.Send(p).0 == c.(lastSent := p.number, history := c.history + [p], inFlight := c.inFlight + p.length)
  {
    assert Stripped(p.frames) == Stripped(p.frames[..0]) + [p.frames[0]];
    assert Stripped(p.frames) == p.frames;
    assert p.(frames := Stripped(p.frames)) == p;
  }

  lemma {:induction false} SendTwo(c: Core, p: Packet, q: Packet)
    requires p.number == c.lastSent + 1 && |p.frames| == 1 && p.frames[0].Listed?
    requires q.number == p.number + 1 && |q.frames| == 1 && q.frames[0].Listed?
    requires |c.queue| + |c.history| + 1 < MaxTrackedSentPackets
    ensures c.Send(p).0.Send(q).0 ==
            c.(lastSent := q.number, history := c.history + [p] + [q], inFlight := c.inFlight + p.length + q.length)
  {
    SendNext(c, p);
    SendNext(c.Send(p).0, q);
  }

  const TwoSends: seq<SentRuns.Op> := [Send(Packet(1, [Listed(0)], 0)), Send(Packet(2, [Listed(0)], 0))]

  lemma {:induction false} TwoSentReached()
    ensures Run(TwoSends).core == TwoSent
  {
    var c, h := Initial.core, TwoSent.history;
    assert c.history + [h[0]] + [h[1]] == h;
    assert c.(lastSent := 2, history := h, inFlight := 0) == TwoSent;
    SendTwo(c, h[0], h[1]);
    RunTwo(TwoSends[0], TwoSends[1]);
  }

  lemma {:induction false} RunTwo(a: SentRuns.Op, b: SentRuns.Op)
    ensures Step(Initial, a).core.Ok() && Run([a, b]) == Step(Step(Initial, a), b)
  {
    assert [a, b][..1] == [a] && [a][..0] == [];
    assert Run([a]) == Step(Initial, a);
  }

  lemma {:induction false} TwoSentTruthful()
    ensures TwoSent.Ok() && Truthful(TwoSent)
  {
    var h := TwoSent.history;
    assert Total(h) == Total(h[..1]) + 0 && Total(h[..1]) == 0;
  }

  const NeverLate: nat -> bool := _ => false

  lemma {:induction false} TwoSentSpoiled()
    ensures !KeepsTruth(TwoSent, SentRuns.Op.Ack(AckFrame(2, 2, []), 1, NeverLate))
    ensures !KeepsTruth(TwoSent, SentRuns.Op.Alarm(NeverLate, false))
  {
    var h := TwoSent.history;
    assert h[0] in h && !Acks(AckFrame(2, 2, []), 1);
    assert h[0].frames[0].Listed? && IsRetransmittable(h[0]);
  }

  /** Packet 1 is still in flight when packet 2 is acknowledged, and 3 is announced. */
  lemma {:induction false} AckCanFail()
    ensures Truthful(Run(TwoSends).core) && !Truthful(Run(TwoSends + [SentRuns.Op.Ack(AckFrame(2, 2, []), 1, NeverLate)]).core)
  {
    TwoSentReached();
    TwoSentTruthful();
    TwoSentSpoiled();
    RunTruthfulIff(TwoSends, SentRuns.Op.Ack(AckFrame(2, 2, []), 1, NeverLate));
  }

  /** So it is when a tail loss probe sends packet 2 again. */
  lemma {:induction false} ProbeCanFail()
    ensures Truthful(Run(TwoSends).core) && !Truthful(Run(TwoSends + [SentRuns.Op.Alarm(NeverLate, false)]).core)
  {
    TwoSentReached();
    TwoSentTruthful();
    TwoSentSpoiled();
    RunTruthfulIff(TwoSends, SentRuns.Op.Alarm(NeverLate, false));
  }
}
