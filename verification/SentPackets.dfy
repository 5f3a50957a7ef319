/** The sending side of acknowledgement: packets in flight, acknowledged, and queued for retransmission. */
module SentPackets {
  import opened ReceivedPackets
  import opened PacketLists
  import opened AckFrames

  const MaxTrackedSentPackets: nat := 5000
  const MaxTrackedSkippedPackets: nat := 10
  const MaxTailLossProbes: nat := 2

  /** The stop-waiting manager: the largest number announced, the next one to announce, the last frame. */
  datatype Waiting = Waiting(sent: nat, next: nat, last: Option<nat>) {
    function Get(force: bool): (Waiting, Option<nat>) {
      if next <= sent then
        if force then
          var l := if last.None? && sent > 0 then Some(next) else last;
          (this.(last := l), l)
        else (this, None)
      else (this.(sent := next, last := Some(next)), Some(next))
    }

    /** Both an acknowledgement of `p` and a retransmission of `p` move the announcement past `p`. */
    function Past(p: nat): Waiting {
      if p >= next then this.(next := p + 1) else this
    }

    function PastAll(ps: seq<Packet>): Waiting {
      if ps == [] then this else PastAll(ps[..|ps| - 1]).Past(ps[|ps| - 1].number)
    }
  }

  datatype Core = Core(
    lastSent: nat, skipped: seq<nat>, largestAcked: nat, withAck: nat,
    history: seq<Packet>, queue: seq<Packet>, inFlight: nat,
    tlpCount: nat, rtoCount: nat, lossTime: bool, waiting: Waiting)
  {
    ghost predicate Ok() {
      && Increasing(history)
      && (forall p :: p in history ==> p.number <= lastSent)
      && inFlight == Total(history)
      && |skipped| <= MaxTrackedSkippedPackets
    }

    function LargestInOrderAcked(): int {
      if history != [] then history[0].number - 1 else largestAcked
    }

    /** Packets that pass the test leave as acknowledged. */
    function Acknowledged(t: Packet -> bool): Core
      requires Ok()
    {
      var gone := Taken(history, t);
      TakenTotal(history, t);
      this.(history := Rest(history, t), inFlight := inFlight - Total(gone),
            rtoCount := if gone == [] then rtoCount else 0, tlpCount := if gone == [] then tlpCount else 0)
    }

    /** Packets that pass the test move to the retransmission queue. */
    function Queued(t: Packet -> bool): Core
      requires Ok()
    {
      var gone := Taken(history, t);
      TakenTotal(history, t);
      this.(history := Rest(history, t), inFlight := inFlight - Total(gone),
            queue := queue + gone, waiting := waiting.PastAll(gone))
    }

    function Lost(late: nat -> bool): Packet -> bool {
      (p: Packet) => p.number <= largestAcked && late(p.number)
    }

    /** `late` tells which packets were sent long enough ago. */
    function LossDetected(late: nat -> bool): Core
      requires Ok()
    {
      this.(lossTime := SomeWait(history, largestAcked, late)).Queued(Lost(late))
    }

    function InflightLost(): Core
      requires Ok()
    {
      Queued(UpTo(largestAcked))
    }

    predicate Outstanding() {
      exists p :: p in history && IsRetransmittable(p)
    }

    /** The retransmission alarm. `failed` is the verdict of the path on a retransmission timeout. */
    function Alarmed(late: nat -> bool, failed: bool): Core
      requires Ok()
    {
      if !Outstanding() then this
      else if lossTime then LossDetected(late)
      else if tlpCount < MaxTailLossProbes then Probed()
      else TimedOut(failed)
    }

    /** A tail loss probe: the newest packet. */
    function Probed(): Core
      requires Ok()
    {
      (if history == [] then this else Queued(ByNumber(history[|history| - 1].number))).(tlpCount := tlpCount + 1)
    }

    /** A retransmission timeout: everything, or the two oldest packets. */
    function TimedOut(failed: bool): Core
      requires Ok()
    {
      Queued(if failed then Everything else Oldest(2)).(rtoCount := rtoCount + 1)
    }

    /** One of the first `n` packets in flight. */
    function Oldest(n: nat): Packet -> bool {
      (p: Packet) => p in history[..if n <= |history| then n else |history|]
    }

    function Collected(): Core {
      this.(skipped := SkippedAfter(skipped, LargestInOrderAcked()))
    }

    ghost function Ack(a: AckFrame, withNumber: nat, late: nat -> bool): (Core, AckResult)
      requires Ok()
    {
      if a.largest > lastSent then (this, AckUnsent)
      else if withNumber <= withAck then (this, AckDuplicate)
      else
        var s := this.(withAck := withNumber);
        if a.largest <= s.LargestInOrderAcked() then (s, AckOk)
        else
          var s := s.(largestAcked := a.largest);
          if AcksSkipped(a) then (s, AckSkipped)
          else
            (s.AckApplied(a, late), AckOk)
    }

    /** Remove what the frame acknowledges, then queue what it shows to be lost. */
    ghost function AckApplied(a: AckFrame, late: nat -> bool): Core
      requires Ok()
    {
      AcknowledgedOk(this, AckedBy(a));
      var s := Acknowledged(AckedBy(a)).LossDetected(late).Collected();
      s.(waiting := s.waiting.Past(a.largest))
    }

    ghost predicate AcksSkipped(a: AckFrame) {
      exists n :: n in skipped && Acks(a, n)
    }

    /** A closing frame also turns everything up to the largest acknowledged number into lost packets. */
    ghost function ClosePath(a: AckFrame, withNumber: nat): (Core, AckResult)
      requires Ok()
    {
      if a.largest > lastSent then (this, AckUnsent)
      else if withNumber <= withAck then (this, AckDuplicate)
      else
        var s := this.(withAck := withNumber);
        if AcksSkipped(a) then (s, AckSkipped)
        else
          AcknowledgedOk(s, AckedBy(a));
          (s.Acknowledged(AckedBy(a)).InflightLost().Collected(), AckOk)
    }

    function Send(p: Packet): (Core, SendResult) {
      if p.number <= lastSent then (this, NotIncreasing)
      else if |queue| + |history| + 1 > MaxTrackedSentPackets then (this, TooManyTracked)
      else
        var s := this.(lastSent := p.number, skipped := SkipAll(skipped, lastSent + 1, p.number));
        var kept := p.(frames := Stripped(p.frames));
        if kept.frames == [] then (s, SendOk)
        else (s.(history := history + [kept], inFlight := inFlight + p.length), SendOk)
    }
  }

  datatype AckResult = AckOk | AckUnsent | AckDuplicate | AckSkipped

  datatype SendResult = SendOk | NotIncreasing | TooManyTracked

  /** Some packet up to `n` is not yet overdue. */
  predicate SomeWait(h: seq<Packet>, n: nat, late: nat -> bool) {
    exists i :: 0 <= i < |h| && h[i].number <= n && !late(h[i].number)
  }

  predicate IsRetransmittable(p: Packet) {
    exists i :: 0 <= i < |p.frames| && p.frames[i].Listed?
  }

  function UpTo(n: nat): Packet -> bool { (p: Packet) => p.number <= n }

  const Everything: Packet -> bool := (p: Packet) => true

  ghost function AckedBy(a: AckFrame): Packet -> bool { (p: Packet) => Acks(a, p.number) }

  function Stripped(fs: seq<Frame>): seq<Frame> {
    if fs == [] then []
    else Stripped(fs[..|fs| - 1]) + if fs[|fs| - 1] in {StopWaiting, Frame.Ack} then [] else [fs[|fs| - 1]]
  }

  /** Only the last ten skipped numbers are remembered. */
  function SkipAll(skipped: seq<nat>, a: nat, b: nat): seq<nat>
    decreases b - a
  {
    if a >= b then skipped
    else
      var s := skipped + [a];
      SkipAll(if |s| > MaxTrackedSkippedPackets then s[1..] else s, a + 1, b)
  }

  function SkippedAfter(skipped: seq<nat>, n: int): seq<nat> {
    if skipped == [] || skipped[|skipped| - 1] <= n then []
    else SkippedAfter(skipped[..|skipped| - 1], n) + [skipped[|skipped| - 1]]
  }

  lemma AcknowledgedOk(s: Core, t: Packet -> bool)
    requires s.Ok()
    ensures s.Acknowledged(t).Ok()
  {
    TakenTotal(s.history, t);
    TakenIncreasing(s.history, Not(t));
    forall p | p in Rest(s.history, t) ensures p.number <= s.lastSent { RestIn(s.history, t, p); }
  }

  lemma QueuedOk(s: Core, t: Packet -> bool)
    requires s.Ok()
    ensures s.Queued(t).Ok()
  {
    TakenTotal(s.history, t);
    TakenIncreasing(s.history, Not(t));
    forall p | p in Rest(s.history, t) ensures p.number <= s.lastSent { RestIn(s.history, t, p); }
  }

  lemma {:induction false} SkipAllShort(skipped: seq<nat>, a: nat, b: nat)
    requires |skipped| <= MaxTrackedSkippedPackets
    ensures |SkipAll(skipped, a, b)| <= MaxTrackedSkippedPackets
    decreases b - a
  {
    if a < b {
      var s := skipped + [a];
      SkipAllShort(if |s| > MaxTrackedSkippedPackets then s[1..] else s, a + 1, b);
    }
  }

  lemma {:induction false} CollectedShort(skipped: seq<nat>, n: int)
    ensures |SkippedAfter(skipped, n)| <= |skipped|
  {
    if skipped != [] { CollectedShort(skipped[..|skipped| - 1], n); }
  }

  lemma SendOkCore(c: Core, kept: Packet, c': Core)
    requires c.Ok() && kept.number > c.lastSent && c'.lastSent == kept.number
    requires c'.history == c.history + [kept] && c'.inFlight == c.inFlight + kept.length
    requires |c'.skipped| <= MaxTrackedSkippedPackets
    ensures c'.Ok()
  {
    TotalSnoc(c.history, kept);
    SnocIncreasing(c.history, kept);
  }

  /** Each entry point keeps the books in order. */
  lemma {:induction false} SendKeepsOk(c: Core, p: Packet)
    requires c.Ok()
    ensures c.Send(p).0.Ok()
  {
    SkipAllShort(c.skipped, c.lastSent + 1, p.number);
    var kept := p.(frames := Stripped(p.frames));
    if c.Send(p).1 == SendOk && kept.frames != [] { SendOkCore(c, kept, c.Send(p).0); }
  }

  lemma {:induction false} AppliedOk(c: Core, a: AckFrame, late: nat -> bool)
    requires c.Ok()
    ensures c.AckApplied(a, late).Ok()
  {
    AcknowledgedOk(c, AckedBy(a));
    var c1 := c.Acknowledged(AckedBy(a));
    var c2 := c1.(lossTime := SomeWait(c1.history, c1.largestAcked, late));
    QueuedOk(c2, c1.Lost(late));
    var c3 := c2.Queued(c1.Lost(late));
    CollectedShort(c3.skipped, c3.LargestInOrderAcked());
  }

  lemma {:induction false} AckKeepsOk(c: Core, a: AckFrame, n: nat, late: nat -> bool)
    requires c.Ok()
    ensures c.Ack(a, n, late).0.Ok()
  {
    var c' := c.Ack(a, n, late).0;
    var c1 := c.(withAck := n, largestAcked := a.largest);
    if a.largest <= c.lastSent && n > c.withAck && a.largest > c.LargestInOrderAcked() && !c.AcksSkipped(a) {
      assert c1.Ok() && c' == c1.AckApplied(a, late);
      AppliedOk(c1, a, late);
    } else {
      assert c' == c.(withAck := c'.withAck, largestAcked := c'.largestAcked);
    }
  }

  lemma {:induction false} CloseKeepsOk(c: Core, a: AckFrame, n: nat)
    requires c.Ok()
    ensures c.ClosePath(a, n).0.Ok()
  {
    var c0 := c.(withAck := n);
    AcknowledgedOk(c0, AckedBy(a));
    var c1 := c0.Acknowledged(AckedBy(a));
    QueuedOk(c1, UpTo(c1.largestAcked));
    var c2 := c1.Queued(UpTo(c1.largestAcked));
    CollectedShort(c2.skipped, c2.LargestInOrderAcked());
  }
}
