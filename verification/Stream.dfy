/** One direction of a stream: the writer, the network between the endpoints, and the reader. */
module ByteStream {
  import opened Reassembly

  // ---------- reading ----------

  /** The reader stands at the read position or inside the head frame. */
  ghost predicate ReadOk<T>(s: Sorter<T>, readOffset: nat) {
    readOffset == s.readPosition || (s.readPosition in s.queued && s.readPosition < readOffset < s.queued[s.readPosition].End())
  }

  /** One round of Read: up to `room` bytes of the head frame, which is popped once it is used up. */
  function Take<T>(s: Sorter<T>, readOffset: nat, room: nat): (r: (seq<T>, Sorter<T>, nat))
    requires s.readPosition in s.queued && s.queued[s.readPosition].offset <= readOffset <= s.queued[s.readPosition].End()
  {
    var f := s.queued[s.readPosition];
    var pos := readOffset - f.offset;
    var m := Min(room, |f.data| - pos);
    (f.data[pos..pos + m], if pos + m >= |f.data| then Popped(s) else s, readOffset + m)
  }

  lemma HeadContains<T>(s: Sorter<T>, stream: seq<T>, readOffset: nat)
    requires Indexed(s, stream) && ReadOk(s, readOffset) && s.readPosition in s.queued
    ensures var f := s.queued[s.readPosition];
      f.offset == s.readPosition <= readOffset <= f.End() <= |stream| && f.data == stream[f.offset..f.End()]
    ensures s.queued[s.readPosition].data != [] ==> readOffset < s.queued[s.readPosition].End()
  {
    assert FrameOk(s, stream, s.readPosition);
  }

  lemma SliceOfSlice<T>(stream: seq<T>, a: nat, b: nat, i: nat, j: nat)
    requires a <= i <= j <= b <= |stream|
    ensures stream[a..b][i - a..j - a] == stream[i..j]
  {
    var t := stream[a..b];
    forall k | 0 <= k < j - i
      ensures t[i - a..j - a][k] == stream[i..j][k]
    {
      assert t[i - a..j - a][k] == t[i - a + k] == stream[a + (i - a + k)];
    }
  }

  lemma SliceJoin<T>(stream: seq<T>, a: nat, b: nat, c: nat)
    requires a <= b <= c <= |stream|
    ensures stream[a..b] + stream[b..c] == stream[a..c]
  {}

  lemma TakeBytes<T>(s: Sorter<T>, stream: seq<T>, readOffset: nat, room: nat)
    requires Indexed(s, stream) && ReadOk(s, readOffset) && s.readPosition in s.queued
    ensures s.queued[s.readPosition].offset <= readOffset <= s.queued[s.readPosition].End()
    ensures var (bytes, s', readOffset') := Take(s, readOffset, room);
      && readOffset' == readOffset + |bytes| <= s.queued[s.readPosition].End() <= |stream| && bytes == stream[readOffset..readOffset']
      && |bytes| <= room && (bytes == [] ==> room == 0 || s.queued[s.readPosition].data == [])
      && (s' == s <==> readOffset' < s.queued[s.readPosition].End())
  {
    HeadContains(s, stream, readOffset);
    var (bytes, s', readOffset') := Take(s, readOffset, room);
    SliceOfSlice(stream, s.queued[s.readPosition].offset, s.queued[s.readPosition].End(), readOffset, readOffset');
    if readOffset' == s.queued[s.readPosition].End() { assert s.readPosition !in s'.queued; }
  }

  /** A round keeps the reader consistent. */
  lemma TakeKeeps<T>(s: Sorter<T>, stream: seq<T>, readOffset: nat, room: nat)
    requires Indexed(s, stream) && ReadOk(s, readOffset) && s.readPosition in s.queued
    ensures s.queued[s.readPosition].offset <= readOffset <= s.queued[s.readPosition].End()
    ensures var (bytes, s', readOffset') := Take(s, readOffset, room); Indexed(s', stream) && ReadOk(s', readOffset')
  {
    HeadContains(s, stream, readOffset);
    TakeBytes(s, stream, readOffset, room);
    var (bytes, s', readOffset') := Take(s, readOffset, room);
    if s' != s {
      assert s' == Popped(s);
      HeadPopped(s, stream);
    }
  }

  datatype ReadStatus = Ok | Eof | WouldBlock

  // ---------- a whole Read on values ----------

  /** A frame that the reader has not passed is at the head of the queue. */
  ghost predicate HeadFits<T>(s: Sorter<T>, readOffset: nat) {
    && s.readPosition in s.queued && s.queued[s.readPosition].offset == s.readPosition
    && s.readPosition <= readOffset <= s.queued[s.readPosition].End()
  }

  /** The round uses up a frame with the end marker. */
  ghost predicate TakesEnd<T>(s: Sorter<T>, readOffset: nat, room: nat)
    requires HeadFits(s, readOffset)
  {
    s.queued[s.readPosition].fin && s.queued[s.readPosition].End() <= Take(s, readOffset, room).2
  }

  /** What a read returns and leaves behind. */
  datatype Reading<!T> = Reading(data: seq<T>, sorter: Sorter<T>, readOffset: nat, status: ReadStatus)

  /** Rounds until `len` bytes are read, a frame with the end marker is used up, or nothing is at the head. */
  ghost function Rounds<T>(s: Sorter<T>, readOffset: nat, len: nat): Reading<T>
    decreases len, |s.queued|
  {
    if len == 0 then Reading([], s, readOffset, Ok)
    else if !HeadFits(s, readOffset) then Reading([], s, readOffset, WouldBlock)
    else
      var (bytes, s', readOffset') := Take(s, readOffset, len);
      if TakesEnd(s, readOffset, len) then Reading(bytes, s', readOffset', Eof)
      else
        QueueShrinks(s, readOffset, len);
        var rest := Rounds(s', readOffset', len - |bytes|);
        rest.(data := bytes + rest.data)
  }

  /** A round without bytes uses up a frame. */
  lemma QueueShrinks<T>(s: Sorter<T>, readOffset: nat, len: nat)
    requires HeadFits(s, readOffset) && len > 0
    ensures |Take(s, readOffset, len).0| <= len
    ensures Take(s, readOffset, len).0 == [] ==> |Take(s, readOffset, len).1.queued| < |s.queued|
  {
    var (bytes, s', _) := Take(s, readOffset, len);
    if bytes == [] { assert s.queued.Keys == s'.queued.Keys + {s.readPosition}; }
  }

  lemma {:induction false} RoundsNext<T>(s: Sorter<T>, readOffset: nat, len: nat)
    requires HeadFits(s, readOffset) && len > 0 && !TakesEnd(s, readOffset, len)
    ensures var (bytes, s', readOffset') := Take(s, readOffset, len);
      |bytes| <= len && var rest := Rounds(s', readOffset', len - |bytes|); Rounds(s, readOffset, len) == rest.(data := bytes + rest.data)
  {
    QueueShrinks(s, readOffset, len);
  }

  /** The frame at `o` was used up on the way from `s` to `s'`. */
  ghost predicate UsedUp<T>(s: Sorter<T>, s': Sorter<T>, o: nat) {
    o in s.queued && o !in s'.queued
  }

  /** A read ends the stream exactly when it used up a frame with the end marker, and it never reads past one. */
  ghost predicate EndsAtMark<T>(s: Sorter<T>, s': Sorter<T>, readOffset': nat, eof: bool) {
    && (forall o :: o in s'.queued ==> o in s.queued && s'.queued[o] == s.queued[o])
    && (eof <==> exists o :: UsedUp(s, s', o) && s.queued[o].fin)
    && forall o :: UsedUp(s, s', o) && s.queued[o].fin ==> s.queued[o].End() == readOffset'
  }

  lemma {:induction false} TakeUses<T>(s: Sorter<T>, stream: seq<T>, readOffset: nat, room: nat)
    requires Indexed(s, stream) && ReadOk(s, readOffset) && HeadFits(s, readOffset)
    ensures var s' := Take(s, readOffset, room).1;
      && (forall o :: o in s'.queued ==> o in s.queued && s'.queued[o] == s.queued[o])
      && forall o :: UsedUp(s, s', o) <==> o == s.readPosition && s.queued[o].End() <= Take(s, readOffset, room).2
  {}

  /** The last round of a read that ends the stream. */
  lemma {:induction false} MarkTaken<T>(s: Sorter<T>, stream: seq<T>, readOffset: nat, len: nat)
    requires Indexed(s, stream) && ReadOk(s, readOffset) && HeadFits(s, readOffset) && TakesEnd(s, readOffset, len)
    ensures EndsAtMark(s, Take(s, readOffset, len).1, Take(s, readOffset, len).2, true)
  {
    TakeUses(s, stream, readOffset, len);
    TakeBytes(s, stream, readOffset, len);
    assert UsedUp(s, Take(s, readOffset, len).1, s.readPosition);
  }

  /** A round that does not, and the rest of the read. */
  lemma {:induction false} MarkLater<T>(s: Sorter<T>, stream: seq<T>, readOffset: nat, len: nat, r: Reading<T>)
    requires Indexed(s, stream) && ReadOk(s, readOffset) && HeadFits(s, readOffset) && !TakesEnd(s, readOffset, len)
    requires EndsAtMark(Take(s, readOffset, len).1, r.sorter, r.readOffset, r.status == Eof)
    ensures EndsAtMark(s, r.sorter, r.readOffset, r.status == Eof)
  {
    TakeUses(s, stream, readOffset, len);
    MarkThrough(s, Take(s, readOffset, len).1, r.sorter, r.readOffset, r.status == Eof);
  }

  lemma {:induction false} RoundsEndAtMark<T>(s: Sorter<T>, stream: seq<T>, readOffset: nat, len: nat)
    requires Indexed(s, stream) && ReadOk(s, readOffset)
    ensures var r := Rounds(s, readOffset, len); EndsAtMark(s, r.sorter, r.readOffset, r.status == Eof)
    decreases len, |s.queued|
  {
    if len > 0 && HeadFits(s, readOffset) {
      if TakesEnd(s, readOffset, len) {
        MarkTaken(s, stream, readOffset, len);
      } else {
        var (bytes, s', readOffset') := Take(s, readOffset, len);
        QueueShrinks(s, readOffset, len);
        RoundsNext(s, readOffset, len);
        TakeKeeps(s, stream, readOffset, len);
        RoundsEndAtMark(s', stream, readOffset', len - |bytes|);
        MarkLater(s, stream, readOffset, len, Rounds(s', readOffset', len - |bytes|));
      }
    }
  }

  /** A round that used up no mark does not change where the read ends. */
  lemma {:induction false} MarkThrough<T>(s: Sorter<T>, s': Sorter<T>, s'': Sorter<T>, readOffset: nat, eof: bool)
    requires forall o :: o in s'.queued ==> o in s.queued && s'.queued[o] == s.queued[o]
    requires (forall o :: UsedUp(s, s', o) ==> !s.queued[o].fin) && EndsAtMark(s', s'', readOffset, eof)
    ensures EndsAtMark(s, s'', readOffset, eof)
  {
    forall o | UsedUp(s, s'', o) && s.queued[o].fin
      ensures UsedUp(s', s'', o) && s'.queued[o] == s.queued[o]
    {
      assert !UsedUp(s, s', o);
    }
    if eof {
      var o :| UsedUp(s', s'', o) && s'.queued[o].fin;
      assert UsedUp(s, s'', o) && s.queued[o].fin;
    }
  }

  /** One round, as the next step of a read. */
  ghost predicate Continues<T>(s: Sorter<T>, readOffset: nat, room: nat, r: Reading<T>) {
    if !HeadFits(s, readOffset) then r == Reading([], s, readOffset, WouldBlock)
    else (r.data, r.sorter, r.readOffset) == Take(s, readOffset, room) && r.status == if TakesEnd(s, readOffset, room) then Eof else Ok
  }

  /** The end of a read of `len` bytes that got as far as `r`. */
  ghost function Onward<T>(r: Reading<T>, len: nat): Reading<T>
    requires |r.data| <= len
  {
    if r.status != Ok then r
    else
      var rest := Rounds(r.sorter, r.readOffset, len - |r.data|);
      rest.(data := r.data + rest.data)
  }

  lemma {:induction false} RoundsFirst<T>(s: Sorter<T>, readOffset: nat, len: nat, r: Reading<T>)
    requires len > 0 && |r.data| <= len && Continues(s, readOffset, len, r)
    ensures Rounds(s, readOffset, len) == Onward(r, len)
  {
    if HeadFits(s, readOffset) && !TakesEnd(s, readOffset, len) { RoundsNext(s, readOffset, len); }
  }

  lemma {:induction false} OnwardJoins<T>(data: seq<T>, len: nat, r: Reading<T>)
    requires |data| + |r.data| <= len
    ensures var end := Onward(r, len - |data|); end.(data := data + end.data) == Onward(r.(data := data + r.data), len)
  {
    if r.status == Ok {
      var rest := Rounds(r.sorter, r.readOffset, len - |data| - |r.data|);
      assert data + (r.data + rest.data) == data + r.data + rest.data;
    }
  }

  lemma {:induction false} OnwardStep<T>(data: seq<T>, s: Sorter<T>, readOffset: nat, len: nat, r: Reading<T>)
    requires |data| < len && |data| + |r.data| <= len && Continues(s, readOffset, len - |data|, r)
    ensures Onward(Reading(data, s, readOffset, Ok), len) == Onward(r.(data := data + r.data), len)
  {
    RoundsFirst(s, readOffset, len - |data|, r);
    OnwardJoins(data, len, r);
  }

  /** Frames are queued at their offsets, and the reader stands at the head. */
  ghost predicate Consistent<T>(s: Sorter<T>, readOffset: nat) {
    (forall o :: o in s.queued ==> s.queued[o].offset == o) && ReadOk(s, readOffset)
  }

  lemma {:induction false} TakeConsistent<T>(s: Sorter<T>, readOffset: nat, room: nat)
    requires Consistent(s, readOffset) && s.readPosition in s.queued
    ensures HeadFits(s, readOffset)
    ensures Consistent(Take(s, readOffset, room).1, Take(s, readOffset, room).2)
  {}

  lemma IndexedConsistent<T>(s: Sorter<T>, stream: seq<T>, readOffset: nat)
    requires Indexed(s, stream) && ReadOk(s, readOffset)
    ensures Consistent(s, readOffset)
  {
    forall o | o in s.queued ensures s.queued[o].offset == o { assert FrameOk(s, stream, o); }
  }

  /** The bytes are those of the stream, and it blocks only with nothing at the head. */
  ghost predicate Sound<T>(stream: seq<T>, readOffset: nat, len: nat, r: Reading<T>) {
    && r.readOffset == readOffset + |r.data| <= |stream| && r.data == stream[readOffset..r.readOffset] && |r.data| <= len
    && (r.status == Ok ==> |r.data| == len)
    && (r.status == WouldBlock ==> r.sorter.readPosition !in r.sorter.queued)
  }

  lemma {:induction false} SoundJoins<T>(stream: seq<T>, readOffset: nat, len: nat, bytes: seq<T>, mid: nat, rest: Reading<T>)
    requires mid == readOffset + |bytes| <= |stream| && bytes == stream[readOffset..mid] && |bytes| <= len
    requires Sound(stream, mid, len - |bytes|, rest)
    ensures Sound(stream, readOffset, len, rest.(data := bytes + rest.data))
  {
    SliceJoin(stream, readOffset, mid, rest.readOffset);
  }

  /** The round at `s` returns the next bytes of the stream. */
  ghost predicate NextBytes<T>(stream: seq<T>, s: Sorter<T>, readOffset: nat, len: nat)
    requires HeadFits(s, readOffset)
  {
    var (bytes, _, readOffset') := Take(s, readOffset, len);
    |bytes| <= len && readOffset' == readOffset + |bytes| <= |stream| && bytes == stream[readOffset..readOffset']
  }

  /** So does every round of a read. */
  ghost predicate AllNextBytes<T>(stream: seq<T>, s: Sorter<T>, readOffset: nat, len: nat)
    decreases len, |s.queued|
  {
    if len == 0 || !HeadFits(s, readOffset) then s.readPosition !in s.queued || len == 0
    else
      && NextBytes(stream, s, readOffset, len)
      && (TakesEnd(s, readOffset, len) || (
          QueueShrinks(s, readOffset, len);
          AllNextBytes(stream, Take(s, readOffset, len).1, Take(s, readOffset, len).2, len - |Take(s, readOffset, len).0|)))
  }

  lemma {:induction false} IndexedNextBytes<T>(s: Sorter<T>, stream: seq<T>, readOffset: nat, len: nat)
    requires Indexed(s, stream) && ReadOk(s, readOffset) && s.readPosition in s.queued
    ensures HeadFits(s, readOffset) && NextBytes(stream, s, readOffset, len)
  {
    HeadContains(s, stream, readOffset);
    TakeBytes(s, stream, readOffset, len);
  }

  /** `keeps` survives every round. */
  ghost predicate Survives<T(!new)>(keeps: (Sorter<T>, nat) -> bool) {
    forall s: Sorter<T>, readOffset: nat, room: nat {:trigger Take(s, readOffset, room)} ::
      keeps(s, readOffset) && HeadFits(s, readOffset) ==> keeps(Take(s, readOffset, room).1, Take(s, readOffset, room).2)
  }

  /** `keeps` means that a round returns the next bytes, and that there is one unless nothing is at the head. */
  ghost predicate Supplies<T(!new)>(stream: seq<T>, keeps: (Sorter<T>, nat) -> bool) {
    && (forall s: Sorter<T>, readOffset: nat {:trigger HeadFits(s, readOffset)} ::
          keeps(s, readOffset) ==> HeadFits(s, readOffset) || s.readPosition !in s.queued)
    && forall s: Sorter<T>, readOffset: nat, room: nat {:trigger Take(s, readOffset, room)} ::
        keeps(s, readOffset) && HeadFits(s, readOffset) ==> NextBytes(stream, s, readOffset, room)
  }

  lemma {:induction false} SuppliesAll<T(!new)>(stream: seq<T>, s: Sorter<T>, readOffset: nat, len: nat, keeps: (Sorter<T>, nat) -> bool)
    requires keeps(s, readOffset) && Survives(keeps) && Supplies(stream, keeps)
    ensures AllNextBytes(stream, s, readOffset, len)
    decreases len, |s.queued|
  {
    if len > 0 && HeadFits(s, readOffset) && !TakesEnd(s, readOffset, len) {
      QueueShrinks(s, readOffset, len);
      SuppliesAll(stream, Take(s, readOffset, len).1, Take(s, readOffset, len).2, len - |Take(s, readOffset, len).0|, keeps);
    }
  }

  lemma {:induction false} SurvivesAll<T(!new)>(s: Sorter<T>, readOffset: nat, len: nat, keeps: (Sorter<T>, nat) -> bool)
    requires keeps(s, readOffset) && Survives(keeps)
    ensures var r := Rounds(s, readOffset, len); keeps(r.sorter, r.readOffset)
    decreases len, |s.queued|
  {
    if len > 0 && HeadFits(s, readOffset) && !TakesEnd(s, readOffset, len) {
      var (bytes, s', readOffset') := Take(s, readOffset, len);
      QueueShrinks(s, readOffset, len);
      RoundsNext(s, readOffset, len);
      SurvivesAll(s', readOffset', len - |bytes|, keeps);
    }
  }

  lemma {:induction false} RoundsSound<T>(s: Sorter<T>, stream: seq<T>, readOffset: nat, len: nat)
    requires AllNextBytes(stream, s, readOffset, len) && readOffset <= |stream|
    ensures Sound(stream, readOffset, len, Rounds(s, readOffset, len))
    decreases len, |s.queued|
  {
    if len > 0 && HeadFits(s, readOffset) && !TakesEnd(s, readOffset, len) {
      var (bytes, s', readOffset') := Take(s, readOffset, len);
      QueueShrinks(s, readOffset, len);
      RoundsNext(s, readOffset, len);
      RoundsSound(s', stream, readOffset', len - |bytes|);
      SoundJoins(stream, readOffset, len, bytes, readOffset', Rounds(s', readOffset', len - |bytes|));
    }
  }

  ghost function IndexKept<T>(stream: seq<T>): (Sorter<T>, nat) -> bool {
    (s: Sorter<T>, readOffset: nat) => Indexed(s, stream) && ReadOk(s, readOffset)
  }

  lemma IndexSurvives<T(!new)>(stream: seq<T>)
    ensures Survives(IndexKept(stream))
  {
    forall s: Sorter<T>, readOffset: nat, room: nat | IndexKept(stream)(s, readOffset) && HeadFits(s, readOffset)
      ensures IndexKept(stream)(Take(s, readOffset, room).1, Take(s, readOffset, room).2)
    {
      TakeKeeps(s, stream, readOffset, room);
    }
  }

  lemma IndexSupplies<T(!new)>(stream: seq<T>)
    ensures Supplies(stream, IndexKept(stream))
  {
    forall s: Sorter<T>, readOffset: nat | IndexKept(stream)(s, readOffset)
      ensures HeadFits(s, readOffset) || s.readPosition !in s.queued
    {
      if s.readPosition in s.queued { HeadContains(s, stream, readOffset); }
    }
    forall s: Sorter<T>, readOffset: nat, room: nat | IndexKept(stream)(s, readOffset) && HeadFits(s, readOffset)
      ensures NextBytes(stream, s, readOffset, room)
    {
      IndexedNextBytes(s, stream, readOffset, room);
    }
  }

  lemma RoundsIndexed<T(!new)>(s: Sorter<T>, stream: seq<T>, readOffset: nat, len: nat)
    requires Indexed(s, stream) && ReadOk(s, readOffset)
    ensures AllNextBytes(stream, s, readOffset, len)
    ensures var r := Rounds(s, readOffset, len); Indexed(r.sorter, stream) && ReadOk(r.sorter, r.readOffset)
  {
    IndexSurvives(stream);
    IndexSupplies(stream);
    SuppliesAll(stream, s, readOffset, len, IndexKept(stream));
    SurvivesAll(s, readOffset, len, IndexKept(stream));
  }

  /** All of it about a whole read. */
  ghost predicate ReadsTo<T>(stream: seq<T>, s: Sorter<T>, readOffset: nat, len: nat, r: Reading<T>) {
    && Indexed(r.sorter, stream) && ReadOk(r.sorter, r.readOffset) && Sound(stream, readOffset, len, r)
    && EndsAtMark(s, r.sorter, r.readOffset, r.status == Eof)
    && (r.status == WouldBlock ==> r.readOffset == r.sorter.gaps[0].start)
  }

  lemma RoundsRead<T(!new)>(stream: seq<T>, s: Sorter<T>, readOffset: nat, len: nat, r: Reading<T>)
    requires Indexed(s, stream) && ReadOk(s, readOffset) && readOffset <= |stream| && r == Rounds(s, readOffset, len)
    ensures ReadsTo(stream, s, readOffset, len, r)
  {
    RoundsIndexed(s, stream, readOffset, len);
    RoundsSound(s, stream, readOffset, len);
    RoundsEndAtMark(s, stream, readOffset, len);
    if r.status == WouldBlock { NothingToRead(r.sorter, stream, r.readOffset); }
  }

  class Reader<T(!new)> {
    const sorter: StreamFrameSorter<T>
    var readOffset: nat
    var finishedReading: bool

    constructor ()
      ensures fresh(sorter) && readOffset == 0 && !finishedReading
      ensures sorter.Value() == Sorter(map[], 0, [Gap(0, MaxByteCount)])
    {
      sorter := new StreamFrameSorter();
      readOffset := 0;
      finishedReading := false;
    }

    /** The state is consistent with having received bytes of `stream`. */
    ghost predicate Valid(stream: seq<T>)
      reads this, sorter
    {
      Indexed(sorter.Value(), stream) && ReadOk(sorter.Value(), readOffset) && readOffset <= |stream|
    }

    /** One round of the loop below, given that a frame is at the head of the queue. */
    method ReadRound(room: nat) returns (bytes: seq<T>, fin: bool)
      requires sorter.Head().Some? && sorter.Head().value.offset <= readOffset <= sorter.Head().value.End()
      modifies this`readOffset, sorter`readPosition, sorter`queuedFrames
      ensures (bytes, sorter.Value(), readOffset) == Take(old(sorter.Value()), old(readOffset), room)
      ensures fin <==> old(sorter.Head().value.fin) && old(sorter.Head().value.End()) <= readOffset
    {
      var frame := sorter.Head().value;
      var pos := readOffset - frame.offset;
      var m := Min(room, |frame.data| - pos);
      bytes := frame.data[pos..pos + m];
      readOffset := readOffset + m;
      fin := false;
      if pos + m >= |frame.data| {
        var popped := sorter.Pop();
        fin := frame.fin;
      }
    }

    /** The next step of a read: a round, or nothing when nothing is queued at the head. */
    method Advance(room: nat) returns (bytes: seq<T>, status: ReadStatus)
      requires Consistent(sorter.Value(), readOffset) && room > 0
      modifies this`readOffset, sorter`readPosition, sorter`queuedFrames
      ensures Consistent(sorter.Value(), readOffset)
      ensures Continues(old(sorter.Value()), old(readOffset), room, Reading(bytes, sorter.Value(), readOffset, status))
    {
      var head := sorter.Head();
      if head.None? { return [], WouldBlock; }
      TakeConsistent(sorter.Value(), readOffset, room);
      var fin;
      bytes, fin := ReadRound(room);
      status := if fin then Eof else Ok;
    }

    /** One more round of a read that has returned `data` so far and will end with `end`. */
    method AdvanceMore(data: seq<T>, len: nat, ghost end: Reading<T>) returns (more: seq<T>, status: ReadStatus)
      requires Consistent(sorter.Value(), readOffset)
      requires |data| < len && Onward(Reading(data, sorter.Value(), readOffset, Ok), len) == end
      modifies this`readOffset, sorter`readPosition, sorter`queuedFrames
      ensures Consistent(sorter.Value(), readOffset)
      ensures |data| <= |more| <= len && Onward(Reading(more, sorter.Value(), readOffset, status), len) == end
      ensures status == Ok ==> |data| < |more| || |sorter.queuedFrames| < old(|sorter.queuedFrames|)
    {
      ghost var s, before := sorter.Value(), readOffset;
      var bytes;
      bytes, status := Advance(len - |data|);
      if HeadFits(s, before) { QueueShrinks(s, before, len - |data|); }
      OnwardStep(data, s, before, len, Reading(bytes, sorter.Value(), readOffset, status));
      more := data + bytes;
    }

    /** The loop of Read, without deadlines. */
    method ReadLoop(len: nat) returns (data: seq<T>, status: ReadStatus)
      requires Consistent(sorter.Value(), readOffset)
      modifies this`readOffset, sorter`readPosition, sorter`queuedFrames
      ensures Reading(data, sorter.Value(), readOffset, status) == Rounds(old(sorter.Value()), old(readOffset), len)
    {
      data := [];
      status := Ok;
      ghost var end := Rounds(sorter.Value(), readOffset, len);
      assert [] + end.data == end.data;
      while |data| < len && status == Ok
        invariant Consistent(sorter.Value(), readOffset)
        invariant |data| <= len && Onward(Reading(data, sorter.Value(), readOffset, status), len) == end
        decreases status == Ok, len - |data|, |sorter.queuedFrames|
      {
        data, status := AdvanceMore(data, len, end);
      }
      assert data + [] == data;
    }

    /** The same for a reader of `stream`. */
    method ReadStream(len: nat, ghost stream: seq<T>) returns (data: seq<T>, status: ReadStatus)
      requires Valid(stream)
      modifies this`readOffset, sorter`readPosition, sorter`queuedFrames
      ensures ReadsTo(stream, old(sorter.Value()), old(readOffset), len, Reading(data, sorter.Value(), readOffset, status))
      ensures Reading(data, sorter.Value(), readOffset, status) == Rounds(old(sorter.Value()), old(readOffset), len)
    {
      ghost var s, offset := sorter.Value(), readOffset;
      IndexedConsistent(s, stream, offset);
      data, status := ReadLoop(len);
      RoundsRead(stream, s, offset, len, Reading(data, sorter.Value(), readOffset, status));
    }

    /** A read that returns something does not block. */
    method ReadSettled(len: nat, ghost stream: seq<T>) returns (data: seq<T>, status: ReadStatus)
      requires Valid(stream)
      modifies this`readOffset, sorter`readPosition, sorter`queuedFrames
      ensures SettlesTo(stream, old(sorter.Value()), old(readOffset), len, Reading(data, sorter.Value(), readOffset, status))
    {
      ghost var s, offset := sorter.Value(), readOffset;
      data, status := ReadStream(len, stream);
      SettledReads(stream, s, offset, len, Reading(data, sorter.Value(), readOffset, status));
      if status == WouldBlock && data != [] { status := Ok; }
    }

    /** Read: the next bytes of the stream, as many as have arrived without a gap and fit, unless a frame
        with the end marker stops it before.  It blocks only when there is nothing to return. */
    method Read(len: nat, ghost stream: seq<T>) returns (data: seq<T>, status: ReadStatus)
      requires Valid(stream)
      modifies this, sorter`readPosition, sorter`queuedFrames
      ensures Valid(stream) && finishedReading == (status == Eof)
      ensures if old(finishedReading) then data == [] && sorter.Value() == old(sorter.Value()) && readOffset == old(readOffset)
        else SettlesTo(stream, old(sorter.Value()), old(readOffset), len, Reading(data, sorter.Value(), readOffset, status))
    {
      if finishedReading { return [], Eof; }
      data, status := ReadSettled(len, stream);
      finishedReading := status == Eof;
    }
  }

  /** The result of a call of Read: the rounds above, told from outside.  The bytes are the next of the stream,
      the stream ends exactly at a used-up frame with the end marker, and a call that returns less than asked
      for without ending it stands at the first missing byte, as does one that has to wait. */
  ghost predicate SettlesTo<T>(stream: seq<T>, s: Sorter<T>, readOffset: nat, len: nat, r: Reading<T>) {
    && r == Settled(Rounds(s, readOffset, len))
    && Indexed(r.sorter, stream) && ReadOk(r.sorter, r.readOffset)
    && r.readOffset == readOffset + |r.data| <= |stream| && r.data == stream[readOffset..r.readOffset] && |r.data| <= len
    && EndsAtMark(s, r.sorter, r.readOffset, r.status == Eof)
    && (r.status == Ok && |r.data| < len ==> r.readOffset == r.sorter.gaps[0].start)
    && (r.status == WouldBlock ==> r.data == [] && r.readOffset == r.sorter.gaps[0].start)
  }

  lemma SettledReads<T>(stream: seq<T>, s: Sorter<T>, readOffset: nat, len: nat, r: Reading<T>)
    requires r == Rounds(s, readOffset, len) && ReadsTo(stream, s, readOffset, len, r)
    ensures SettlesTo(stream, s, readOffset, len, Settled(r))
  {}

  /** A read that has something to return does not wait. */
  ghost function Settled<T>(r: Reading<T>): Reading<T> {
    if r.status == WouldBlock && r.data != [] then r.(status := Ok) else r
  }

  /** With no frame at the head, everything before the first gap has been read. */
  lemma NothingToRead<T>(s: Sorter<T>, stream: seq<T>, readOffset: nat)
    requires Indexed(s, stream) && ReadOk(s, readOffset) && s.readPosition !in s.queued
    ensures readOffset == s.gaps[0].start
  {
    assert Chain(s.queued, RegionStart(s, 0), s.gaps[0].start);
  }
}
