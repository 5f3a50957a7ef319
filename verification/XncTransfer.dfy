/** Server and client put together: what the client ends up with for every file. */
module XncTransfer {
  import opened Fields
  import opened LinearAlgebra
  import opened Elimination
  import opened Decoding
  import opened Coding
  import opened PieceData
  import opened Folds
  import opened Xnc

  // ---------- the loops ----------

  /** The server's loops over chunks and pieces, followed by five end markers. */
  method SendFile(p: Plan) returns (frames: seq<seq<byte>>)
    ensures frames == p.AllFrames()
  {
    var chunks := SplitFile(p.file);
    frames := [];
    ghost var groups := p.FileFrames();
    for c := 0 to |chunks|
      invariant frames == Concat(groups[..c])
    {
      var chunkFrames := SendChunk(p, chunks[c], c);
      frames := frames + chunkFrames;
      assert groups[..c + 1][..c] == groups[..c];
    }
    assert groups[..|chunks|] == groups;
    var ends := SendEnds(|chunks| - 1, p.encode);
    frames := frames + ends;
  }

  method SendEnds(id: int, encode: bool) returns (ends: seq<seq<byte>>)
    ensures ends == Repeat(EndFrame(id, encode), 5)
  {
    ends := [];
    for i := 0 to 5
      invariant ends == Repeat(EndFrame(id, encode), i)
    {
      ends := ends + [EndFrame(id, encode)];
    }
  }

  method SendChunk(p: Plan, chunk: seq<byte>, c: nat) returns (frames: seq<seq<byte>>)
    requires c < p.Count() && chunk == Chunk(p.file, c)
    ensures frames == p.ChunkFrames(c)
  {
    var size := if c == p.Count() - 1 then |p.file| - CHUNKSIZE * (p.Count() - 1) else CHUNKSIZE;
    var pieces := EncoderPieces(chunk);
    assert pieces == ChunkPieces(p.file, c);
    frames := [];
    for s := 0 to p.PerChunk()
      invariant |frames| == s && forall t :: 0 <= t < s ==> frames[t] == p.FrameAt(c, t)
    {
      var vector := p.drawn(c, s);
      var packet := if p.encode then Packet(TYPE_XNC_ENC, c, size, p.Count(), vector, Encoded(p.f, vector, pieces, PIECESIZE).load)
                    else Packet(TYPE_XNC, c, size, p.Count(), [], chunk[s * PIECESIZE..(s + 1) * PIECESIZE]);
      assert packet == p.PacketAt(c, s);
      frames := frames + [EncodePacket(packet).data];
    }
  }

  /** Splitting a full chunk by piece count gives its consecutive slices. */
  method EncoderPieces(chunk: seq<byte>) returns (pieces: seq<seq<byte>>)
    requires |chunk| == CHUNKSIZE
    ensures |pieces| == PIECECNT && forall s :: 0 <= s < PIECECNT ==> pieces[s] == PieceAt(chunk, s)
  {
    var r := SplitByCount<byte>(chunk, 0, PIECECNT);
    assert CeilDiv(|chunk|, PIECECNT) == PIECESIZE by { CeilExact(PIECESIZE, PIECECNT); }
    pieces := r.pieces;
    FlatLength(pieces, PIECESIZE);
    assert Concat(pieces) == chunk;
    forall s | 0 <= s < PIECECNT ensures pieces[s] == PieceAt(chunk, s) { FlatSlice(pieces, PIECESIZE, s); }
  }

  /** What the client returns for a list of frames; running out of input is an error. */
  ghost function Outcome(f: Field<byte>, encode: bool, frames: seq<seq<byte>>): Client {
    var end := Fold(Reaction(f, encode), FreshClient, frames);
    if end.Receiving? then Failed else end
  }

  lemma {:induction false} NextState(f: Field<byte>, encode: bool, frames: seq<seq<byte>>, k: nat)
    requires k < |frames|
    ensures Fold(Reaction(f, encode), FreshClient, frames[..k + 1]) ==
            Handle(f, encode, Fold(Reaction(f, encode), FreshClient, frames[..k]), frames[k])
  {
    assert frames[..k + 1][..k] == frames[..k];
  }

  /** A further frame can be read exactly when one is left, and it is the next one. */
  lemma {:induction false} NextFrame(frames: seq<seq<byte>>, size: nat, k: nat)
    requires size > 0 && AllLength(frames, size) && k <= |frames|
    ensures var rest := Concat(frames[k..]);
      if k == |frames| then rest == [] else |rest| >= size && rest[..size] == frames[k] && rest[size..] == Concat(frames[k + 1..])
  {
    if k < |frames| {
      assert frames[k..] == [frames[k]] + frames[k + 1..];
      ConcatCons(frames[k], frames[k + 1..]);
    }
  }

  /** The client's loop: it reads the byte stream in frames of one size until it is done. */
  method ReceiveFile(f: Field<byte>, input: seq<byte>, encode: bool, size: nat, ghost frames: seq<seq<byte>>) returns (r: Client)
    requires size > 0 && AllLength(frames, size) && input == Concat(frames)
    ensures r == Outcome(f, encode, frames)
  {
    var st, rest := FreshClient, input;
    ghost var k: nat := 0;
    assert frames[..0] == [] && frames[0..] == frames;
    NextFrame(frames, size, 0);
    while st.Receiving? && |rest| >= size
      invariant k <= |frames| && rest == Concat(frames[k..]) && (|rest| >= size <==> k < |frames|)
      invariant st == Fold(Reaction(f, encode), FreshClient, frames[..k])
      decreases |frames| - k
    {
      NextFrame(frames, size, k);
      NextFrame(frames, size, k + 1);
      NextState(f, encode, frames, k);
      st := Handle(f, encode, st, rest[..size]);
      rest, k := rest[size..], k + 1;
    }
    Stopped(f, encode, frames, k, st);
    return if st.Receiving? then Failed else st;
  }

  lemma Stopped(f: Field<byte>, encode: bool, frames: seq<seq<byte>>, k: nat, st: Client)
    requires k <= |frames| && st == Fold(Reaction(f, encode), FreshClient, frames[..k])
    requires st.Receiving? ==> k == |frames|
    ensures Outcome(f, encode, frames) == if st.Receiving? then Failed else st
  {
    assert frames == frames[..k] + frames[k..];
    FoldAppend(Reaction(f, encode), FreshClient, frames[..k], frames[k..]);
    if !st.Receiving? { FoldStuck(Reaction(f, encode), st, frames[k..]); }
  }

  // ---------- coded mode ----------

  /** The first `s` coded pieces of chunk `c`, as the decoder gets them. */
  ghost function Pieces(p: Plan, c: nat, s: nat): (r: seq<Row<byte>>)
    requires c < p.Count()
    ensures |r| == s && Shaped(r, PIECECNT, PIECESIZE)
    ensures forall t :: 0 <= t < s ==> r[t] == p.CodedRow(c, t)
  {
    seq(s, t requires 0 <= t < s => p.CodedRow(c, t))
  }

  ghost function DecoderAt(p: Plan, c: nat, s: nat): (d: Dec<byte>)
    requires c < p.Count()
    ensures DecoderOk(d)
  {
    Run(p.f, PIECECNT, PIECESIZE, Pieces(p, c, s))
  }

  /** The vectors drawn for chunk `c` determine its pieces. */
  ghost predicate Spans(p: Plan, c: nat)
    requires c < p.Count()
  {
    Determined(p.f, Pieces(p, c, CODEDPIECECNT), PIECECNT, PIECESIZE)
  }

  lemma DecoderStep(p: Plan, c: nat, s: nat)
    requires c < p.Count()
    ensures DecoderAt(p, c, s + 1) == Receive(p.f, DecoderAt(p, c, s), p.CodedRow(c, s), PIECESIZE)
  {
    assert Pieces(p, c, s + 1)[..s] == Pieces(p, c, s);
  }

  /** A decoder that reports success returns the chunk. */
  lemma DecodedChunk(p: Plan, c: nat, s: nat)
    requires Lawful(p.f) && c < p.Count() && Decoded(DecoderAt(p, c, s))
    ensures Concat(Loads(DecoderAt(p, c, s).rows)) == Chunk(p.file, c)
  {
    var pieces, originals := Pieces(p, c, s), ChunkPieces(p.file, c);
    forall t | 0 <= t < s
      ensures Codes(p.f, pieces[t], originals, PIECECNT, PIECESIZE)
    {
      EncodedCodes(p.f, p.drawn(c, t), originals, PIECESIZE);
    }
    DecodedPiecesAreOriginals(p.f, PIECECNT, PIECESIZE, pieces, originals);
    FlatOfSlices(Chunk(p.file, c), originals, PIECECNT);
  }

  ghost function ChunkOut(p: Plan, c: nat, s: nat): seq<byte>
    requires c < p.Count()
  {
    if Decoded(DecoderAt(p, c, s)) then ChunkData(p.file, c) else []
  }

  /** Which of the first `c` chunks were decoded. */
  ghost function DecodedChunks(p: Plan, c: nat): (r: seq<bool>)
    requires c <= p.Count()
    ensures |r| == c && forall k :: 0 <= k < c ==> r[k] == Decoded(DecoderAt(p, k, CODEDPIECECNT))
  {
    seq(c, k requires 0 <= k < c => Decoded(DecoderAt(p, k, CODEDPIECECNT)))
  }

  /** The decoded chunks among the first `c`, in order. */
  ghost function FileOut(p: Plan, c: nat): seq<byte>
    requires c <= p.Count()
  {
    Kept(FileParts(p.file, c), DecodedChunks(p, c))
  }

  lemma FileOutStep(p: Plan, c: nat)
    requires c < p.Count()
    ensures FileOut(p, c + 1) == FileOut(p, c) + ChunkOut(p, c, CODEDPIECECNT)
  {
    assert FileParts(p.file, c + 1)[..c] == FileParts(p.file, c);
    assert DecodedChunks(p, c + 1)[..c] == DecodedChunks(p, c);
  }

  ghost function DecoderOf(p: Plan, c: nat, s: nat, k: nat): (d: Dec<byte>)
    requires c < p.Count() && k < p.Count()
    ensures DecoderOk(d)
  {
    if k < c then DecoderAt(p, k, CODEDPIECECNT) else if k == c then DecoderAt(p, c, s) else Initial(PIECECNT)
  }

  ghost function DecodersAt(p: Plan, c: nat, s: nat): (ds: seq<Dec<byte>>)
    requires c < p.Count()
    ensures |ds| == p.Count() && forall k :: 0 <= k < |ds| ==> ds[k] == DecoderOf(p, c, s, k)
  {
    seq(p.Count(), k requires 0 <= k < p.Count() => DecoderOf(p, c, s, k))
  }

  /** The client after the chunks before `c` and `s` frames of chunk `c`. */
  ghost function CodedState(p: Plan, c: nat, s: nat): (st: Client)
    requires c < p.Count()
  {
    var out := FileOut(p, c) + ChunkOut(p, c, s);
    if c == s == 0 then FreshClient
    else if c + 1 == p.Count() && Decoded(DecoderAt(p, c, s)) then Finished(out)
    else Receiving(DecodersAt(p, c, s), [], out)
  }

  lemma FrameParses(p: Plan, c: nat, s: nat)
    requires c < p.Count() < 0x1_0000_0000 && s < p.PerChunk()
    ensures DecodePacket(p.FrameAt(c, s)) == Parsed(p.PacketAt(c, s))
    ensures |p.FrameAt(c, s)| == p.FrameSize()
  {
    PacketRoundTrip(p.PacketAt(c, s));
  }

  /** A coded packet `p` finds the decoders `ds` and turns its own one into `next`; once that is complete it holds `chunk`. */
  ghost predicate Ready(f: Field<byte>, st: Client, p: Packet, ds: seq<Dec<byte>>, next: Dec<byte>, chunk: seq<byte>) {
    && st.Receiving? && ds == Decoders(st, p) && 0 <= p.chunkId < |ds| && DecoderOk(ds[p.chunkId])
    && |p.vector| == VECTORSIZE && |p.piece| == PIECESIZE
    && next == Receive(f, ds[p.chunkId], Row(p.vector, p.piece), PIECESIZE)
    && (Decoded(next) ==> Concat(Loads(next.rows)) == chunk && 0 <= p.chunkSize <= |chunk|)
  }

  /** The client after such a packet. */
  ghost function Effect(st: Client, p: Packet, ds: seq<Dec<byte>>, next: Dec<byte>, chunk: seq<byte>): Client
    requires st.Receiving? && 0 <= p.chunkId < |ds| && (Decoded(next) ==> 0 <= p.chunkSize <= |chunk|)
  {
    var completes := !Decoded(ds[p.chunkId]) && Decoded(next);
    var out := if completes then st.out + chunk[..p.chunkSize] else st.out;
    if completes && p.chunkId == p.chunkNum - 1 then Finished(out) else Receiving(ds[p.chunkId := next], st.chunk, out)
  }

  lemma {:induction false} CodedPacketEffect(f: Field<byte>, st: Client, p: Packet, ds: seq<Dec<byte>>, next: Dec<byte>, chunk: seq<byte>)
    requires Ready(f, st, p, ds, next, chunk)
    ensures HandleCoded(f, st, p) == Effect(st, p, ds, next, chunk)
  {
    assert Decoded(ds[p.chunkId]) ==> ds[p.chunkId := ds[p.chunkId]] == ds;
  }

  lemma StartingDecoders(p: Plan, c: nat, s: nat)
    requires p.encode && c < p.Count() && s < CODEDPIECECNT && CodedState(p, c, s).Receiving?
    ensures Decoders(CodedState(p, c, s), p.PacketAt(c, s)) == DecodersAt(p, c, s)
    ensures CodedState(p, c, s).out == FileOut(p, c) + ChunkOut(p, c, s) && CodedState(p, c, s).chunk == []
  {
    if c == s == 0 {
      assert Pieces(p, 0, 0) == [];
      assert DecodersAt(p, 0, 0) == Repeat(Initial(PIECECNT), p.Count());
    }
  }

  lemma {:induction false} NextDecoders(p: Plan, c: nat, s: nat)
    requires c < p.Count()
    ensures DecodersAt(p, c, s)[c := DecoderAt(p, c, s + 1)] == DecodersAt(p, c, s + 1)
  {
  }

  /** The next state, told by whether this packet completes its chunk. */
  ghost function CodedNext(p: Plan, c: nat, s: nat): Client
    requires c < p.Count()
  {
    var next := DecoderAt(p, c, s + 1);
    var completes := !Decoded(DecoderAt(p, c, s)) && Decoded(next);
    var before := FileOut(p, c) + ChunkOut(p, c, s);
    var out := if completes then before + ChunkData(p.file, c) else before;
    if completes && c == p.Count() - 1 then Finished(out) else Receiving(DecodersAt(p, c, s)[c := next], [], out)
  }

  lemma {:induction false} NextCodedState(p: Plan, c: nat, s: nat)
    requires c < p.Count() && s < CODEDPIECECNT && CodedState(p, c, s).Receiving?
    ensures CodedState(p, c, s + 1) == CodedNext(p, c, s)
  {
    DecoderStep(p, c, s);
    NextDecoders(p, c, s);
    assert Pieces(p, c, 0) == [];
    assert FileOut(p, c) + [] == FileOut(p, c);
  }

  lemma {:induction false} PacketReady(p: Plan, c: nat, s: nat)
    requires Lawful(p.f) && p.encode && c < p.Count() && s < CODEDPIECECNT && CodedState(p, c, s).Receiving?
    ensures Ready(p.f, CodedState(p, c, s), p.PacketAt(c, s), DecodersAt(p, c, s), DecoderAt(p, c, s + 1), Chunk(p.file, c))
  {
    var pk, next := p.PacketAt(c, s), DecoderAt(p, c, s + 1);
    StartingDecoders(p, c, s);
    DecoderStep(p, c, s);
    assert Row(pk.vector, pk.piece) == p.CodedRow(c, s);
    if Decoded(next) { DecodedChunk(p, c, s + 1); }
  }

  lemma {:induction false} EffectIsNext(p: Plan, c: nat, s: nat)
    requires p.encode && c < p.Count() && s < CODEDPIECECNT && CodedState(p, c, s).Receiving?
    ensures 0 <= p.PacketAt(c, s).chunkSize <= |Chunk(p.file, c)|
    ensures Effect(CodedState(p, c, s), p.PacketAt(c, s), DecodersAt(p, c, s), DecoderAt(p, c, s + 1), Chunk(p.file, c)) == CodedNext(p, c, s)
  {
    StartingDecoders(p, c, s);
  }

  lemma {:induction false} HandleCodedPacket(p: Plan, c: nat, s: nat)
    requires Lawful(p.f) && p.encode && c < p.Count() && s < CODEDPIECECNT && CodedState(p, c, s).Receiving?
    ensures HandleCoded(p.f, CodedState(p, c, s), p.PacketAt(c, s)) == CodedState(p, c, s + 1)
  {
    PacketReady(p, c, s);
    CodedPacketEffect(p.f, CodedState(p, c, s), p.PacketAt(c, s), DecodersAt(p, c, s), DecoderAt(p, c, s + 1), Chunk(p.file, c));
    EffectIsNext(p, c, s);
    NextCodedState(p, c, s);
  }

  /** A finished client stays so. */
  lemma CodedStateStays(p: Plan, c: nat, s: nat)
    requires c < p.Count() && !CodedState(p, c, s).Receiving?
    ensures CodedState(p, c, s + 1) == CodedState(p, c, s)
  {
    DecoderStep(p, c, s);
  }

  lemma HandleParsed(f: Field<byte>, st: Client, frame: seq<byte>, p: Packet)
    requires DecodePacket(frame) == Parsed(p)
    ensures Handle(f, true, st, frame) == if st.Receiving? then HandleCoded(f, st, p) else st
  {}

  lemma HandleCodedFrame(p: Plan, c: nat, s: nat)
    requires Lawful(p.f) && p.encode && c < p.Count() < 0x1_0000_0000 && s < CODEDPIECECNT
    ensures Handle(p.f, true, CodedState(p, c, s), p.FrameAt(c, s)) == CodedState(p, c, s + 1)
  {
    FrameParses(p, c, s);
    HandleParsed(p.f, CodedState(p, c, s), p.FrameAt(c, s), p.PacketAt(c, s));
    if CodedState(p, c, s).Receiving? { HandleCodedPacket(p, c, s); } else { CodedStateStays(p, c, s); }
  }

  ghost function CodedStates(p: Plan, c: nat): (r: seq<Client>)
    requires c < p.Count()
    ensures |r| == CODEDPIECECNT + 1 && forall s :: 0 <= s < |r| ==> r[s] == CodedState(p, c, s)
  {
    seq(CODEDPIECECNT + 1, s requires 0 <= s <= CODEDPIECECNT => CodedState(p, c, s))
  }

  /** All frames of one chunk. */
  lemma CodedChunkHandled(p: Plan, c: nat)
    requires Lawful(p.f) && p.encode && c < p.Count() < 0x1_0000_0000
    ensures Fold(Reaction(p.f, true), CodedState(p, c, 0), p.ChunkFrames(c)) == CodedState(p, c, CODEDPIECECNT)
  {
    var states, frames := CodedStates(p, c), p.ChunkFrames(c);
    forall s | 0 <= s < CODEDPIECECNT
      ensures Reaction(p.f, true)(states[s], frames[s]) == states[s + 1]
    {
      HandleCodedFrame(p, c, s);
    }
    FoldAlong(Reaction(p.f, true), states, frames, CODEDPIECECNT);
    assert frames[..CODEDPIECECNT] == frames;
  }

  lemma NextChunk(p: Plan, c: nat)
    requires c + 1 < p.Count()
    ensures CodedState(p, c, CODEDPIECECNT) == CodedState(p, c + 1, 0)
  {
    FileOutStep(p, c);
    assert Pieces(p, c + 1, 0) == [];
    assert DecodersAt(p, c, CODEDPIECECNT) == DecodersAt(p, c + 1, 0);
  }

  /** The client when it is about to see chunk `c`, or the end. */
  ghost function CodedBoundary(p: Plan, c: nat): Client
    requires c <= p.Count()
  {
    if c < p.Count() then CodedState(p, c, 0) else if c == 0 then FreshClient else CodedState(p, c - 1, CODEDPIECECNT)
  }

  lemma CodedFileHandled(p: Plan)
    requires Lawful(p.f) && p.encode && p.Count() < 0x1_0000_0000
    ensures Fold(Reaction(p.f, true), FreshClient, Concat(p.FileFrames())) == CodedBoundary(p, p.Count())
  {
    var groups := p.FileFrames();
    var states := seq(p.Count() + 1, c requires 0 <= c <= p.Count() => CodedBoundary(p, c));
    forall c | 0 <= c < p.Count()
      ensures Fold(Reaction(p.f, true), states[c], groups[c]) == states[c + 1]
    {
      CodedChunkHandled(p, c);
      if c + 1 < p.Count() { NextChunk(p, c); }
    }
    FoldGroups(Reaction(p.f, true), states, groups, p.Count());
    assert groups[..p.Count()] == groups;
  }

  lemma EndsHandled(f: Field<byte>, encode: bool, st: Client, id: int)
    requires !st.Failed?
    ensures Fold(Reaction(f, encode), st, Repeat(EndFrame(id, encode), 5)) == Finished(st.out)
  {
    var ends := Repeat(EndFrame(id, encode), 5);
    assert ends == [EndFrame(id, encode)] + ends[1..];
    FoldAppend(Reaction(f, encode), st, [EndFrame(id, encode)], ends[1..]);
    assert [EndFrame(id, encode)][..0] == [];
    FoldStuck(Reaction(f, encode), Finished(st.out), ends[1..]);
  }

  lemma LastBoundary(p: Plan)
    ensures !CodedBoundary(p, p.Count()).Failed? && CodedBoundary(p, p.Count()).out == FileOut(p, p.Count())
  {
    if p.Count() > 0 { FileOutStep(p, p.Count() - 1); }
  }

  /** What the client returns in coded mode, for every file and every draw of vectors: the chunks whose
      pieces could be decoded, in order. */
  lemma CodedResult(p: Plan)
    requires Lawful(p.f) && p.encode && p.Count() < 0x1_0000_0000
    ensures Outcome(p.f, true, p.AllFrames()) == Finished(FileOut(p, p.Count()))
  {
    FoldAppend(Reaction(p.f, true), FreshClient, Concat(p.FileFrames()), Repeat(EndFrame(p.Count() - 1, true), 5));
    CodedFileHandled(p);
    LastBoundary(p);
    EndsHandled(p.f, true, CodedBoundary(p, p.Count()), p.Count() - 1);
  }

  lemma DecodedIffSpans(p: Plan, c: nat)
    requires Lawful(p.f) && c < p.Count()
    ensures Decoded(DecoderAt(p, c, CODEDPIECECNT)) <==> Spans(p, c)
  {
    DecodedIffDetermined(p.f, PIECECNT, PIECESIZE, Pieces(p, c, CODEDPIECECNT));
  }

  /** Whole-file round trip, coded: the client returns the file exactly when, for every chunk, the
      vectors that were drawn span. */
  lemma CodedTransfer(p: Plan)
    requires Lawful(p.f) && p.encode && p.Count() < 0x1_0000_0000
    ensures Outcome(p.f, true, p.AllFrames()) == Finished(p.file) <==> forall c :: 0 <= c < p.Count() ==> Spans(p, c)
  {
    CodedResult(p);
    KeptComplete(FileParts(p.file, p.Count()), DecodedChunks(p, p.Count()));
    ChunksCoverFile(p.file, p.Count());
    forall c | 0 <= c < p.Count()
      ensures DecodedChunks(p, p.Count())[c] <==> Spans(p, c)
    {
      DecodedIffSpans(p, c);
    }
  }

  // ---------- one draw to spare ----------

  /** All pieces but the one at `u`. */
  ghost function Without(pieces: seq<Row<byte>>, u: nat): seq<Row<byte>>
    requires u < |pieces|
  {
    pieces[..u] + pieces[u + 1..]
  }

  /** Sixteen of the seventeen vectors drawn for chunk `c`, all but the one at `u`, determine its pieces. */
  ghost predicate OthersSpan(p: Plan, c: nat, u: nat)
    requires c < p.Count() && u <= 16
  {
    Determined(p.f, Without(Pieces(p, c, 17), u), PIECECNT, PIECESIZE)
  }

  lemma OthersSuffice(p: Plan, c: nat, u: nat)
    requires c < p.Count() && u <= 16 && OthersSpan(p, c, u)
    ensures Spans(p, c)
  {
    var all, others := Pieces(p, c, 17), Without(Pieces(p, c, 17), u);
    forall v | |v| == PIECECNT && InNullSpace(p.f, all, PIECECNT, PIECESIZE, v)
      ensures IsZero(p.f, v)
    {
      forall i | 0 <= i < |others|
        ensures Dot(p.f, others[i].vec, v, PIECECNT) == p.f.zero
      {
        assert others[i] == all[if i < u then i else i + 1];
      }
      assert InNullSpace(p.f, others, PIECECNT, PIECESIZE, v);
    }
  }

  /** Seventeen pieces are sent for each chunk, so the file comes back whichever one draw of each chunk is useless. */
  lemma OneDrawToSpare(p: Plan, useless: nat -> nat)
    requires Lawful(p.f) && p.encode && p.Count() < 0x1_0000_0000
    requires forall c :: 0 <= c < p.Count() ==> useless(c) <= 16 && OthersSpan(p, c, useless(c))
    ensures Outcome(p.f, true, p.AllFrames()) == Finished(p.file)
  {
    forall c | 0 <= c < p.Count() ensures Spans(p, c) { OthersSuffice(p, c, useless(c)); }
    CodedTransfer(p);
  }

  /** Unit vectors in order, with an arbitrary vector at `u`. */
  function UnitDraw(f: Field<byte>, u: nat, bad: Vector, s: nat): Vector {
    if s == u then bad else Unit(f, VECTORSIZE, (if s < u then s else s - 1) % VECTORSIZE)
  }

  function UnitDraws(f: Field<byte>, useless: nat -> nat, bad: nat -> Vector): (nat, nat) -> Vector {
    (c: nat, s: nat) => UnitDraw(f, useless(c), bad(c), s)
  }

  lemma UnitDrawsLeft(p: Plan, c: nat, useless: nat -> nat, bad: nat -> Vector, i: nat)
    requires p.drawn == UnitDraws(p.f, useless, bad) && c < p.Count() && useless(c) <= 16 && i < 16
    ensures Without(Pieces(p, c, 17), useless(c))[i].vec == Unit(p.f, PIECECNT, i)
  {
    var s := if i < useless(c) then i else i + 1;
    assert Without(Pieces(p, c, 17), useless(c))[i] == p.CodedRow(c, s);
    assert p.drawn(c, s) == UnitDraw(p.f, useless(c), bad(c), s);
  }

  lemma UnitDrawsSpan(p: Plan, c: nat, useless: nat -> nat, bad: nat -> Vector)
    requires Lawful(p.f) && p.drawn == UnitDraws(p.f, useless, bad) && c < p.Count() && useless(c) <= 16
    ensures OthersSpan(p, c, useless(c))
  {
    var others := Without(Pieces(p, c, 17), useless(c));
    forall i | 0 <= i < PIECECNT
      ensures HoldsUnit(p.f, PIECECNT, others, i)
    {
      UnitDrawsLeft(p, c, useless, bad, i);
      assert others[i].vec == Unit(p.f, PIECECNT, i);
    }
    SystematicPiecesSuffice(p.f, PIECECNT, PIECESIZE, others);
    DecodedIffDetermined(p.f, PIECECNT, PIECESIZE, others);
  }

  /** Coded transfer can succeed: for every file there are draws that bring it back, and one draw of each
      chunk, at any place, may be anything at all. */
  lemma CodedTransferCanSucceed(f: Field<byte>, file: seq<byte>, useless: nat -> nat, bad: nat -> Vector) returns (p: Plan)
    requires Lawful(f) && ChunkCount(|file|) < 0x1_0000_0000 && forall c :: 0 <= c < ChunkCount(|file|) ==> useless(c) <= 16
    ensures p == Plan(f, file, true, UnitDraws(f, useless, bad)) && Outcome(f, true, p.AllFrames()) == Finished(file)
  {
    p := Plan(f, file, true, UnitDraws(f, useless, bad));
    forall c | 0 <= c < p.Count() ensures OthersSpan(p, c, useless(c)) { UnitDrawsSpan(p, c, useless, bad); }
    OneDrawToSpare(p, useless);
  }

  /** Seventeen frames a chunk in coded mode, sixteen in plain mode, and five at the end. */
  lemma FrameCount(p: Plan)
    ensures |p.AllFrames()| == p.Count() * (if p.encode then 17 else 16) + 5
  {
    FlatLength(p.FileFrames(), p.PerChunk());
  }

  // ---------- plain mode ----------

  /** The client after the chunks before `c` and `s` frames of chunk `c`. */
  ghost function PlainState(p: Plan, c: nat, s: nat): (st: Client)
    requires c < p.Count() && s <= PIECECNT
  {
    if s < PIECECNT then Receiving([], Chunk(p.file, c)[..s * PIECESIZE], Concat(FileParts(p.file, c)))
    else PlainBoundary(p, c + 1)
  }

  /** The client when it is about to see chunk `c`, or has seen the last. */
  ghost function PlainBoundary(p: Plan, c: nat): Client
    requires c <= p.Count()
  {
    var out := Concat(FileParts(p.file, c));
    if c > 0 && c == p.Count() then Finished(out) else Receiving([], [], out)
  }

  lemma HandlePlainFrame(p: Plan, c: nat, s: nat)
    requires !p.encode && c < p.Count() < 0x1_0000_0000 && s < PIECECNT
    ensures Handle(p.f, false, PlainState(p, c, s), p.FrameAt(c, s)) == PlainState(p, c, s + 1)
  {
    FrameParses(p, c, s);
    var chunk := Chunk(p.file, c);
    assert chunk[..s * PIECESIZE] + PieceAt(chunk, s) == chunk[..(s + 1) * PIECESIZE];
    assert chunk[..CHUNKSIZE] == chunk;
    assert FileParts(p.file, c + 1)[..c] == FileParts(p.file, c);
  }

  lemma PlainChunkHandled(p: Plan, c: nat)
    requires !p.encode && c < p.Count() < 0x1_0000_0000
    ensures Fold(Reaction(p.f, false), PlainBoundary(p, c), p.ChunkFrames(c)) == PlainBoundary(p, c + 1)
  {
    var states := seq(PIECECNT + 1, s requires 0 <= s <= PIECECNT => PlainState(p, c, s));
    forall s | 0 <= s < PIECECNT
      ensures Reaction(p.f, false)(states[s], p.ChunkFrames(c)[s]) == states[s + 1]
    {
      HandlePlainFrame(p, c, s);
    }
    FoldAlong(Reaction(p.f, false), states, p.ChunkFrames(c), PIECECNT);
    assert p.ChunkFrames(c)[..PIECECNT] == p.ChunkFrames(c);
    assert Chunk(p.file, c)[..0] == [];
  }

  lemma PlainFileHandled(p: Plan)
    requires !p.encode && p.Count() < 0x1_0000_0000
    ensures Fold(Reaction(p.f, false), FreshClient, Concat(p.FileFrames())) == PlainBoundary(p, p.Count())
  {
    var groups := p.FileFrames();
    var states := seq(p.Count() + 1, c requires 0 <= c <= p.Count() => PlainBoundary(p, c));
    forall c | 0 <= c < p.Count()
      ensures Fold(Reaction(p.f, false), states[c], groups[c]) == states[c + 1]
    {
      PlainChunkHandled(p, c);
    }
    FoldGroups(Reaction(p.f, false), states, groups, p.Count());
    assert groups[..p.Count()] == groups;
    assert FileParts(p.file, 0) == [];
  }

  /** Whole-file round trip, uncoded: the client always returns the file. */
  lemma PlainTransfer(p: Plan)
    requires !p.encode && p.Count() < 0x1_0000_0000
    ensures Outcome(p.f, false, p.AllFrames()) == Finished(p.file)
  {
    FoldAppend(Reaction(p.f, false), FreshClient, Concat(p.FileFrames()), Repeat(EndFrame(p.Count() - 1, false), 5));
    PlainFileHandled(p);
    ChunksCoverFile(p.file, p.Count());
    EndsHandled(p.f, false, PlainBoundary(p, p.Count()), p.Count() - 1);
  }

  // ---------- over the byte stream ----------

  lemma FrameSizes(p: Plan)
    requires p.Count() < 0x1_0000_0000
    ensures AllLength(p.AllFrames(), p.FrameSize())
  {
    forall x | x in Concat(p.FileFrames())
      ensures |x| == p.FrameSize()
    {
      AllConcat(p.FileFrames(), x);
      var c :| 0 <= c < p.Count() && x in p.FileFrames()[c];
      var s :| 0 <= s < p.PerChunk() && x == p.ChunkFrames(c)[s];
      FrameParses(p, c, s);
    }
    forall i | 0 <= i < |p.AllFrames()|
      ensures |p.AllFrames()[i]| == p.FrameSize()
    {
      if i < |Concat(p.FileFrames())| { assert p.AllFrames()[i] in Concat(p.FileFrames()); }
    }
  }

  /** The whole transfer over a reliable byte stream, which keeps no frame boundaries. */
  method Transfer(p: Plan) returns (r: Client)
    requires Lawful(p.f) && p.Count() < 0x1_0000_0000
    ensures !p.encode ==> r == Finished(p.file)
    ensures p.encode ==> (r == Finished(p.file) <==> forall c :: 0 <= c < p.Count() ==> Spans(p, c))
  {
    var frames := SendFile(p);
    FrameSizes(p);
    r := ReceiveFile(p.f, Concat(frames), p.encode, p.FrameSize(), frames);
    if p.encode { CodedTransfer(p); } else { PlainTransfer(p); }
  }
}
