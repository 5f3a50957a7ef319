/** File transfer over coded or plain packets: the wire format, the server's packet sequence and the
    client's receive loop, up to the whole-file round trip. */
module Xnc {
  import opened Fields
  import opened LinearAlgebra
  import opened Elimination
  import opened Decoding
  import opened Coding
  import opened PieceData
  import opened Folds

  newtype byte = x: int | 0 <= x < 256

  const CHUNKSIZE: nat := 16384
  const VECTORSIZE: nat := 16
  const PIECESIZE: nat := 1024
  const PIECECNT: nat := 16
  const CODEDPIECECNT: nat := PIECECNT + 1
  const HEADERSIZE: nat := 13
  const FRAMESIZE_ENC: nat := 1053
  const FRAMESIZE: nat := 1037
  const TYPE_XNC_ENC: byte := 5
  const TYPE_XNC: byte := 6
  const TYPE_END: byte := 7

  // ---------- wire format ----------

  datatype Packet = Packet(kind: byte, chunkId: int, chunkSize: int, chunkNum: int, vector: seq<byte>, piece: seq<byte>)

  /** What parsing a frame comes to: a packet, the end marker, a reported error, or a slice that runs
      past the end of the frame. */
  datatype Parsed = Parsed(packet: Packet) | EndPacket | ParseError | OutOfRange

  datatype EncodeResult = Bytes(data: seq<byte>) | SizeError

  /** Big-endian, of the low 32 bits. */
  function PutUint32(n: int): (r: seq<byte>)
    ensures |r| == 4
  {
    var m := n % 0x1_0000_0000;
    [(m / 0x100 / 0x100 / 0x100) as byte, (m / 0x100 / 0x100 % 0x100) as byte, (m / 0x100 % 0x100) as byte, (m % 0x100) as byte]
  }

  function GetUint32(b: seq<byte>): (r: nat)
    requires |b| == 4
    ensures r < 0x1_0000_0000
  {
    b[0] as int * 0x100_0000 + b[1] as int * 0x1_0000 + b[2] as int * 0x100 + b[3] as int
  }

  lemma Uint32RoundTrip(n: int)
    ensures GetUint32(PutUint32(n)) == n % 0x1_0000_0000
  {}

  function Header(p: Packet): (r: seq<byte>)
    ensures |r| == HEADERSIZE && r[0] == p.kind
    ensures r[1..5] == PutUint32(p.chunkId) && r[5..9] == PutUint32(p.chunkSize) && r[9..13] == PutUint32(p.chunkNum)
  {
    [p.kind] + PutUint32(p.chunkId) + PutUint32(p.chunkSize) + PutUint32(p.chunkNum)
  }

  function Body(p: Packet): (r: seq<byte>)
    requires p.kind == TYPE_XNC_ENC ==> |p.vector| == VECTORSIZE
    requires p.kind == TYPE_XNC_ENC || p.kind == TYPE_XNC ==> |p.piece| == PIECESIZE
  {
    if p.kind == TYPE_XNC_ENC then p.vector + p.piece else if p.kind == TYPE_XNC then p.piece else []
  }

  function EncodePacket(p: Packet): (r: EncodeResult)
    ensures r.SizeError? <==>
      || (p.kind == TYPE_XNC_ENC && (|p.vector| != VECTORSIZE || |p.piece| != PIECESIZE))
      || (p.kind == TYPE_XNC && |p.piece| != PIECESIZE)
  {
    if p.kind == TYPE_XNC_ENC && (|p.vector| != VECTORSIZE || |p.piece| != PIECESIZE) then SizeError
    else if p.kind == TYPE_XNC && |p.piece| != PIECESIZE then SizeError
    else Bytes(Header(p) + Body(p))
  }

  function DecodePacket(data: seq<byte>): (r: Parsed) {
    if |data| != FRAMESIZE_ENC && |data| != FRAMESIZE then ParseError
    else if data[0] == TYPE_END then EndPacket
    else
      var id, size, num := GetUint32(data[1..5]), GetUint32(data[5..9]), GetUint32(data[9..13]);
      if data[0] == TYPE_XNC_ENC then
        if |data| < HEADERSIZE + VECTORSIZE + PIECESIZE then OutOfRange
        else Parsed(Packet(data[0], id, size, num, data[HEADERSIZE..HEADERSIZE + VECTORSIZE],
                           data[HEADERSIZE + VECTORSIZE..HEADERSIZE + VECTORSIZE + PIECESIZE]))
      else if data[0] == TYPE_XNC then Parsed(Packet(data[0], id, size, num, [], data[HEADERSIZE..]))
      else ParseError
  }

  ghost predicate Fits32(p: Packet) {
    0 <= p.chunkId < 0x1_0000_0000 && 0 <= p.chunkSize < 0x1_0000_0000 && 0 <= p.chunkNum < 0x1_0000_0000
  }

  lemma FrameFields(header: seq<byte>, body: seq<byte>)
    requires |header| == HEADERSIZE
    ensures var data := header + body;
      && |data| == HEADERSIZE + |body| && data[0] == header[0] && data[1..5] == header[1..5] && data[5..9] == header[5..9]
      && data[9..13] == header[9..13] && data[HEADERSIZE..] == body
    ensures forall a, b :: 0 <= a <= b <= |body| ==> (header + body)[HEADERSIZE + a..HEADERSIZE + b] == body[a..b]
  {}

  lemma HeaderRoundTrip(p: Packet, data: seq<byte>)
    requires p.kind == TYPE_XNC_ENC ==> |p.vector| == VECTORSIZE
    requires |p.piece| == PIECESIZE && (p.kind == TYPE_XNC_ENC || p.kind == TYPE_XNC)
    requires Fits32(p) && data == Header(p) + Body(p)
    ensures data[0] == p.kind && GetUint32(data[1..5]) == p.chunkId
    ensures GetUint32(data[5..9]) == p.chunkSize && GetUint32(data[9..13]) == p.chunkNum
  {
    FrameFields(Header(p), Body(p));
    Uint32RoundTrip(p.chunkId);
    Uint32RoundTrip(p.chunkSize);
    Uint32RoundTrip(p.chunkNum);
  }

  /** A data packet that can be encoded at all is read back unchanged; the frame has the size its kind
      calls for. */
  lemma PacketRoundTrip(p: Packet)
    requires Fits32(p) && EncodePacket(p).Bytes?
    requires p.kind == TYPE_XNC_ENC || (p.kind == TYPE_XNC && p.vector == [])
    ensures DecodePacket(EncodePacket(p).data) == Parsed(p)
    ensures |EncodePacket(p).data| == if p.kind == TYPE_XNC_ENC then FRAMESIZE_ENC else FRAMESIZE
  {
    HeaderRoundTrip(p, EncodePacket(p).data);
    FrameFields(Header(p), Body(p));
    if p.kind == TYPE_XNC_ENC {
      assert Body(p)[0..VECTORSIZE] == p.vector && Body(p)[VECTORSIZE..VECTORSIZE + PIECESIZE] == p.piece;
    }
  }

  // ---------- splitting a file ----------

  function ChunkCount(length: nat): (r: nat) {
    (length + CHUNKSIZE - 1) / CHUNKSIZE
  }

  /** Bytes of the file that belong to chunk `c`. */
  function ChunkLength(length: nat, c: nat): (r: nat)
    requires c < ChunkCount(length)
    ensures 0 < r <= CHUNKSIZE && c * CHUNKSIZE + r <= length
    ensures c + 1 < ChunkCount(length) ==> r == CHUNKSIZE
    ensures c + 1 == ChunkCount(length) ==> c * CHUNKSIZE + r == length
  {
    if c + 1 == ChunkCount(length) then length - c * CHUNKSIZE else CHUNKSIZE
  }

  function ChunkData(file: seq<byte>, c: nat): (r: seq<byte>)
    requires c < ChunkCount(|file|)
    ensures |r| == ChunkLength(|file|, c)
  {
    file[c * CHUNKSIZE..c * CHUNKSIZE + ChunkLength(|file|, c)]
  }

  /** Chunk `c` filled up with zero bytes. */
  function Chunk(file: seq<byte>, c: nat): (r: seq<byte>)
    requires c < ChunkCount(|file|)
    ensures |r| == CHUNKSIZE && r[..ChunkLength(|file|, c)] == ChunkData(file, c)
  {
    ChunkData(file, c) + Repeat(0, CHUNKSIZE - ChunkLength(|file|, c))
  }

  method SplitFile(file: seq<byte>) returns (chunks: seq<seq<byte>>)
    ensures |chunks| == ChunkCount(|file|)
    ensures forall c :: 0 <= c < |chunks| ==> chunks[c] == Chunk(file, c)
  {
    chunks := [];
    var i := 0;
    while i < |file|
      invariant i == |chunks| * CHUNKSIZE && |chunks| <= ChunkCount(|file|)
      invariant forall c :: 0 <= c < |chunks| ==> chunks[c] == Chunk(file, c)
    {
      var end := if i + CHUNKSIZE < |file| then i + CHUNKSIZE else |file|;
      var chunk := file[i..end];
      if |chunk| < CHUNKSIZE { chunk := chunk + Repeat(0, CHUNKSIZE - |chunk|); }
      assert chunk == Chunk(file, |chunks|);
      chunks := chunks + [chunk];
      i := i + CHUNKSIZE;
    }
  }

  /** The file's chunks without their filling. */
  ghost function FileParts(file: seq<byte>, c: nat): (r: seq<seq<byte>>)
    requires c <= ChunkCount(|file|)
    ensures |r| == c && forall k :: 0 <= k < c ==> r[k] == ChunkData(file, k) && r[k] != []
  {
    seq(c, k requires 0 <= k < c => ChunkData(file, k))
  }

  /** The chunks' own bytes, in order, make up the file. */
  lemma {:induction false} ChunksCoverFile(file: seq<byte>, c: nat)
    requires c <= ChunkCount(|file|)
    ensures c * CHUNKSIZE <= |file| || c == ChunkCount(|file|)
    ensures Concat(FileParts(file, c)) == if c == ChunkCount(|file|) then file else file[..c * CHUNKSIZE]
  {
    if c > 0 {
      ChunksCoverFile(file, c - 1);
      assert FileParts(file, c)[..c - 1] == FileParts(file, c - 1);
      var start, last := (c - 1) * CHUNKSIZE, ChunkData(file, c - 1);
      assert file[..start] + last == file[..start + |last|];
    }
  }

  // ---------- server ----------

  function PieceAt(chunk: seq<byte>, s: nat): (r: seq<byte>)
    requires |chunk| == CHUNKSIZE && s < PIECECNT
    ensures |r| == PIECESIZE
  {
    chunk[s * PIECESIZE..(s + 1) * PIECESIZE]
  }

  /** The pieces of chunk `c`, all of PIECESIZE bytes. */
  function ChunkPieces(file: seq<byte>, c: nat): (r: seq<seq<byte>>)
    requires c < ChunkCount(|file|)
    ensures |r| == PIECECNT && forall s :: 0 <= s < PIECECNT ==> r[s] == PieceAt(Chunk(file, c), s)
    ensures Originals(r, PIECECNT, PIECESIZE)
  {
    seq(PIECECNT, s requires 0 <= s < PIECECNT => PieceAt(Chunk(file, c), s))
  }

  lemma {:induction false} FlatOfSlices(chunk: seq<byte>, pieces: seq<seq<byte>>, k: nat)
    requires |chunk| == CHUNKSIZE && k <= PIECECNT && |pieces| == k
    requires forall s :: 0 <= s < k ==> pieces[s] == PieceAt(chunk, s)
    ensures Concat(pieces) == chunk[..k * PIECESIZE]
  {
    if k > 0 { FlatOfSlices(chunk, pieces[..k - 1], k - 1); }
  }

  type Vector = v: seq<byte> | |v| == VECTORSIZE witness Repeat(0, VECTORSIZE)

  /** A transfer: the field, the file, the mode and the random coding vector drawn for each coded piece
      of each chunk. */
  datatype Plan = Plan(f: Field<byte>, file: seq<byte>, encode: bool, drawn: (nat, nat) -> Vector)
  {
    function Count(): nat { ChunkCount(|file|) }

    function PerChunk(): nat { if encode then CODEDPIECECNT else PIECECNT }

    function FrameSize(): nat { if encode then FRAMESIZE_ENC else FRAMESIZE }

    /** Coded piece `s` of chunk `c`. */
    function CodedRow(c: nat, s: nat): (r: Row<byte>)
      requires c < Count()
      ensures |r.vec| == VECTORSIZE && |r.load| == PIECESIZE
    {
      Encoded(f, drawn(c, s), ChunkPieces(file, c), PIECESIZE)
    }

    function PacketAt(c: nat, s: nat): (r: Packet)
      requires c < Count() && s < PerChunk()
      ensures EncodePacket(r).Bytes?
      ensures r.chunkId == c && r.chunkNum == Count() && r.chunkSize == ChunkLength(|file|, c)
    {
      if encode then Packet(TYPE_XNC_ENC, c, ChunkLength(|file|, c), Count(), CodedRow(c, s).vec, CodedRow(c, s).load)
      else Packet(TYPE_XNC, c, ChunkLength(|file|, c), Count(), [], ChunkPieces(file, c)[s])
    }

    function FrameAt(c: nat, s: nat): (r: seq<byte>)
      requires c < Count() && s < PerChunk()
    {
      EncodePacket(PacketAt(c, s)).data
    }

    function ChunkFrames(c: nat): (r: seq<seq<byte>>)
      requires c < Count()
      ensures |r| == PerChunk() && forall s :: 0 <= s < PerChunk() ==> r[s] == FrameAt(c, s)
    {
      seq(PerChunk(), s requires 0 <= s < PerChunk() => FrameAt(c, s))
    }

    function FileFrames(): (r: seq<seq<seq<byte>>>)
      ensures |r| == Count() && forall c :: 0 <= c < Count() ==> r[c] == ChunkFrames(c)
    {
      seq(Count(), c requires 0 <= c < Count() => ChunkFrames(c))
    }

    /** Everything the server writes: the chunks and five end markers. */
    function AllFrames(): (r: seq<seq<byte>>) {
      Concat(FileFrames()) + Repeat(EndFrame(Count() - 1, encode), 5)
    }
  }

  function EndFrame(id: int, encode: bool): (r: seq<byte>)
    ensures |r| == (if encode then FRAMESIZE_ENC else FRAMESIZE) && DecodePacket(r) == EndPacket
  {
    [TYPE_END] + PutUint32(id) + Repeat(0, (if encode then FRAMESIZE_ENC else FRAMESIZE) - 5)
  }

  // ---------- client ----------

  datatype Client = Receiving(decoders: seq<Dec<byte>>, chunk: seq<byte>, out: seq<byte>) | Finished(out: seq<byte>) | Failed

  predicate DecoderOk(d: Dec<byte>) {
    d.expected == PIECECNT && forall i :: 0 <= i < |d.rows| ==> |d.rows[i].vec| == PIECECNT && |d.rows[i].load| == PIECESIZE
  }

  /** The client's reaction to one frame.  Failed stands for an error return and for an index or slice
      out of range. */
  function Handle(f: Field<byte>, encode: bool, st: Client, frame: seq<byte>): (r: Client) {
    if !st.Receiving? then st
    else match DecodePacket(frame)
      case ParseError => Failed
      case OutOfRange => Failed
      case EndPacket => Finished(st.out)
      case Parsed(p) => if encode then HandleCoded(f, st, p) else HandlePlain(st, p)
  }

  /** The decoders, created by the first packet. */
  function Decoders(st: Client, p: Packet): seq<Dec<byte>>
    requires st.Receiving?
  {
    if st.decoders == [] && p.chunkNum >= 0 then Repeat(Initial(PIECECNT), p.chunkNum) else st.decoders
  }

  function HandleCoded(f: Field<byte>, st: Client, p: Packet): (r: Client)
    requires st.Receiving?
  {
    var ds := Decoders(st, p);
    if !(0 <= p.chunkId < |ds|) || |p.vector| != VECTORSIZE || |p.piece| != PIECESIZE || !DecoderOk(ds[p.chunkId]) then Failed
    else if Decoded(ds[p.chunkId]) then Receiving(ds, st.chunk, st.out)
    else
      var d := Receive(f, ds[p.chunkId], Row(p.vector, p.piece), PIECESIZE);
      var data := Concat(Loads(d.rows));
      if !Decoded(d) then Receiving(ds[p.chunkId := d], st.chunk, st.out)
      else if !(0 <= p.chunkSize <= |data|) then Failed
      else if p.chunkId == p.chunkNum - 1 then Finished(st.out + data[..p.chunkSize])
      else Receiving(ds[p.chunkId := d], st.chunk, st.out + data[..p.chunkSize])
  }

  function HandlePlain(st: Client, p: Packet): (r: Client)
    requires st.Receiving?
  {
    var chunk := st.chunk + p.piece;
    if |chunk| != CHUNKSIZE then Receiving(st.decoders, chunk, st.out)
    else if !(0 <= p.chunkSize <= CHUNKSIZE) then Failed
    else if p.chunkId == p.chunkNum - 1 then Finished(st.out + chunk[..p.chunkSize])
    else Receiving(st.decoders, [], st.out + chunk[..p.chunkSize])
  }

  const FreshClient := Receiving([], [], [])

  function Reaction(f: Field<byte>, encode: bool): (r: (Client, seq<byte>) -> Client)
    ensures forall st, frame :: r(st, frame) == Handle(f, encode, st, frame)
  {
    (st, frame) => Handle(f, encode, st, frame)
  }
}
