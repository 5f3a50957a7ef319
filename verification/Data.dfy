/** Cutting data into pieces of equal length and putting flattened pieces back into shape. */
module PieceData {
  import opened Elimination
  import opened Folds

  datatype SplitError = ZeroPieceSize | BadPieceCount | PieceCountMoreThanTotalBytes
  datatype SplitResult<T> = Split(pieces: seq<seq<T>>, padding: nat) | SplitFailed(error: SplitError)

  datatype RecodingError = CodedDataLengthMismatch | CodingVectorLengthMismatch
  datatype RecodingResult<!T> = CodedPieces(pieces: seq<Row<T>>) | RecodingFailed(error: RecodingError)

  ghost predicate AllLength<T>(pieces: seq<seq<T>>, size: nat) {
    forall i :: 0 <= i < |pieces| ==> |pieces[i]| == size
  }

  function Repeat<T>(x: T, n: nat): (r: seq<T>)
    ensures |r| == n && forall i :: 0 <= i < n ==> r[i] == x
  {
    seq(n, _ => x)
  }

  function CeilDiv(a: nat, b: nat): (r: nat)
    requires b > 0
    ensures a <= r * b < a + b
  {
    CeilBounds(a, b);
    (a + b - 1) / b
  }

  lemma CeilBounds(a: nat, b: nat)
    requires b > 0
    ensures a <= ((a + b - 1) / b) * b < a + b
  {
    var q, m := (a + b - 1) / b, (a + b - 1) % b;
    assert a + b - 1 == q * b + m;
  }

  lemma MulMonotone(x: nat, y: nat, b: nat)
    ensures x <= y ==> x * b <= y * b
    ensures (x + 1) * b == x * b + b
  {
    assert (x + 1) * b == x * b + b;
    if x <= y { assert y * b == x * b + (y - x) * b; }
  }

  lemma CeilExact(k: nat, b: nat)
    requires b > 0
    ensures CeilDiv(k * b, b) == k
  {
    var q := CeilDiv(k * b, b);
    MulMonotone(k + 1, q, b);
    MulMonotone(q + 1, k, b);
  }

  lemma {:induction false} FlatLength<T>(pieces: seq<seq<T>>, size: nat)
    requires AllLength(pieces, size)
    ensures |Concat(pieces)| == |pieces| * size
  {
    if pieces != [] {
      var n := |pieces| - 1;
      FlatLength(pieces[..n], size);
      assert Concat(pieces) == Concat(pieces[..n]) + pieces[n];
      assert (n + 1) * size == n * size + size;
    }
  }

  lemma SliceStep<T>(data: seq<T>, size: nat, i: nat, count: nat)
    requires i < count && |data| == count * size
    ensures 0 <= size * i <= size * (i + 1) <= |data|
    ensures data[..size * i] + data[size * i..size * (i + 1)] == data[..size * (i + 1)]
  {
    assert size * (i + 1) <= size * count;
    assert size * i + size == size * (i + 1);
  }

  /** The loop that takes consecutive slices of `size`. */
  method Slices<T>(data: seq<T>, size: nat, count: nat) returns (pieces: seq<seq<T>>)
    requires |data| == count * size
    ensures |pieces| == count && AllLength(pieces, size) && Concat(pieces) == data
  {
    pieces := [];
    for i := 0 to count
      invariant |pieces| == i && AllLength(pieces, size)
      invariant 0 <= size * i <= |data| && Concat(pieces) == data[..size * i]
    {
      SliceStep(data, size, i, count);
      ghost var before := pieces;
      pieces := pieces + [data[size * i..size * (i + 1)]];
      assert pieces[..i] == before;
    }
    assert data[..size * count] == data;
  }

  /** Splitting by size: as many pieces of `size` cells as needed, the last one filled up with zeros. */
  method SplitBySize<T>(data: seq<T>, zero: T, size: nat) returns (r: SplitResult<T>)
    ensures size == 0 ==> r == SplitFailed(ZeroPieceSize)
    ensures size > 0 && size >= |data| ==> r == SplitFailed(BadPieceCount)
    ensures 0 < size < |data| ==> r.Split? && AllLength(r.pieces, size) && |r.pieces| == CeilDiv(|data|, size)
    ensures r.Split? ==> Concat(r.pieces) == data + Repeat(zero, r.padding) && r.padding < size
  {
    if size == 0 { return SplitFailed(ZeroPieceSize); }
    if size >= |data| { return SplitFailed(BadPieceCount); }
    var count := CeilDiv(|data|, size);
    var padding := count * size - |data|;
    var padded := if padding > 0 then data + Repeat(zero, padding) else data;
    assert padded == data + Repeat(zero, padding);
    var pieces := Slices(padded, size, count);
    return Split(pieces, padding);
  }

  /** Data that is an exact multiple of the piece size needs no padding. */
  method SplitExact<T>(data: seq<T>, zero: T, size: nat, count: nat) returns (pieces: seq<seq<T>>)
    requires size > 0 && count >= 2 && |data| == count * size
    ensures |pieces| == count && AllLength(pieces, size) && Concat(pieces) == data
  {
    MulMonotone(2, count, size);
    CeilExact(count, size);
    var r := SplitBySize(data, zero, size);
    FlatLength(r.pieces, size);
    assert r.padding == 0;
    return r.pieces;
  }

  /** Splitting by count: exactly `count` pieces of one length whose concatenation is the data followed
      by the reported number of zeros. */
  method SplitByCount<T>(data: seq<T>, zero: T, count: nat) returns (r: SplitResult<T>)
    ensures count < 2 ==> r == SplitFailed(BadPieceCount)
    ensures count >= 2 && count > |data| ==> r == SplitFailed(PieceCountMoreThanTotalBytes)
    ensures 2 <= count <= |data| ==> r.Split? && |r.pieces| == count && AllLength(r.pieces, CeilDiv(|data|, count))
    ensures r.Split? ==> Concat(r.pieces) == data + Repeat(zero, r.padding) && r.padding < count
  {
    if count < 2 { return SplitFailed(BadPieceCount); }
    if count > |data| { return SplitFailed(PieceCountMoreThanTotalBytes); }
    var size := CeilDiv(|data|, count);
    var padding := count * size - |data|;
    var padded := if padding > 0 then data + Repeat(zero, padding) else data;
    assert padded == data + Repeat(zero, padding);
    var inner := SplitExact(padded, zero, size, count);
    return Split(inner, padding);
  }

  function Flatten<T>(piece: Row<T>): (r: seq<T>) {
    piece.vec + piece.load
  }

  function FlattenAll<T>(pieces: seq<Row<T>>): (r: seq<seq<T>>)
    ensures |r| == |pieces| && forall i :: 0 <= i < |r| ==> r[i] == Flatten(pieces[i])
  {
    seq(|pieces|, i requires 0 <= i < |pieces| => Flatten(pieces[i]))
  }

  lemma {:induction false} FlatSlice<T>(pieces: seq<seq<T>>, size: nat, i: nat)
    requires AllLength(pieces, size) && i < |pieces|
    ensures 0 <= size * i <= size * (i + 1) <= |Concat(pieces)|
    ensures Concat(pieces)[size * i..size * (i + 1)] == pieces[i]
  {
    var last := |pieces| - 1;
    var front := Concat(pieces[..last]);
    FlatLength(pieces[..last], size);
    FlatLength(pieces, size);
    assert size * (i + 1) == size * i + size && last * size == size * last && |pieces| * size == size * last + size;
    if i < last {
      FlatSlice(pieces[..last], size, i);
      assert Concat(pieces)[size * i..size * (i + 1)] == front[size * i..size * (i + 1)];
    }
  }

  /** Reads `count` flattened pieces whose coding vectors have `together` cells. */
  method CodedPiecesForRecoding<T>(data: seq<T>, count: nat, together: nat) returns (r: RecodingResult<T>)
    requires count > 0
    ensures |data| % count != 0 ==> r == RecodingFailed(CodedDataLengthMismatch)
    ensures |data| % count == 0 && together >= |data| / count ==> r == RecodingFailed(CodingVectorLengthMismatch)
    ensures |data| % count == 0 && together < |data| / count ==>
      && r.CodedPieces? && |r.pieces| == count && Shaped(r.pieces, together, |data| / count - together)
      && Concat(FlattenAll(r.pieces)) == data
  {
    var length := |data| / count;
    assert |data| == length * count + |data| % count;
    if length * count != |data| { return RecodingFailed(CodedDataLengthMismatch); }
    if !(together < length) { return RecodingFailed(CodingVectorLengthMismatch); }
    var slices := Slices(data, length, count);
    var pieces: seq<Row<T>> := [];
    for i := 0 to count
      invariant |pieces| == i && Shaped(pieces, together, length - together)
      invariant forall k :: 0 <= k < i ==> Flatten(pieces[k]) == slices[k]
    {
      pieces := pieces + [Row(slices[i][..together], slices[i][together..])];
    }
    assert FlattenAll(pieces) == slices;
    return CodedPieces(pieces);
  }

  /** Only one list of pieces of that shape flattens to the data, so reading undoes flattening. */
  lemma FlattenIsInjective<T>(a: seq<Row<T>>, b: seq<Row<T>>, n: nat, w: nat)
    requires Shaped(a, n, w) && Shaped(b, n, w) && |a| == |b| && Concat(FlattenAll(a)) == Concat(FlattenAll(b))
    ensures a == b
  {
    forall i | 0 <= i < |a|
      ensures a[i] == b[i]
    {
      FlatSlice(FlattenAll(a), n + w, i);
      FlatSlice(FlattenAll(b), n + w, i);
      var flat := Flatten(a[i]);
      assert flat == Flatten(b[i]);
      assert a[i].vec == flat[..n] == b[i].vec && a[i].load == flat[n..] == b[i].load;
    }
  }

  /** Round trip: what a sender flattened and concatenated is what CodedPiecesForRecoding returns. */
  method FlattenRoundTrip<T>(pieces: seq<Row<T>>, n: nat, w: nat) returns (r: RecodingResult<T>)
    requires pieces != [] && Shaped(pieces, n, w) && w > 0
    ensures r == CodedPieces(pieces)
  {
    FlatLength(FlattenAll(pieces), n + w);
    var data := Concat(FlattenAll(pieces));
    assert |data| == |pieces| * (n + w);
    DivExact(|pieces|, n + w);
    r := CodedPiecesForRecoding(data, |pieces|, n);
    FlattenIsInjective(r.pieces, pieces, n, w);
  }

  lemma DivExact(a: nat, b: nat)
    requires a > 0
    ensures (a * b) / a == b && (a * b) % a == 0
  {
    var q, m := (a * b) / a, (a * b) % a;
    assert a * b == q * a + m;
    MulMonotone(q + 1, b, a);
    MulMonotone(b + 1, q, a);
  }
}
