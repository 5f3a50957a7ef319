/** Encoders and recoders: how coded pieces come to be, and why the decoder may trust their vectors. */
module Coding {
  import opened Fields
  import opened LinearAlgebra
  import opened Elimination
  import opened DecoderMatrix
  import opened Decoding
  import opened MultiplyWorkers

  /** The sum of the first `k` pieces, each times its coefficient. */
  function Combine<T>(f: Field<T>, vector: seq<T>, pieces: seq<seq<T>>, w: nat, k: nat): (r: seq<T>)
    requires k <= |vector| == |pieces| && Originals(pieces, |pieces|, w)
    ensures |r| == w
  {
    if k == 0 then Zeros(f, w) else AddScaled(f, Combine(f, vector, pieces, w, k - 1), pieces[k - 1], vector[k - 1], 0)
  }

  lemma {:induction false} CombineCell<T(!new)>(f: Field<T>, vector: seq<T>, pieces: seq<seq<T>>, w: nat, k: nat, x: nat)
    requires Lawful(f) && k <= |vector| == |pieces| && Originals(pieces, |pieces|, w) && x < w
    ensures Combine(f, vector, pieces, w, k)[x] == Dot(f, vector, Column(pieces, x), k)
  {
    if k > 0 {
      CombineCell(f, vector, pieces, w, k - 1, x);
      MulComm(f, pieces[k - 1][x], vector[k - 1]);
    }
  }

  /** A combination of vectors meets `v` as the combination of their dot products does. */
  lemma {:induction false} DotCombine<T(!new)>(f: Field<T>, r: seq<T>, vectors: seq<seq<T>>, n: nat, v: seq<T>, dots: seq<T>, k: nat)
    requires Lawful(f) && k <= |r| == |vectors| == |dots| && Originals(vectors, |vectors|, n) && |v| == n
    requires forall i :: 0 <= i < |vectors| ==> dots[i] == Dot(f, vectors[i], v, n)
    ensures Dot(f, Combine(f, r, vectors, n, k), v, n) == Dot(f, r, dots, k)
  {
    if k == 0 {
      DotZero(f, Zeros(f, n), v, n);
    } else {
      DotCombine(f, r, vectors, n, v, dots, k - 1);
      DotAddScaled(f, Combine(f, r, vectors, n, k - 1), vectors[k - 1], r[k - 1], v, n);
    }
  }

  /** The coding vector a recoder publishes, a row vector times its coding matrix, is that combination. */
  lemma ProductRowIsCombine<T(!new)>(f: Field<T>, r: seq<T>, vectors: seq<seq<T>>, n: nat, product: seq<seq<T>>)
    requires Lawful(f) && |r| == |vectors| && Originals(vectors, |vectors|, n) && Multipliable([r], vectors, n)
    requires IsProduct(f, [r], vectors, n, product)
    ensures product[0] == Combine(f, r, vectors, n, |r|)
  {
    forall x | 0 <= x < n
      ensures product[0][x] == Combine(f, r, vectors, n, |r|)[x]
    {
      CombineCell(f, r, vectors, n, |r|, x);
    }
  }

  // ---------- pieces and what they say of the originals ----------

  /** A piece emitted by the full encoder for a given coding vector. */
  function Encoded<T>(f: Field<T>, vector: seq<T>, originals: seq<seq<T>>, w: nat): (r: Row<T>)
    requires |vector| == |originals| && Originals(originals, |originals|, w)
    ensures |r.vec| == |originals| && |r.load| == w
  {
    Row(vector, Combine(f, vector, originals, w, |vector|))
  }

  /** A piece emitted by a recoder for given coefficients over the pieces it holds. */
  function Recoded<T>(f: Field<T>, r: seq<T>, held: seq<Row<T>>, n: nat, w: nat): (piece: Row<T>)
    requires |r| == |held| && Shaped(held, n, w)
    ensures |piece.vec| == n && |piece.load| == w
  {
    Row(Combine(f, r, Vectors(held), n, |r|), Combine(f, r, Loads(held), w, |r|))
  }

  lemma EncodedCodes<T(!new)>(f: Field<T>, vector: seq<T>, originals: seq<seq<T>>, w: nat)
    requires Lawful(f) && |vector| == |originals| && Originals(originals, |originals|, w)
    ensures Codes(f, Encoded(f, vector, originals, w), originals, |originals|, w)
  {
    forall x | 0 <= x < w
      ensures Encoded(f, vector, originals, w).load[x] == Dot(f, vector, Column(originals, x), |originals|)
    {
      CombineCell(f, vector, originals, w, |vector|, x);
    }
  }

  lemma SystematicCodes<T(!new)>(f: Field<T>, originals: seq<seq<T>>, w: nat, i: nat)
    requires Lawful(f) && Originals(originals, |originals|, w) && i < |originals|
    ensures Codes(f, Row(Unit(f, |originals|, i), originals[i]), originals, |originals|, w)
  {
    forall x | 0 <= x < w
      ensures originals[i][x] == Dot(f, Unit(f, |originals|, i), Column(originals, x), |originals|)
    {
      DotUnit(f, |originals|, i, Column(originals, x));
    }
  }

  /** Recoding keeps the meaning of a coding vector: associativity of the matrix product. */
  lemma RecodedCodes<T(!new)>(f: Field<T>, r: seq<T>, held: seq<Row<T>>, originals: seq<seq<T>>, n: nat, w: nat)
    requires Lawful(f) && |r| == |held| && Shaped(held, n, w) && Originals(originals, n, w)
    requires AllCode(f, held, originals, n, w)
    ensures Codes(f, Recoded(f, r, held, n, w), originals, n, w)
  {
    forall x | 0 <= x < w
      ensures Recoded(f, r, held, n, w).load[x] == Dot(f, Recoded(f, r, held, n, w).vec, Column(originals, x), n)
    {
      var dots := Column(Loads(held), x);
      forall i | 0 <= i < |held|
        ensures dots[i] == Dot(f, Vectors(held)[i], Column(originals, x), n)
      {
        assert Codes(f, held[i], originals, n, w);
      }
      CombineCell(f, r, Loads(held), w, |r|, x);
      DotCombine(f, r, Vectors(held), n, Column(originals, x), dots, |r|);
    }
  }

  /** How a piece was produced: by an encoder, or by a recoder from pieces produced earlier. */
  datatype Source<!T> = FullEncoder(vector: seq<T>) | SystematicEncoder(index: nat) | Recoder(coeffs: seq<T>, inputs: seq<Source<T>>)

  ghost predicate Feasible<T>(s: Source<T>, n: nat)
    decreases s
  {
    match s
    case FullEncoder(vector) => |vector| == n
    case SystematicEncoder(index) => index < n
    case Recoder(coeffs, inputs) => |coeffs| == |inputs| && forall i :: 0 <= i < |inputs| ==> Feasible(inputs[i], n)
  }

  ghost function Emit<T>(f: Field<T>, s: Source<T>, originals: seq<seq<T>>, n: nat, w: nat): (r: Row<T>)
    requires Originals(originals, n, w) && Feasible(s, n)
    ensures |r.vec| == n && |r.load| == w
    decreases s
  {
    match s
    case FullEncoder(vector) => Encoded(f, vector, originals, w)
    case SystematicEncoder(index) => Row(Unit(f, n, index), originals[index])
    case Recoder(coeffs, inputs) => Recoded(f, coeffs, EmitAll(f, inputs, originals, n, w), n, w)
  }

  ghost function EmitAll<T>(f: Field<T>, sources: seq<Source<T>>, originals: seq<seq<T>>, n: nat, w: nat): (r: seq<Row<T>>)
    requires Originals(originals, n, w) && forall i :: 0 <= i < |sources| ==> Feasible(sources[i], n)
    ensures |r| == |sources| && Shaped(r, n, w)
    decreases sources
  {
    if sources == [] then []
    else EmitAll(f, sources[..|sources| - 1], originals, n, w) + [Emit(f, sources[|sources| - 1], originals, n, w)]
  }

  /** Recoding closure: a piece that went through any finite network of encoders and recoders is still
      the combination of the originals that its coding vector names. */
  lemma {:induction false} EmittedCodes<T(!new)>(f: Field<T>, s: Source<T>, originals: seq<seq<T>>, n: nat, w: nat)
    requires Lawful(f) && Originals(originals, n, w) && Feasible(s, n)
    ensures Codes(f, Emit(f, s, originals, n, w), originals, n, w)
    decreases s
  {
    match s
    case FullEncoder(vector) => EncodedCodes(f, vector, originals, w);
    case SystematicEncoder(index) => SystematicCodes(f, originals, w, index);
    case Recoder(coeffs, inputs) =>
      AllEmittedCode(f, inputs, originals, n, w);
      RecodedCodes(f, coeffs, EmitAll(f, inputs, originals, n, w), originals, n, w);
  }

  lemma {:induction false} AllEmittedCode<T(!new)>(f: Field<T>, sources: seq<Source<T>>, originals: seq<seq<T>>, n: nat, w: nat)
    requires Lawful(f) && Originals(originals, n, w) && forall i :: 0 <= i < |sources| ==> Feasible(sources[i], n)
    ensures AllCode(f, EmitAll(f, sources, originals, n, w), originals, n, w)
    decreases sources
  {
    if sources != [] {
      AllEmittedCode(f, sources[..|sources| - 1], originals, n, w);
      EmittedCodes(f, sources[|sources| - 1], originals, n, w);
    }
  }

  /** End to end over any coding network: if the decoder reports success it holds the originals, and it
      reports success exactly when the vectors that reached it determine them. */
  lemma NetworkDecodes<T(!new)>(f: Field<T>, sources: seq<Source<T>>, originals: seq<seq<T>>, n: nat, w: nat)
    requires Lawful(f) && n != 1 && Originals(originals, n, w) && forall i :: 0 <= i < |sources| ==> Feasible(sources[i], n)
    ensures var pieces := EmitAll(f, sources, originals, n, w);
      && (Decoded(Run(f, n, w, pieces)) <==> Determined(f, pieces, n, w))
      && (Decoded(Run(f, n, w, pieces)) ==> Loads(Run(f, n, w, pieces).rows) == originals)
  {
    var pieces := EmitAll(f, sources, originals, n, w);
    AllEmittedCode(f, sources, originals, n, w);
    DecodedIffDetermined(f, n, w, pieces);
    if Decoded(Run(f, n, w, pieces)) { DecodedPiecesAreOriginals(f, n, w, pieces, originals); }
  }

  // ---------- the encoders' methods ----------

  /** Accumulates into a fresh buffer, one original after the other. */
  method CombinePieces<T>(f: Field<T>, vector: array<T>, pieces: seq<array<T>>, w: nat) returns (piece: array<T>)
    requires vector.Length == |pieces| && forall i :: 0 <= i < |pieces| ==> pieces[i].Length == w
    ensures fresh(piece) && piece.Length == w
    ensures piece[..] == Combine(f, vector[..], Arrays(pieces), w, vector.Length)
  {
    piece := new T[w](_ => f.zero);
    assert piece[..] == Zeros(f, w);
    for i := 0 to |pieces|
      invariant piece[..] == Combine(f, vector[..], Arrays(pieces), w, i)
    {
      AddRow(f, piece, pieces[i], vector[i], 0);
    }
  }

  ghost function Arrays<T>(pieces: seq<array<T>>): (r: seq<seq<T>>)
    reads pieces
    ensures |r| == |pieces| && forall i :: 0 <= i < |pieces| ==> r[i] == pieces[i][..]
  {
    seq(|pieces|, i requires 0 <= i < |pieces| reads pieces => pieces[i][..])
  }

  ghost function RowOf<T>(vector: array<T>, piece: array<T>): Row<T>
    reads vector, piece
  {
    Row(vector[..], piece[..])
  }

  /** Emits each original once, uncoded and in order, and coded pieces after that.  `drawn` is the random
      coding vector that the coded branch uses. */
  class SystematicRLNCEncoder<T(!new)> {
    const field: Field<T>
    const pieces: seq<array<T>>
    const size: nat
    var currentPieceId: nat

    ghost predicate Valid()
      reads this, pieces
    {
      pieces != [] && currentPieceId <= |pieces| && forall i :: 0 <= i < |pieces| ==> pieces[i].Length == size
    }

    constructor (field: Field<T>, pieces: seq<array<T>>, size: nat)
      requires pieces != [] && forall i :: 0 <= i < |pieces| ==> pieces[i].Length == size
      ensures Valid() && this.field == field && this.pieces == pieces && this.size == size && currentPieceId == 0
    {
      this.field := field;
      this.pieces := pieces;
      this.size := size;
      this.currentPieceId := 0;
    }

    method CodedPiece(drawn: array<T>) returns (vector: array<T>, piece: array<T>)
      requires Valid() && drawn.Length == |pieces|
      modifies this`currentPieceId
      ensures Valid() && fresh(piece) && vector.Length == |pieces| && piece.Length == size
      ensures old(currentPieceId) < |pieces| ==>
        && currentPieceId == old(currentPieceId) + 1
        && RowOf(vector, piece) == Row(Unit(field, |pieces|, old(currentPieceId)), Arrays(pieces)[old(currentPieceId)])
      ensures old(currentPieceId) == |pieces| ==>
        && currentPieceId == old(currentPieceId)
        && RowOf(vector, piece) == Encoded(field, drawn[..], Arrays(pieces), size)
    {
      if currentPieceId < |pieces| {
        var id := currentPieceId;
        vector := new T[|pieces|](_ => field.zero);
        vector[id] := field.one;
        assert vector[..] == Unit(field, |pieces|, id);
        var src := pieces[id];
        piece := new T[size](i requires 0 <= i < src.Length reads src => src[i]);
        assert piece[..] == src[..];
        currentPieceId := id + 1;
      } else {
        vector := drawn;
        piece := CombinePieces(field, drawn, pieces, size);
      }
    }
  }

  /** Original `i` is among the pieces, uncoded. */
  ghost predicate HoldsUnit<T>(f: Field<T>, n: nat, pieces: seq<Row<T>>, i: nat)
    requires i < n
  {
    exists j :: 0 <= j < |pieces| && pieces[j].vec == Unit(f, n, i)
  }

  /** A systematic sender needs no luck: once each original has arrived uncoded, in any order and among
      any other pieces, the decoder reports success. */
  lemma SystematicPiecesSuffice<T(!new)>(f: Field<T>, n: nat, w: nat, pieces: seq<Row<T>>)
    requires Lawful(f) && n != 1 && Shaped(pieces, n, w)
    requires forall i :: 0 <= i < n ==> HoldsUnit(f, n, pieces, i)
    ensures Decoded(Run(f, n, w, pieces))
  {
    forall v | |v| == n && InNullSpace(f, pieces, n, w, v)
      ensures IsZero(f, v)
    {
      forall i | 0 <= i < n
        ensures v[i] == f.zero
      {
        assert HoldsUnit(f, n, pieces, i);
        var j :| 0 <= j < |pieces| && pieces[j].vec == Unit(f, n, i);
        DotUnit(f, n, i, v);
      }
    }
    DecodedIffDetermined(f, n, w, pieces);
  }

  /** Sums the products for cell `j` of the result into a buffer that starts at zero. */
  method MultiplyCell<T>(f: Field<T>, row: array<T>, j: nat, r: array<T>, matrix: seq<array<T>>, n: nat)
    requires r.Length == |matrix| && forall i :: 0 <= i < |matrix| ==> matrix[i].Length == n && matrix[i] != row
    requires row.Length == n && j < n && row[j] == f.zero && row != r
    modifies row
    ensures row[..] == old(row[..])[j := Dot(f, r[..], Column(Arrays(matrix), j), r.Length)]
  {
    ghost var col := Column(Arrays(matrix), j);
    for k := 0 to r.Length
      invariant row[..] == old(row[..])[j := Dot(f, r[..], col, k)]
    {
      row[j] := f.Add(row[j], f.Mul(r[k], matrix[k][j]));
    }
  }

  /** One row of Multiply: the row vector `r` times the coding matrix, cell by cell. */
  method MultiplyRow<T>(f: Field<T>, r: array<T>, matrix: seq<array<T>>, n: nat) returns (row: array<T>)
    requires r.Length == |matrix| && forall i :: 0 <= i < |matrix| ==> matrix[i].Length == n
    ensures fresh(row) && row.Length == n
    ensures forall c :: 0 <= c < n ==> row[c] == Dot(f, r[..], Column(Arrays(matrix), c), r.Length)
  {
    row := new T[n](_ => f.zero);
    ghost var rs, ms := r[..], Arrays(matrix);
    ghost var product := seq(n, c requires 0 <= c < n => Dot(f, rs, Column(ms, c), |rs|));
    for j := 0 to n
      invariant r[..] == rs && Arrays(matrix) == ms
      invariant forall c :: 0 <= c < j ==> row[c] == product[c]
      invariant forall c :: j <= c < n ==> row[c] == f.zero
    {
      MultiplyCell(f, row, j, r, matrix, n);
    }
  }

  /** The recoder: new coefficients over the held pieces, with the coding vector that describes the
      result in terms of the originals. */
  method RecodePiece<T(!new)>(f: Field<T>, r: array<T>, vectors: seq<array<T>>, pieces: seq<array<T>>, n: nat, w: nat)
    returns (vector: array<T>, piece: array<T>)
    requires Lawful(f) && r.Length == |vectors| == |pieces|
    requires forall i :: 0 <= i < |pieces| ==> vectors[i].Length == n && pieces[i].Length == w
    ensures fresh(vector) && fresh(piece)
    ensures RowOf(vector, piece) == Recoded(f, r[..], Contents(vectors, pieces), n, w)
  {
    piece := CombinePieces(f, r, pieces, w);
    vector := MultiplyRow(f, r, vectors, n);
    ghost var held := Contents(vectors, pieces);
    assert Vectors(held) == Arrays(vectors) && Loads(held) == Arrays(pieces);
    forall x | 0 <= x < n
      ensures vector[x] == Combine(f, r[..], Arrays(vectors), n, r.Length)[x]
    {
      CombineCell(f, r[..], Arrays(vectors), n, r.Length, x);
    }
    assert vector[..] == Combine(f, r[..], Arrays(vectors), n, r.Length);
  }

  /** Whether a coding vector marks its piece as uncoded. */
  method IsSystematic<T(==)>(f: Field<T>, vector: array<T>) returns (yes: bool)
    requires f.zero != f.one
    ensures yes <==> exists i :: 0 <= i < vector.Length && vector[..] == Unit(f, vector.Length, i)
  {
    var pos := -1;
    for i := 0 to vector.Length
      invariant -1 <= pos < i
      invariant forall k :: 0 <= k < i ==> vector[k] == if k == pos then f.one else f.zero
    {
      if vector[i] == f.one {
        if pos != -1 {
          assert forall j :: 0 <= j < vector.Length ==> vector[..][i] != Unit(f, vector.Length, j)[i] || vector[..][pos] != Unit(f, vector.Length, j)[pos];
          return false;
        }
        pos := i;
      } else if vector[i] != f.zero {
        assert forall j :: 0 <= j < vector.Length ==> vector[..][i] != Unit(f, vector.Length, j)[i];
        return false;
      }
    }
    if pos >= 0 {
      assert vector[..] == Unit(f, vector.Length, pos);
    } else {
      assert forall j :: 0 <= j < vector.Length ==> vector[..][j] != Unit(f, vector.Length, j)[j];
    }
    return pos >= 0;
  }
}
