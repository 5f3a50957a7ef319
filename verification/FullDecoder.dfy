/** The decoder object: counters plus the matrices it eliminates in place. */
module FullDecoder {
  import opened Fields
  import opened Elimination
  import opened DecoderMatrix
  import opened Decoding
  import opened Reduction

  datatype AddResult = Added | AllUsefulPiecesReceived
  datatype PiecesResult<T> = Pieces(data: seq<array<T>>) | MoreUsefulPiecesRequired

  class FullRLNCDecoder<T(==,!new)> {
    const expected: nat
    var useful: nat
    var received: nat
    const state: DecoderState<T>
    /** The payload length all pieces share. */
    ghost const width: nat

    constructor (field: Field<T>, pieceCount: nat, ghost width: nat)
      ensures expected == pieceCount && this.width == width && state.field == field && fresh(state)
      ensures Valid() && Value() == Initial(pieceCount) && state.repr == {}
    {
      expected := pieceCount;
      useful := 0;
      received := 0;
      state := new DecoderState(field, pieceCount);
      this.width := width;
    }

    ghost predicate Valid()
      reads this, state, state.repr
    {
      && Stored()
      && WellFormed(state.field, Value(), width)
    }

    ghost predicate Stored()
      reads this, state
    {
      state.pieceCount == expected && state.Valid(expected, width)
    }

    ghost function Value(): (d: Dec<T>)
      requires |state.coeffs| == |state.coded|
      reads this, state, state.coeffs, state.coded
    {
      Dec(expected, useful, received, state.Rows())
    }

    predicate IsDecoded()
      reads this
    {
      useful >= expected
    }

    /** Eliminates and recounts; the first piece ever received is only counted. */
    method Update(n: nat, w: nat)
      requires Stored() && n == expected && w == width && received > 0
      modifies this`useful, state`coeffs, state`coded, state.repr
      ensures Stored()
      ensures received == 1 ==> useful == old(useful) + 1 && state.Rows() == old(state.Rows())
      ensures received > 1 ==> useful == |state.Rows()| && state.Rows() == Elimination.Rref(state.field, old(state.Rows()), n, w)
    {
      if !(received > 1) {
        useful := useful + 1;
      } else {
        state.Rref(n, w);
        useful := state.Rank();
      }
    }

    /** Stores a piece and counts it. */
    method Accept(vector: array<T>, piece: array<T>)
      requires Lawful(state.field) && Valid() && !IsDecoded()
      requires vector.Length == expected && piece.Length == width && vector != piece
      requires vector !in state.repr && piece !in state.repr
      modifies this, state, state.repr, vector, piece
      ensures Valid()
      ensures Value() == Receive(state.field, old(Value()), Row(old(vector[..]), old(piece[..])), width)
      ensures state.repr == old(state.repr) + {vector, piece}
    {
      ghost var next := Receive(state.field, Value(), Row(vector[..], piece[..]), width);
      assert WellFormed(state.field, next, width) by {
        ReceiveWellFormed(state.field, Value(), Row(vector[..], piece[..]), width);
      }
      state.AddPiece(vector, piece, vector.Length, piece.Length);
      received := received + 1;
      Update(vector.Length, piece.Length);
      assert Value() == next;
    }

    /** Takes over the caller's arrays, which must not be stored already. */
    method AddPiece(vector: array<T>, piece: array<T>) returns (r: AddResult)
      requires Lawful(state.field) && Valid()
      requires vector.Length == expected && piece.Length == width && vector != piece
      requires vector !in state.repr && piece !in state.repr
      modifies this, state, state.repr, vector, piece
      ensures Valid()
      ensures r == AllUsefulPiecesReceived <==> old(IsDecoded())
      ensures Value() == Receive(state.field, old(Value()), Row(old(vector[..]), old(piece[..])), width)
      ensures Takes(state.field, old(Value()), Row(old(vector[..]), old(piece[..])), Value(), width)
      ensures state.repr == old(state.repr) + (if r == Added then {vector, piece} else {})
    {
      ReceiveTakes(state.field, Value(), Row(vector[..], piece[..]), width);
      if IsDecoded() { return AllUsefulPiecesReceived; }
      Accept(vector, piece);
      return Added;
    }

    /** All pieces in order once the decoder reports success, and an error before that. */
    method GetPieces() returns (r: PiecesResult<T>)
      requires Valid()
      ensures r.Pieces? <==> IsDecoded()
      ensures r.Pieces? ==> |r.data| == expected && forall i :: 0 <= i < expected ==> r.data[i][..] == Value().rows[i].load
    {
      if !IsDecoded() { return MoreUsefulPiecesRequired; }
      var pieces: seq<array<T>> := [];
      for i := 0 to useful
        invariant |pieces| == i
        invariant forall k :: 0 <= k < i ==> pieces[k] == state.coded[k]
      {
        var piece := state.GetPiece(i, width);
        pieces := pieces + [piece.data];
      }
      return Pieces(pieces);
    }
  }
}
