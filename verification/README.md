# Verified model of the coded multipath transport

The repository transfers files and streams over QUIC with several paths and random linear network
coding. This project models its four pieces of protocol logic in Dafny and proves what they are for.

- **Network coding and file transfer** (`kodr`, `xnc`). The encoder, the recoder and the decoder with its
  in-place elimination, the wire packets, the server's packet sequence and the client's receive loop. The
  decoder is shown to be optimal: it is done exactly when the received vectors determine the originals.
  What it holds are combinations of what it was given, no coding vector given to it is lost, and what one piece
  does to its rows is stated without the elimination. Whole files come back exactly when each chunk's vectors span,
  which one useless draw of each chunk cannot spoil, and always in plain mode. The proofs are over
  any field of characteristic two; a field with 256 elements on bytes is constructed and proved to be one.
- **Byte streams** (`mp-quic` streams, framer, sorter). The receiver's gap list and frame map are shown to be
  an exact index of the bytes received, over every error-free run. Whatever the network does, what is read is a
  prefix of what was written, and until the reader is told the end it can read the next byte exactly when a frame
  that covers it was delivered. It may be told the end too early; exactly when is settled.
- **Flow control** (`mp-quic/internal/flowcontrol`). With both ends running this code, no flow-control check
  ever fires, and the connection counters are the sums over all streams ever opened. Once everything sent is read,
  the sender's windows open again, and a stream window that grows pulls the connection's along.
- **Acknowledgement and loss** (`mp-quic/ackhandler`). The receiver's interval list is the unique canonical form
  of a set. Every packet sent is in flight, acknowledged or lost, in exactly one place. Only packets that arrived
  are ever taken for acknowledged, and an honest peer is never rejected. A packet that asks for an acknowledgement gets
  a frame queued or an alarm set, and an alarm of the sender that finds something outstanding always retransmits
  something unless it only detects losses. When the number announced in a
  STOP_WAITING frame is the truth is settled for every operation of the sender.

Two smaller parts stand beside them: filling a packet within its size budget, and the balance of the OLIA
congestion control.

Objects the Go code changes in place are classes here, with the fields of the original; each method is tied to a
function on values, and the theorems are about those functions. Goroutines are modelled as steps of a state
machine, the network as the set of everything ever sent, and clocks, timers, randomness and round-trip times as
parameters. `dafny verify dfyconfig.toml` checks the whole project.

## Files

| file | contents |
|---|---|
| `Field.dfy`, `GaloisField.dfy`, `LinearAlgebra.dfy` | fields of characteristic two, a concrete one on bytes, vectors |
| `Elimination.dfy`, `DecoderState.dfy`, `Goroutines.dfy` | the elimination on values, in place, and by concurrent workers |
| `RowSpace.dfy`, `Reduction.dfy` | row spaces under elimination and over whole decoder runs, what one piece does |
| `Decoder.dfy`, `FullDecoder.dfy`, `Coding.dfy`, `Data.dfy` | decoder, encoders, recoder, splitting and flattening |
| `Xnc.dfy`, `XncTransfer.dfy`, `Folds.dfy` | packets and file transfer |
| `Sorter.dfy`, `Stream.dfy`, `StreamSystem.dfy`, `StreamEnd.dfy` | reassembly, reading, both ends of a stream, where the reader sees its end |
| `FlowControl.dfy`, `FlowSystem.dfy`, `FlowProgress.dfy` | flow controllers, both ends under flow control, when the sender may go on |
| `ReceivedPackets.dfy`, `AckFrames.dfy`, `AckWire.dfy`, `ReceivedHandler.dfy` | received packets and acknowledgement frames |
| `PacketLists.dfy`, `SentPackets.dfy`, `SentHandler.dfy`, `Alarms.dfy`, `SentRuns.dfy`, `StopWaiting.dfy`, `AckSystem.dfy` | sent packets, alarms, every run of the sender, what it announces, both ends |
| `Packing.dfy`, `Olia.dfy` | packet composition, coupled congestion control |

## Results that differ from what the code or its documentation suggests

- With one expected piece the decoder skips elimination, so it claims to be done after any first piece. It returns
  the original for every payload exactly when the coefficient is one (`SinglePieceNeedsUnitCoefficient`), and its
  claim is right exactly when no piece came or some coefficient is nonzero (`SinglePieceDetermined`). The main
  decoder theorems therefore exclude a piece count of one.
- A piece received twice may count as two useful ones. Before the matrix is square a pivot is looked for only in as
  many columns as there are rows, so the copy is dropped exactly when the coding vector is zero or is nonzero in one
  of its first two cells (`Reduction.RepeatedPiece`); then it counts once however often it arrives
  (`Reduction.CopiesCountOnce`). Whether the decoder is done is right all the same.
- Before full rank, `GetPiece` refuses a row that is already a unit vector (`RevealedPieceFailsEarlyTest`).
- A reader can be told that a stream ended before its end. When the last byte of a frame with the end marker has
  arrived and some other byte of it has not, the receiver cuts the tail off and keeps the marker
  (`Reassembly.CutShortIff`). A delivery opens the way to such an end exactly when it is of that kind
  (`StreamEnd.EndsEarlyIff`); without one the reader that is told the end has read everything
  (`StreamEnd.EndIsTheEnd`). `StreamEnd.EndsEarlyOnce` is a run of nine events between honest ends that loses a
  byte delivered twice.
- A receive window whose increment is below two bytes never moves once it is read to the end
  (`FlowControl.MovesIff`), and a sender that starts with less than the receiver grants is answered after using that
  up exactly when less than half of the grant is left (`FlowProgress.FirstUpdateIff`).
- The number announced in a STOP_WAITING frame is not always at or below everything in flight.
  `StopWaitingTruth.StepTruthfulIff` gives the exact condition for every operation of the sender: an
  acknowledgement must leave no packet below its largest number undecided, detected losses must be older than what
  stays, a tail-loss probe must find at most one packet in flight, and everything else is harmless. The condition on
  detected losses cannot fail in the code, since later packets have later send times (`ClockKeepsTruth`); the other
  two can, in runs that start with two sends (`AckCanFail`, `ProbeCanFail`).
- An acknowledgement whose topmost gap is wider than 64770 packets cannot be written: the writer announces one
  interval, writes at least 255 blocks more, fails its own count, and no frame leaves (`AckWire.WriteBlocks`, `AckWire.Travel`;
  `AckWire.WideOnce` with packets 1 and 64773).
- A PING at the front of the control frames goes out alone. It is lost when a STOP_WAITING frame is queued, and
  otherwise a queued acknowledgement is discarded with it (`Packing.PacketPacker.PackFrames`).
- OLIA's search for the best path starts over at a path without round-trip time and bytes, so its result depends on
  the order of a map. `Olia.BestInEveryOrderIff` says exactly when every order ends with a path that none outdoes,
  and `Olia.OrderMatters` shows three paths and two orders with different results.

## Model

| member | source | states |
|---|---|---|
| Elimination.ForwardTriangle | kodr/matrix/decoder_state.go:24-78 | after the columns before i are cleaned, everything below the diagonal in them is zero, also where a column had no pivot |
| Elimination.ForwardVanishes | kodr/matrix/decoder_state.go:24-78 | forward elimination keeps the solutions: a pair of vectors is annihilated by all rows before iff after, although coefficients are updated only from the pivot column on |
| Elimination.BackwardReduced | kodr/matrix/decoder_state.go:80-135 | backward elimination leaves unit columns above and below every nonzero diagonal entry |
| Elimination.BackwardVanishes | kodr/matrix/decoder_state.go:80-135 | backward elimination and scaling keep the solutions, in both directions |
| Elimination.DropVanishes | kodr/matrix/decoder_state.go:137-166 | dropping zero rows keeps the solutions |
| Elimination.ZeroDiagonalForcesZeroRow | kodr/matrix/decoder_state.go:80-166 | in a square reduced matrix a zero diagonal entry forces a zero row |
| Elimination.RrefSquare | kodr/matrix/decoder_state.go:179-183 | a square matrix keeps all its rows iff the result is the identity |
| Elimination.RrefVanishes | kodr/matrix/decoder_state.go:179-183 | the relation between coefficients and payload survives, and the null space of the coefficients is unchanged |
| RowSpace.EliminationKeepsSpan | kodr/matrix/decoder_state.go:24-135 | before rows are dropped each row, payload included, is a combination of the input rows, and each input row of the result's |
| RowSpace.RrefRowSpace | kodr/matrix/decoder_state.go:179-183 | each row of the result is a combination of the input rows, payload included, and each input coding vector is a combination of the result's |
| RowSpace.HeldRowsAreCombinations | kodr/full/decoder.go:58-74 | after any run each row held is a combination, with one set of coefficients for vector and payload, of the pieces given |
| RowSpace.GivenVectorsAreKept | kodr/full/decoder.go:58-74 | after any run each coding vector given is a combination of the coding vectors held |
| Reduction.RrefReduces | kodr/matrix/decoder_state.go:24-183 | the rows left are exactly the nonzero rows, in order, of a matrix of the same size that spans the same rows, payload included, is upper triangular and has a unit column at every nonzero diagonal entry, square or not |
| Reduction.ReceiveTakes | kodr/full/decoder.go:58-74 | what every call does to the rows, said of the rows: nothing once done, the first piece as it is, every other one reduced together with the rows held |
| Reduction.RepeatedPiece | kodr/full/decoder.go:58-74 | a piece received twice is useful once iff its vector is nonzero in one of the first two cells, not at all iff the vector is zero, and twice otherwise |
| Reduction.CopiesCountOnce | kodr/full/decoder.go:58-74 | any number of copies of a piece with such a vector leave one useful row, a multiple of it |
| LinearAlgebra.Underdetermined | kodr/full/decoder.go:40-42 | fewer rows than unknowns have a common nonzero null vector |
| DecoderMatrix.AddRow | kodr/matrix/decoder_state.go:66-72 | adds a multiple of one row to another in place, cell by cell |
| DecoderMatrix.DecoderState.constructor | kodr/matrix/decoder_state.go:264-268 | an empty state for a number of pieces |
| DecoderMatrix.DecoderState.PivotRow | kodr/matrix/decoder_state.go:33-46 | the first row at or below the diagonal with a nonzero entry in the column |
| DecoderMatrix.DecoderState.SwapRows | kodr/matrix/decoder_state.go:48-55 | exchanges two rows of both matrices |
| DecoderMatrix.DecoderState.ClearRow | kodr/matrix/decoder_state.go:64-73 | clears one cell with the pivot row, in coefficients and payload |
| DecoderMatrix.DecoderState.ClearRowsBelow | kodr/matrix/decoder_state.go:58-76 | clears the column below the pivot and nothing else |
| DecoderMatrix.DecoderState.ForwardColumn | kodr/matrix/decoder_state.go:33-76 | one column of forward elimination, skipped when it has no pivot |
| DecoderMatrix.DecoderState.CleanForward | kodr/matrix/decoder_state.go:24-78 | the loop over columns in place is the function Forward on the rows |
| DecoderMatrix.DecoderState.ClearRowsAbove | kodr/matrix/decoder_state.go:95-112 | clears the column above the diagonal |
| DecoderMatrix.DecoderState.NormalizeRow | kodr/matrix/decoder_state.go:114-133 | divides a row by its diagonal entry unless that is one |
| DecoderMatrix.DecoderState.BackwardColumn | kodr/matrix/decoder_state.go:89-133 | one column of backward elimination |
| DecoderMatrix.DecoderState.CleanBackward | kodr/matrix/decoder_state.go:80-135 | the loop in place is the function Backward on the rows |
| DecoderMatrix.AllZero | kodr/matrix/decoder_state.go:143-149 | whether a coefficient row is zero |
| DecoderMatrix.DecoderState.RemoveZeroRows | kodr/matrix/decoder_state.go:137-166 | exactly the rows with nonzero coefficients stay, in order |
| DecoderMatrix.DecoderState.Rref | kodr/matrix/decoder_state.go:179-183 | the three phases in place are the function Rref on the rows |
| DecoderMatrix.DecoderState.AddPiece | kodr/matrix/decoder_state.go:206-209 | appends the caller's two slices as a row |
| DecoderMatrix.DecoderState.GetPiece | kodr/matrix/decoder_state.go:222-262 | each error case, the full-rank case, and exactly which row an early call returns |
| DecoderMatrix.RevealedPieceFailsEarlyTest | kodr/matrix/decoder_state.go:234-257 | the early test rejects a row that is already the unit vector it should accept |
| ClearingWorkers.WorkersTerminate | kodr/matrix/decoder_state.go:58-76 | the loop that starts the workers and the workers have a finite amount of work: each turn that changes something uses some up, none is left exactly when all is finished, and until then some turn changes something |
| ClearingWorkers.ForwardScheduleIndependent | kodr/matrix/decoder_state.go:58-76 | every interleaving of the starting loop and the row workers already started, one cell at a time, gives the matrix of the sequential loop |
| ClearingWorkers.BackwardScheduleIndependent | kodr/matrix/decoder_state.go:95-112 | the same for the backward phase |
| ClearingWorkers.RrefAnySchedule | kodr/matrix/decoder_state.go:24-183 | whatever the schedules of the workers in each column of both passes, the whole elimination gives the matrix of the sequential one |
| MultiplyWorkers.NextKeepsInv | kodr/matrix/matrix.go:48-84 | each step of the pool keeps rows handed out, rows done and pending counts in agreement |
| MultiplyWorkers.PoolComputesProduct | kodr/matrix/matrix.go:48-84 | when the pool has nothing left to do the result is the matrix product, for any number of workers and any schedule |
| MultiplyWorkers.EventLowers | kodr/matrix/matrix.go:48-84 | every event that changes the pool takes exactly one turn off what is left, and every other event changes nothing |
| MultiplyWorkers.PoolFinishes | kodr/matrix/matrix.go:48-84 | with at least one worker, whatever happened so far, the pool can be brought to the state where Wait returns, and it then holds the product |
| Decoding.RunWellFormed | kodr/full/decoder.go:58-74 | after any pieces the rows have the right shape and there are at most as many as expected |
| Decoding.RunKeepsRelations | kodr/full/decoder.go:58-74 | whatever linear relation all received pieces satisfy, the stored rows satisfy |
| Decoding.DecodedIffDetermined | kodr/full/decoder.go:40-74 | the decoder is done iff the received coding vectors have only the zero null vector |
| Decoding.DecodedPiecesAreOriginals | kodr/full/decoder.go:58-107 | if every piece codes the originals as its vector says, a finished decoder holds exactly the originals, in order |
| Decoding.UndecodedIsAmbiguous | kodr/full/decoder.go:40-74 | an unfinished decoder could not know: different originals explain everything received |
| Decoding.SinglePieceDecoded | kodr/full/decoder.go:64-69 | with one expected piece the first piece always counts as decoded |
| Decoding.SinglePieceNeedsUnitCoefficient | kodr/full/decoder.go:64-69 | it yields the original for every payload iff its coefficient is one |
| Decoding.SinglePieceDetermined | kodr/full/decoder.go:64-69 | being done and being determined agree iff no piece came or some coefficient is nonzero |
| FullDecoder.FullRLNCDecoder.constructor | kodr/full/decoder.go:117-121 | an empty decoder |
| FullDecoder.FullRLNCDecoder.AddPiece | kodr/full/decoder.go:58-74 | refused and unchanged once decoded; otherwise the first piece is kept as it is, and any other leaves exactly the nonzero rows, in order, of a matrix that spans the same rows and has unit columns at its nonzero diagonal entries; received grows by one and useful is the number of rows |
| FullDecoder.FullRLNCDecoder.GetPieces | kodr/full/decoder.go:91-107 | an error before decoding, the stored payloads after |
| Coding.CombinePieces | kodr/full/encoder.go:63-73 | the loop of in-place multiplications is the linear combination |
| Coding.EncodedCodes | kodr/full/encoder.go:63-73 | an encoded piece is the combination of the originals its vector says |
| Coding.ProductRowIsCombine | kodr/full/recoder.go:27-45 | a row of the matrix product is the combination of the rows multiplied |
| Coding.RecodedCodes | kodr/full/recoder.go:27-45 | a recoded piece is again a combination of the originals as its new vector says |
| Coding.RecodePiece | kodr/full/recoder.go:15-45 | the recoder's loops compute the combined vector and the combined payload |
| Coding.SystematicRLNCEncoder.constructor | kodr/systematic/encoder.go:115-117 | starts at the first piece |
| Coding.SystematicRLNCEncoder.CodedPiece | kodr/systematic/encoder.go:62-109 | the originals with unit vectors first, in order, then random combinations |
| Coding.SystematicCodes | kodr/systematic/encoder.go:84-96 | a systematic piece codes the originals with a unit vector |
| Coding.SystematicPiecesSuffice | kodr/systematic/encoder.go:84-96 | a decoder that got every systematic piece, in any order and among others, is done |
| Coding.EmittedCodes | kodr/full/recoder.go:15-45 | a piece from any finite network of encoders and recoders codes the originals |
| Coding.NetworkDecodes | kodr/full/decoder.go:40-107 | so a decoder fed by such a network is done iff determined, and then holds the originals |
| Coding.MultiplyCell | kodr/matrix/matrix.go:65-69 | one cell of a product is the inner product |
| Coding.IsSystematic | kodr/data.go:57-76 | whether the vector has exactly one nonzero entry and that entry is one |
| PieceData.SplitBySize | kodr/data.go:95-122 | both errors; otherwise equal pieces whose concatenation is the data and the padding |
| PieceData.SplitByCount | kodr/data.go:129-159 | both errors; otherwise exactly that many equal pieces whose concatenation is the data and the padding |
| PieceData.CodedPiecesForRecoding | kodr/data.go:165-185 | both errors; otherwise pieces of the right shape whose flattening is the data |
| PieceData.FlattenRoundTrip | kodr/data.go:45-50 | cutting up flattened pieces gives the pieces back |
| GaloisField.ExtensionLawful | kodr/full/decoder.go:117-121 | a quadratic extension of a lawful field is lawful |
| GaloisField.OctetsLawful | kodr/full/decoder.go:117-121 | a field with 256 elements satisfies every law the coding theorems assume |
| ByteField.BytesLawful | kodr/full/decoder.go:117-121 | so does its copy on bytes |
| Xnc.PacketRoundTrip | xnc/xnc.go:199-258 | parsing an encoded packet gives it back, and it has the fixed frame size |
| Xnc.SplitFile | xnc/utils.go:8-23 | the loop cuts the file into chunks of the given size, the last one shorter |
| Xnc.ChunksCoverFile | xnc/server.go:123-139 | the chunk contents without padding concatenate to the file |
| XncTransfer.SendChunk | xnc/server.go:134-190 | the packets of one chunk, coded or plain |
| XncTransfer.SendFile | xnc/server.go:123-197 | the frames of all chunks in order and five end frames: what the transfer theorems read back |
| XncTransfer.EncoderPieces | xnc/server.go:147-157 | a full chunk splits into its sixteen consecutive slices |
| XncTransfer.HandleCodedPacket | xnc/client.go:96-134 | one coded packet moves the client from one state of the transfer to the next |
| XncTransfer.ReceiveFile | xnc/client.go:66-149 | the receive loop is the fold of the packet handler over the frames |
| XncTransfer.CodedTransfer | xnc/client.go:66-149 | a coded transfer returns the file iff the vectors of every chunk span |
| XncTransfer.OneDrawToSpare | xnc/server.go:123-197 | seventeen coded pieces go out for each chunk, so the file comes back if in each chunk the sixteen others of some one draw span |
| XncTransfer.CodedTransferCanSucceed | xnc/xnc.go:32-35 | for every file there are draws that bring it back, and one draw of each chunk, at any place, may be any vector at all |
| XncTransfer.FrameCount | xnc/server.go:123-197 | seventeen frames a chunk in coded mode, sixteen in plain mode, and five at the end |
| XncTransfer.PlainTransfer | xnc/client.go:66-149 | a plain transfer returns the file, for every file below 2^32 chunks |
| XncTransfer.Transfer | xnc/server.go:123-197 | server and client together, both modes |
| Reassembly.StreamFrameSorter.constructor | mp-quic/stream_frame_sorter.go:23-30 | one gap over everything |
| Reassembly.StreamFrameSorter.SkipGaps | mp-quic/stream_frame_sorter.go:54-68 | the first gap the frame reaches |
| Reassembly.StreamFrameSorter.SwallowGaps | mp-quic/stream_frame_sorter.go:78-94 | the last gap the frame reaches |
| Reassembly.StreamFrameSorter.Fill | mp-quic/stream_frame_sorter.go:96-143 | replaces the gaps covered by what is left of them and queues the cut frame |
| Reassembly.StreamFrameSorter.Push | mp-quic/stream_frame_sorter.go:32-144 | the method is the function Pushed: its result in every case, and the new state unless the result is an internal error or too many gaps |
| Reassembly.PushKeepsIndex | mp-quic/stream_frame_sorter.go:32-144 | one push of a slice of one stream: which result when, no internal error, and the gap list stays the complement of the bytes pushed, each region covered by a chain of queued frames |
| Reassembly.TooManyGapsIff | mp-quic/stream_frame_sorter.go:96-127 | a push is refused for too many gaps iff the list is full and the frame lies strictly inside one gap |
| Reassembly.CutShortIff | mp-quic/stream_frame_sorter.go:96-143 | a push queues a marked frame that stops short of the pushed frame's end iff that frame is marked, its last byte has arrived and some other byte of it has not |
| Reassembly.ArrivedMeansHead | mp-quic/stream_frame_sorter.go:155-161 | the head of the queue is there whenever the byte at the read position arrived |
| Reassembly.RunReassembles | mp-quic/stream_frame_sorter.go:32-161 | after every error-free run of pushes and pops the gaps are exactly the bytes no push covered, every region received is a chain of queued frames, and a byte pushed at the read position can be popped |
| Reassembly.StreamFrameSorter.Pop | mp-quic/stream_frame_sorter.go:146-153 | removes the head and advances |
| Reassembly.HeadPopped | mp-quic/stream_frame_sorter.go:146-153 | popping keeps the index |
| ByteStream.Reader.ReadRound | mp-quic/stream.go:149-178 | one round of the copy loop |
| ByteStream.TakeBytes | mp-quic/stream.go:149-178 | the bytes of a round are the next bytes of the stream |
| ByteStream.TakeKeeps | mp-quic/stream.go:149-178 | a round keeps the reader and the index consistent |
| ByteStream.Reader.Read | mp-quic/stream.go:91-182 | a read returns the next bytes of the stream; fewer than asked for only at the first missing byte or at the end marker; it reports the end, and remembers it, exactly when it used up a queued frame that carries the marker, which may stand before the end, or had done so before |
| ByteStream.RoundsEndAtMark | mp-quic/stream.go:149-178 | the rounds of one read stop with the end iff they used up a queued frame with the marker, that frame ends where they stopped, and the frames that stay queued are as before |
| ByteStream.RoundsRead | mp-quic/stream.go:91-182 | the rounds of one read return the next bytes, keep the index, stop early only at a missing byte or at the marker |
| StreamSystem.SplitOff | mp-quic/stream_framer.go:241-258 | the two parts of a split frame join to the frame, the end marker stays with the second |
| StreamSystem.BuiltFrame | mp-quic/stream.go:244-263 | new frames are consecutive slices of what was written |
| StreamSystem.Retransmitted | mp-quic/stream_framer.go:129-163 | retransmitted frames, split or not, are slices of what was written |
| StreamSystem.StepKeepsInv | mp-quic/stream.go:91-263 | every step of both ends and the network keeps the invariant |
| StreamSystem.ReadsArePrefix | mp-quic/stream.go:91-263 | in every run the bytes read are a prefix of the bytes written |
| StreamSystem.GapsAreUndelivered | mp-quic/stream_frame_sorter.go:32-144 | in every run the receiver's gaps are exactly the offsets no delivered frame covers |
| StreamSystem.ArrivedCanBeRead | mp-quic/stream.go:91-182 | in every run the next read returns something iff no frame with the end marker was used up and a delivered frame covered the byte at the read offset |
| StreamEnd.EndIsTheEnd | mp-quic/stream.go:168-177 | in every run without a delivery that cuts a marked frame short, a reader told the end has read everything written |
| StreamEnd.EndsEarlyIff | mp-quic/stream_frame_sorter.go:96-143 | after such a run, the next event is a delivery of that kind iff some continuation without another one tells the reader the end before the end |
| StreamEnd.EndsEarlyOnce | mp-quic/stream.go:98-100 | a run in which the reader is told the end after two of three bytes and the third, delivered twice, can never be read |
| StreamEnd.ReadIsRounds | mp-quic/stream.go:91-182 | every read, whatever its length, is a sequence of the rounds over which the theorems about both ends are stated |
| FlowControl.FlowController.ForStream | mp-quic/internal/flowcontrol/flow_controller.go:40-60 | initial windows of a stream |
| FlowControl.FlowController.ForConnection | mp-quic/internal/flowcontrol/flow_controller.go:40-60 | initial windows of the connection |
| FlowControl.FlowController.UpdateSendWindow | mp-quic/internal/flowcontrol/flow_controller.go:94-100 | the send window only grows |
| FlowControl.FlowController.SendSize | mp-quic/internal/flowcontrol/flow_controller.go:102-109 | what may still be sent, never negative |
| FlowControl.FlowController.UpdateHighestReceived | mp-quic/internal/flowcontrol/flow_controller.go:120-132 | the increment, or the error for a lower offset |
| FlowControl.FlowController.AddBytesRead | mp-quic/internal/flowcontrol/flow_controller.go:138-146 | counts bytes read and starts the epoch |
| FlowControl.FlowController.MaybeUpdateWindow | mp-quic/internal/flowcontrol/flow_controller.go:150-170 | a look leaves at least half the increment to be read; the window moves and is announced exactly when less than that was left, and then a whole increment is left; with such a move the increment doubles, up to its maximum, iff updates are frequent and an earlier time is known |
| FlowControl.UpdateLeavesHalf | mp-quic/internal/flowcontrol/flow_controller.go:150-203 | the same of the function on values, in numbers |
| FlowControl.MovesIff | mp-quic/internal/flowcontrol/flow_controller.go:150-170 | a window that was read to its end moves iff its increment is at least two bytes |
| FlowControl.FlowController.EnsureMinimumWindowIncrement | mp-quic/internal/flowcontrol/flow_controller.go:211-216 | raises the increment, within its maximum |
| FlowControl.FlowControlManager.constructor | mp-quic/internal/flowcontrol/flow_control_manager.go:31-39 | the manager with its connection controller |
| FlowControl.FlowControlManager.NewStream | mp-quic/internal/flowcontrol/flow_control_manager.go:43-53 | a controller for a new stream; an existing one is kept |
| FlowControl.FlowControlManager.RemoveStream | mp-quic/internal/flowcontrol/flow_control_manager.go:55-60 | forgets one stream |
| FlowControl.FlowControlManager.ResetStream | mp-quic/internal/flowcontrol/flow_control_manager.go:64-91 | final offset of a reset stream at both levels, with each error |
| FlowControl.FlowControlManager.UpdateHighestReceived | mp-quic/internal/flowcontrol/flow_control_manager.go:94-119 | received offset at both levels, with each error |
| FlowControl.FlowControlManager.AddBytesRead | mp-quic/internal/flowcontrol/flow_control_manager.go:121-136 | bytes read at both levels |
| FlowControl.FlowControlManager.GetWindowUpdates | mp-quic/internal/flowcontrol/flow_control_manager.go:138-157 | visits each stream once, then the connection, and returns exactly the updates that were due or forced, in that order |
| FlowControl.UpdatesAreDue | mp-quic/internal/flowcontrol/flow_control_manager.go:138-157 | an update is announced iff its stream was visited and due or forced, with the window after the update |
| FlowControl.FlowControlManager.AddBytesSent | mp-quic/internal/flowcontrol/flow_control_manager.go:176-191 | bytes sent at both levels |
| FlowControl.FlowControlManager.SendWindowSize | mp-quic/internal/flowcontrol/flow_control_manager.go:238-253 | the smaller of the two windows, for streams that count towards the connection |
| FlowControl.FlowControlManager.UpdateWindow | mp-quic/internal/flowcontrol/flow_control_manager.go:263-279 | raises the window a frame names, at its level, and says whether it rose |
| FlowSystem.UpdatedGrows | mp-quic/internal/flowcontrol/flow_controller.go:150-216 | a window update keeps the window ahead of what was read |
| FlowSystem.StepKeepsInv | mp-quic/internal/flowcontrol/flow_control_manager.go:43-279 | every step of both ends keeps the invariant |
| FlowSystem.NeverViolated | mp-quic/internal/flowcontrol/flow_controller.go:66-220 | under any loss, duplication, delay and reordering no violation check fires at either level, no window is underflowed by reading, and the sender stays within its windows at both levels |
| FlowSystem.CountersAreSums | mp-quic/internal/flowcontrol/flow_control_manager.go:43-191 | the connection counters are the sums over all contributing streams ever opened, removed ones included |
| FlowProgress.WindowsOpenAgain | mp-quic/internal/flowcontrol/flow_control_manager.go:138-157 | in every run, once everything sent has been read, one look at the stream and one at the connection, and the delivery of the windows they leave, give the sender at least half of both initial windows to send, whatever was lost before |
| FlowProgress.ConnectionKeepsPace | mp-quic/internal/flowcontrol/flow_control_manager.go:142-150 | in every run, a contributing stream whose increment has changed finds the connection increment at one and a half times its own, or at its maximum |
| FlowProgress.FirstUpdateIff | mp-quic/internal/flowcontrol/flow_controller.go:150-155 | a sender that starts with less than the receiver grants is answered after using it up iff less than half of the grant is left |
| ReceivedPackets.ReceivedPacketHistory.constructor | mp-quic/ackhandler/received_packet_history.go:21-25 | an empty list |
| ReceivedPackets.ReceivedPacketHistory.MaybeMerge | mp-quic/ackhandler/received_packet_history.go:53-62 | joins an extended interval with its predecessor if they touch |
| ReceivedPackets.ReceivedPacketHistory.ReceivedPacket | mp-quic/ackhandler/received_packet_history.go:28-75 | refused iff the list is full; otherwise the list stands for the old set and the number, still canonical |
| ReceivedPackets.ReceivedPacketHistory.DeleteUpTo | mp-quic/ackhandler/received_packet_history.go:78-93 | the list stands for the numbers above the bound, still canonical |
| ReceivedPackets.ReceivedPacketHistory.GetAckRanges | mp-quic/ackhandler/received_packet_history.go:96-108 | the intervals in falling order |
| ReceivedPackets.ReceivedPacketHistory.GetHighestAckRange | mp-quic/ackhandler/received_packet_history.go:110-118 | the topmost interval, zeros for none |
| ReceivedPackets.CanonicalUnique | mp-quic/ackhandler/received_packet_history.go:28-93 | sorted, disjoint, non-adjacent lists of the same set are equal |
| ReceivedPackets.ListIsPacketSet | mp-quic/ackhandler/received_packet_history.go:28-93 | after any accepted calls the list is canonical and stands for the packets received and not deleted since |
| ReceivedPackets.ListDeterminedBySet | mp-quic/ackhandler/received_packet_history.go:28-93 | two call sequences leave the same list iff they leave the same packets |
| AckFrames.AcksPacket | mp-quic/internal/wire/ack_frame.go:472-488 | the loop decides whether a frame acknowledges a number |
| AckFrames.ValidateAckRanges | mp-quic/internal/wire/ack_frame.go:376-411 | the loops accept exactly falling, non-adjacent lists that start at the largest number and have more than one interval |
| AckFrames.FrameExactIff | mp-quic/ackhandler/received_packet_handler.go:125-148 | a frame acknowledges exactly the recorded numbers and passes the peer's parser iff the largest number seen tops the list |
| AckWire.NumWritableNackRanges | mp-quic/internal/wire/ack_frame.go:415-441 | the number of blocks of the longest prefix that fits |
| AckWire.WriteGap | mp-quic/internal/wire/ack_frame.go:285-333 | the blocks of one interval, several for a gap above 255 |
| AckWire.WriteBlocks | mp-quic/internal/wire/ack_frame.go:274-343 | the count announced is the count written iff the topmost gap is at most 64770, and then the blocks are those of the longest prefix that fits |
| AckWire.Write | mp-quic/internal/wire/ack_frame.go:203-347 | each inconsistency it reports, with its exact condition, and otherwise the frame on the wire |
| AckWire.Parse | mp-quic/internal/wire/ack_frame.go:82-165 | the reader with its checks of the first block, long gaps, an incomplete last interval and the final validation |
| AckWire.ReadBlocks | mp-quic/internal/wire/ack_frame.go:106-154 | the reading loop over the blocks |
| AckWire.ReadEncoded | mp-quic/internal/wire/ack_frame.go:106-154 | reading what was written gives the intervals back |
| AckWire.ParsedRanges | mp-quic/internal/wire/ack_frame.go:82-165 | parsing what was written gives the frame back, cut after the longest prefix that fits |
| AckWire.OnlyFirstFits | mp-quic/internal/wire/ack_frame.go:415-441 | only the first interval fits iff the topmost gap is wider than 64770 |
| AckWire.Travel | mp-quic/internal/wire/ack_frame.go:203-347 | the writer fails iff the topmost gap is too wide; otherwise the peer reads the frame cut after the longest prefix that fits, and rejects only a frame that acknowledges number zero |
| AckWire.HandlerFramesTravel | mp-quic/ackhandler/received_packet_handler.go:125-148 | the frames the receiver builds are such frames, and are too wide iff its two topmost intervals are more than 64770 apart |
| AckWire.WideOnce | mp-quic/internal/wire/ack_frame.go:341-343 | with packets 1 and 64773 received the frame is too wide, with 1 and 64772 it is not |
| ReceivedHandler.ReceivedPacketHandler.constructor | mp-quic/ackhandler/received_packet_handler.go:34-40 | nothing received |
| ReceivedHandler.ReceivedPacketHandler.MaybeQueueAck | mp-quic/ackhandler/received_packet_handler.go:77-123 | the state after one packet is that of the function MaybeQueued, about which the next two rows are |
| ReceivedHandler.FramePromised | mp-quic/ackhandler/received_packet_handler.go:77-123 | after any packets since the last frame, a frame is queued iff one of them came before any frame was sent, was the twentieth for an old version, had been reported missing, stood above a new gap, or was the second to ask; the alarm is set iff none is queued and one asked |
| ReceivedHandler.AskedIsAnswered | mp-quic/ackhandler/received_packet_handler.go:103-118 | so two packets that ask leave a frame queued, and one leaves a frame queued or an alarm at its arrival plus the delay |
| ReceivedHandler.ReceivedPacketHandler.ReceivedPacket | mp-quic/ackhandler/received_packet_handler.go:46-68 | number zero, old numbers, a full list and ordinary arrivals |
| ReceivedHandler.ReceivedPacketHandler.SetLowerLimit | mp-quic/ackhandler/received_packet_handler.go:72-75 | the limit, also when it falls, and the deletion below it |
| ReceivedHandler.ReceivedPacketHandler.GetAckFrame | mp-quic/ackhandler/received_packet_handler.go:125-148 | a frame exactly when one is due, and the counters reset |
| ReceivedHandler.ReceivedPacketHandler.GetClosePathFrame | mp-quic/ackhandler/received_packet_handler.go:150-162 | the closing frame of the same list |
| SentHandler.StopWaitingManager.constructor | mp-quic/ackhandler/stop_waiting_manager.go:9-14 | nothing announced |
| SentHandler.StopWaitingManager.GetStopWaitingFrame | mp-quic/ackhandler/stop_waiting_manager.go:16-37 | a new frame, the last one again when forced, or none |
| SentHandler.StopWaitingManager.ReceivedAck | mp-quic/ackhandler/stop_waiting_manager.go:39-43 | the announcement moves past the largest acknowledged number |
| SentHandler.StopWaitingManager.QueuedRetransmissionForPacketNumber | mp-quic/ackhandler/stop_waiting_manager.go:45-49 | the announcement moves past a retransmitted number |
| SentHandler.StripNonRetransmittableFrames | mp-quic/ackhandler/retransmittable.go:6-14 | drops acknowledgements and stop-waiting frames, keeps the rest in order |
| SentHandler.SentPacketHandler.constructor | mp-quic/ackhandler/sent_packet_handler.go:91-113 | nothing sent |
| SentHandler.SentPacketHandler.SentPacket | mp-quic/ackhandler/sent_packet_handler.go:130-178 | both errors, skipped numbers, and what is tracked |
| SentHandler.DetermineNewlyAckedPackets | mp-quic/ackhandler/sent_packet_handler.go:267-303 | one walk over packets and intervals finds exactly the packets the frame acknowledges; the internal error cannot occur |
| SentHandler.SentPacketHandler.OnPacketAcked | mp-quic/ackhandler/sent_packet_handler.go:481-486 | one packet leaves, its bytes are no longer in flight |
| SentHandler.SentPacketHandler.AcknowledgeAll | mp-quic/ackhandler/sent_packet_handler.go:212-217 | removing element by element removes exactly the acknowledged packets |
| SentHandler.CollectLost | mp-quic/ackhandler/sent_packet_handler.go:387-411 | the overdue packets up to the largest acknowledged number, and whether another is waiting |
| SentHandler.SentPacketHandler.DetectLostPackets | mp-quic/ackhandler/sent_packet_handler.go:387-419 | those packets move to the retransmission queue |
| SentHandler.SentPacketHandler.QueuePacketForRetransmission | mp-quic/ackhandler/sent_packet_handler.go:562-568 | one packet moves from flight to the queue |
| SentHandler.SentPacketHandler.SetInflightAsLost | mp-quic/ackhandler/sent_packet_handler.go:421-441 | everything up to the largest acknowledged number is lost |
| SentHandler.SentPacketHandler.SkippedPacketsAcked | mp-quic/ackhandler/sent_packet_handler.go:597-604 | whether a remembered skipped number is acknowledged |
| SentHandler.SentPacketHandler.GarbageCollectSkippedPackets | mp-quic/ackhandler/sent_packet_handler.go:615-624 | forgets skipped numbers up to the last one acknowledged in order |
| SentHandler.SentPacketHandler.ReceivedAck | mp-quic/ackhandler/sent_packet_handler.go:180-226 | each refusal, the ignored frame, and the full effect |
| SentHandler.SentPacketHandler.ReceivedClosePath | mp-quic/ackhandler/sent_packet_handler.go:228-265 | the same for a closing frame |
| SentHandler.SentPacketHandler.HasOutstandingRetransmittablePacket | mp-quic/ackhandler/sent_packet_handler.go:358-365 | whether a packet with a listed frame is in flight |
| SentHandler.SentPacketHandler.OnAlarm | mp-quic/ackhandler/sent_packet_handler.go:443-475 | nothing without an outstanding packet; with a loss time the overdue packets leave; in the first two probes the newest packet leaves; after them the two oldest, or all when the path failed; who leaves goes to the back of the queue in order, a probe or timeout moves at least one, and nothing else changes |
| Alarms.AlarmMoves | mp-quic/ackhandler/sent_packet_handler.go:443-475 | the same of the function on values, over packets in flight and in the queue and not over list positions |
| Alarms.SendTracks | mp-quic/ackhandler/sent_packet_handler.go:130-178 | a send is refused exactly for a number that does not grow or with 5000 packets tracked; otherwise the last ten skipped numbers are remembered, and the packet is in flight, without acknowledgement and stop-waiting frames, exactly when another frame is left |
| Alarms.CollectKeeps | mp-quic/ackhandler/sent_packet_handler.go:615-624 | exactly the skipped numbers above the largest one acknowledged in order stay remembered |
| SentHandler.SentPacketHandler.RetransmitTlp | mp-quic/ackhandler/sent_packet_handler.go:525-529 | the newest packet is queued, if there is one |
| SentHandler.SentPacketHandler.RetransmitOldest | mp-quic/ackhandler/sent_packet_handler.go:538-548 | the oldest packets are queued |
| SentHandler.SentPacketHandler.RetransmitAll | mp-quic/ackhandler/sent_packet_handler.go:531-536 | everything in flight is queued |
| SentHandler.SentPacketHandler.DequeuePacketForRetransmission | mp-quic/ackhandler/sent_packet_handler.go:488-500 | the first queued packet, or none |
| SentHandler.SentPacketHandler.DuplicatePacket | mp-quic/ackhandler/sent_packet_handler.go:570-572 | an extra copy behind the queue |
| SentRuns.StepKeepsInv | mp-quic/ackhandler/sent_packet_handler.go:130-572 | every operation keeps the books balanced |
| SentRuns.EveryPacketInOnePlace | mp-quic/ackhandler/sent_packet_handler.go:130-572 | in every run each packet sent is once in flight, acknowledged or lost, and in one of them only; queued and dequeued packets are the lost ones and the copies |
| SentRuns.FlightIsCounted | mp-quic/ackhandler/sent_packet_handler.go:130-572 | the list in flight is strictly increasing, its bytes are counted exactly, and without copies at most 5000 packets are tracked |
| SentRuns.StopWaitingBounds | mp-quic/ackhandler/stop_waiting_manager.go:16-49 | a stop-waiting frame names a number from one to the next packet number |
| SentRuns.AckLeaves | mp-quic/ackhandler/sent_packet_handler.go:195-226 | after a frame exactly the packets neither acknowledged nor overdue are in flight |
| SentRuns.CloseLeaves | mp-quic/ackhandler/sent_packet_handler.go:228-265 | after a closing frame exactly the packets neither acknowledged nor at or below the largest acknowledged number are in flight |
| StopWaitingTruth.QueuedTruthfulIff | mp-quic/ackhandler/stop_waiting_manager.go:45-49 | queueing packets keeps the announced number at or below everything in flight iff every packet queued is older than every packet left |
| StopWaitingTruth.ProbedTruthfulIff | mp-quic/ackhandler/sent_packet_handler.go:525-529 | a tail-loss probe keeps it iff at most one packet is in flight |
| StopWaitingTruth.LossTruthfulIff | mp-quic/ackhandler/sent_packet_handler.go:387-419 | loss detection keeps it iff every overdue packet is older than every packet left |
| StopWaitingTruth.OldestTruthful | mp-quic/ackhandler/sent_packet_handler.go:538-548 | queueing the oldest packets always keeps it |
| StopWaitingTruth.EverythingTruthful | mp-quic/ackhandler/sent_packet_handler.go:531-536 | so do queueing everything and giving up what is in flight |
| StopWaitingTruth.AlarmTruthfulIff | mp-quic/ackhandler/sent_packet_handler.go:443-475 | the exact condition for an alarm, branch by branch |
| StopWaitingTruth.AckTruthfulIff | mp-quic/ackhandler/sent_packet_handler.go:180-226 | an acknowledgement keeps it iff it is ignored or refused or leaves no packet at or below its largest number undecided |
| StopWaitingTruth.CloseTruthful | mp-quic/ackhandler/sent_packet_handler.go:228-265 | a closing frame always keeps it |
| StopWaitingTruth.StepTruthfulIff | mp-quic/ackhandler/sent_packet_handler.go:130-572 | the exact condition for every operation of the sender, in every reachable state |
| StopWaitingTruth.RunTruthfulIff | mp-quic/ackhandler/sent_packet_handler.go:130-572 | the same over every run that was truthful so far |
| StopWaitingTruth.ClockKeepsTruth | mp-quic/ackhandler/sent_packet_handler.go:387-411 | with send times that rise with the packet numbers loss detection always keeps it, and an alarm does iff it does not probe with more than one packet in flight |
| StopWaitingTruth.AckCanFail | mp-quic/ackhandler/stop_waiting_manager.go:39-43 | in the run that sends two packets and gets the second acknowledged the announcement passes the first |
| StopWaitingTruth.ProbeCanFail | mp-quic/ackhandler/stop_waiting_manager.go:45-49 | so it does in the run that sends two packets and probes |
| AckSystem.NextKeepsInv | mp-quic/session.go:517-520 | every step of both ends and the network keeps the invariant |
| AckSystem.AckedWasReceived | mp-quic/ackhandler/sent_packet_handler.go:180-303 | in every run a packet counted as acknowledged did arrive |
| AckSystem.NeverRejected | mp-quic/ackhandler/sent_packet_handler.go:180-303 | in every run no acknowledgement is rejected as about an unsent or skipped number, the errors that close a connection, and no empty list is indexed |
| AckSystem.FramesAreReadable | mp-quic/internal/wire/ack_frame.go:82-165 | in every run every acknowledgement that left the receiver parses, to itself cut after the longest prefix that fits |
| AckSystem.ReceiverNeverEmpty | mp-quic/ackhandler/received_packet_handler.go:46-148 | once a packet arrived the receiver's list is not empty, its top is the largest number seen, and the frame built is exact |
| Packing.MaybeSplitOffFrame | mp-quic/stream_framer.go:241-258 | the two parts carry the frame's bytes and end marker, in order |
| Packing.StreamFramer.MaybePopFramesForRetransmission | mp-quic/stream_framer.go:129-163 | the frames fit, nothing queued is lost or repeated, and it stops only when no room is left |
| Packing.StreamFramer.PopNormalFrame | mp-quic/stream_framer.go:169-233 | the next data of one stream within room and window, none exactly when there is no room, no window or nothing to send, and afterwards nothing more of it can go |
| Packing.StreamFramer.Visit | mp-quic/stream_framer.go:202-229 | one stream adds its frame within the room, nothing more of it can go, and the walk stops only when the room is used up or not even a header fits |
| Packing.StreamFramer.MaybePopNormalFrames | mp-quic/stream_framer.go:165-238 | the frames fit, sent and pending data make up what was pending, and at the end every stream visited has lost a prefix of its data within its window and can send no more, unless the header of some stream no longer fits |
| Packing.StreamFramer.PopStreamFrames | mp-quic/stream_framer.go:36-39 | retransmissions first, then new data, within the room |
| Packing.GetDataForWriting | mp-quic/stream.go:244-263 | at most so many of the waiting bytes |
| Packing.StreamFramer.PopCryptoStreamFrame | mp-quic/stream_framer.go:107-127 | the next handshake data, all of it or as much as fits, without the end marker |
| Packing.PacketPacker.AddControlFrames | mp-quic/packet_packer.go:233-245 | control frames from the back while they fit, stopping only when none is left or the next does not fit |
| Packing.PacketPacker.ComposeNextPacket | mp-quic/packet_packer.go:207-275 | the frames chosen always fit, despite the two extra bytes; an error iff the first two frames alone do not, and where every frame comes from |
| Packing.PacketPacker.Finish | mp-quic/packet_packer.go:161-184 | no packet exactly for no frames or a lone stop-waiting frame, and the size check before sealing |
| Packing.PacketPacker.PackFrames | mp-quic/packet_packer.go:132-184 | a composed packet always passes the size check and says where its frames come from; when none results nothing was taken; a PING in front goes alone, with what is then discarded |
| Packing.PacketPacker.PackCryptoPacket | mp-quic/packet_packer.go:186-205 | handshake data alone, fifty bytes below the limit or all of it, and nothing else changes |
| Packing.PacketPacker.PackPacket | mp-quic/packet_packer.go:127-184 | handshake data first, and otherwise a packet of the other frames, with the result of each |
| Olia.GetMaxCwnd | mp-quic/congestion/olia_sender.go:124-131 | the largest window |
| Olia.FindBest | mp-quic/congestion/olia_sender.go:165-172 | the last path visited that is at least as good as the best before it |
| Olia.BestInEveryOrderIff | mp-quic/congestion/olia_sender.go:165-172 | every visiting order ends with a path that none outdoes iff no path is without round-trip time and bytes or all are equally good, when the products are exact |
| Olia.OrderMatters | mp-quic/congestion/olia_sender.go:165-172 | three paths, of which one order finds the best and another one that is half as good |
| Olia.CountSets | mp-quic/congestion/olia_sender.go:176-187 | the two byte counters |
| Olia.CountersExact | mp-quic/congestion/olia_sender.go:160-187 | the byte counters do not wrap when they matter, with up to 256 paths |
| Olia.GetEpsilon | mp-quic/congestion/olia_sender.go:150-211 | one round, each loop in its own visiting order, with the best path of its search |
| Olia.Balance | mp-quic/congestion/olia_sender.go:150-211 | after a round no denominator is zero and the epsilons add up to zero |

## Left out

- The galoisfield library: not part of this model; any lawful field stands for it, and the one constructed here need not have its numbering of elements.
- PieceData.CeilDiv: computes the piece size on integers, where the source rounds up a 64-bit float quotient; the two can differ for sizes beyond 2^53.
- Probability that random coding vectors are independent: "the vectors span" is a hypothesis.
- Decoder main theorems for a piece count of one: replaced by the exact conditions listed above.
- DecoderMatrix.DecoderState.AddPiece: requires slices that are not stored already and not shared, since the decoder keeps and rewrites them; the source takes any slices, and the model does not say what a shared one would become.
- FullDecoder.FullRLNCDecoder.AddPiece: requires the same, and slices of the decoder's lengths; the source does not check lengths.
- kodr/systematic/decoder.go: the same logic as the full decoder.
- xnc session setup, INFO and INIT packets, file names and timing: I/O around the transfer.
- Sharing of stream frames: the source's frames are shared by the packet history, its copies and the retransmission queue, and splitting one shortens it everywhere. Frames are values here; StreamSystem lets what is left of any sent frame be queued again, Packing does not model the sharing.
- Removal of a stream that finished in both directions: later frames for it are ignored by the source; here the receiver still records them.
- Deadlines, remote resets and errors of a stream: Read and Write are modelled without them.
- FlowSystem.NeverViolated: assumes that initial increments are within their maxima and that the sender's initial windows are at most the receiver's; stream 1 is excluded, since it bypasses send accounting.
- FlowProgress.WindowsOpenAgain: assumes in addition that the sender starts with exactly what the receiver grants, both windows of at least two bytes; without that the sender can wait for ever, as FlowControl.MovesIff and FlowProgress.FirstUpdateIff say.
- ReceivedHandler.FramePromised: assumes that arrival time plus delay is not zero, since zero stands for an alarm that is not set.
- Packing.StreamFramer.MaybePopNormalFrames: says what is left of every stream only for an order that names no stream twice, as the source's round robin does.
- Auto-tuning of windows by round-trip time: whether updates are frequent is a parameter.
- Packet numbers, offsets and counters above 2^63: integers are unbounded except for the stream offset limit, the 8-bit counters, the signed 64-bit products and the 32-bit packet fields.
- ReceivedHandler.ReceivedPacketHandler.GetAckFrame: requires a nonempty list when a frame is due, where the source would index an empty slice; AckSystem.ReceiverNeverEmpty shows that it always holds between honest ends.
- ReceivedHandler.ReceivedPacketHandler.GetClosePathFrame: requires a nonempty list for the same reason.
- Statistics, congestion callbacks, round-trip estimates and alarm times of the sender: which packets are overdue and the verdict of the path on a timeout are parameters.
- Several paths at once: the acknowledgement system has one path, and the packet number that carries a frame is arbitrary.
- AckWire.Write: requires falling, disjoint intervals, on which the source's unsigned subtractions do not wrap.
- AckWire.Parse: an interval end below zero counts as invalid, where the source wraps it to a huge number that its validation rejects.
- Byte widths of acknowledgement fields: AckWire works on blocks of a gap and a length, not on bytes.
- Packing.PacketPacker.PackPacket: requires a header and overhead within the packet size, and for handshake data room for a frame header, on which the source's unsigned subtractions do not wrap; that stream 1 is open is also required, where the source opens it.
- Packing.PacketPacker.PackFrames: requires the same of header and overhead.
- Packing.PacketPacker.PackCryptoPacket: requires the same of handshake data.
- BLOCKED frames in the packer: they join the control frames of the next packet, whose handling does not depend on their kind.
- Encryption: a sealer enters a packet's size only by its overhead, which is a parameter.
- The window formula of OLIA, CUBIC, hybrid slow start and round-trip smoothing: floating-point heuristics.
- mp-quic/packet_number_generator.go: any increasing numbers are allowed.
- godash player, HTTP, crypto handshake, sockets and session management: I/O without a strong invariant.
