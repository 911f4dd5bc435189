# Verified models of the tracing, storage, transaction and mutation cores

This project models the parts of the repository that carry real logic and proves what they promise,
for all inputs, all runs and all schedules. Each module follows one component of the source:

- `CallTree`, `JumpTracing`, `ControlFlow`, `CallExtraction`, `PathSimilarity`: the call tree of a transaction as a
  datatype, the events the EVM reports for it, the jump tracer that picks one subtree out of the event
  stream, the recursive search for the protected call in the same tree, and the comparison of two paths.
- `Bytes`, `SolidityScan`, `MappingKeys`, `SliceValues`, `StructValues`, `StructFields`,
  `ArrayLayout`: the decoder of the Solidity
  storage layout ("Layout of State Variables in Storage", sections "Mappings and Dynamic Arrays" and
  "bytes and string"), against an encoder written down from those sections. Keccak-256 is an arbitrary
  function. `StructValues` keeps the slot index of a variable in a heap object, because every handle to a
  struct, struct slice or mapping shares it and overwrites it.
- `SendStates`, `SendProtocol`, `SendHistory`: the transaction manager's memory, as a class refining its history, and
  `Send` with its worker goroutines as a transition system with an arbitrary scheduler and backend.
- `BatchSender`, `BatchHistory`: the batch sender's mutex, once, wait group and channels as a transition system.
- `Buffers`, `Mutation`, `Candidates`, `CallInput`, `Modifier`: the in-place byte mutators, storage-value
  arithmetic, candidate generation and calldata strategies.
- `TargetSlots`, `StrategyPlanner`: the adaptive planner, as a class whose fields are functions of the
  recorded results, and the slots its strategies select.
- `HeaderTraversal`: the chain follower over a provider that may reorganise between calls.
- `Common`, `Congruence`: shared notions, and which pairs of remainders one number can have.

Numbers are unbounded in Dafny, so every wrap-around, truncation and sign reading of the Go code is
written out (`ToInt64`, `% TWO64`, `BigToHash`). Floating-point quotients are exact rationals.

## Where the code differs from what it promises

Each of these is stated as an exact condition, with a lemma at a concrete input or run at which it fails:

- The depth check of the transaction manager adds in 64 bits. A receipt it accepts is deep enough if and only
  if the sum for its block does not wrap or the one for the tip does (`SendProtocol.DepthExact`,
  `SendProtocol.ReturnedReceipt`); for every configuration, a backend that reports block
  2^64 - numConfirmations and tip 0 makes `Send` return a receipt that is not
  (`SendProtocol.ShallowReturned`).
- A stored string comes back unchanged if and only if it is not exactly 32 bytes long and its last
  partial chunk does not start with a NUL (`SolidityScan.StringRoundTrip`); a single NUL and a string of 32
  NULs do not (`SolidityScan.StringsLost`).
- A signed integer comes back unchanged if and only if it is at least -2^63 and below 2^64
  (`SolidityScan.IntRoundTrip`); 2^64 in 72 bits does not (`SolidityScan.IntLost`).
- A fixed-size byte value reads as its bytes without trailing NULs if and only if it does not start with a
  NUL or is all NULs (`SolidityScan.BytesRoundTrip`); 0x0001 does not (`SolidityScan.BytesLost`).
- `Index` looks where Solidity puts a packed element if and only if the element width divides 256 and the
  element's first bit is below 2^64, or the element is in the first slot (`SliceValues.IndexMeetsLayout`);
  element 10 of 24 bits and byte 2^61 are looked for in the wrong slot (`SliceValues.ElementMisplaced`,
  `SliceValues.ByteMisplaced`).
- `Index` of a struct slice and `Field` look at the layout's slot if and only if the 64-bit product of index
  and stride does not wrap, or is 2^63 on a base of 0 (`StructFields.FoundIsLayout`); element 2^62 of two-slot
  elements at base 1 is looked for elsewhere (`StructFields.IndexWraps`).
- The stride of a struct slice is the size of its element if and only if no field in the last used slot
  continues past that slot (`StructValues.StrideMeetsLayout`); a struct of one array of two words breaks it
  (`StructValues.StrideTooShort`).
- An element of a slice of slices is not looked for: whatever the outer slot, the value is that of the inner
  variable at its own slot (`ArrayLayout.NestedSliceIgnoresSlot`).
- A replay that sets no target after one that found its target records nothing
  (`JumpTracing.JumpTracer.ReplayAgain`, and on a run `JumpTracing.ReplayTwice`).
- Extraction and the jump tracer pick the same frame if and only if there is none or the first target
  frame carries input (`CallExtraction.ExtractionMeetsTracer`); a root call of the target without input is
  recorded and not extracted (`CallExtraction.EmptyInputMissed`).
- A word step keeps the function selector unless it overflows the first parameter and the carry byte
  differs from the selector's last byte (`Modifier.SelectorKept`); one parameter of 2^256 - 1 behind a zero
  selector loses it (`Modifier.SelectorLost`). The word strategies that divide by the number of parameters
  panic on inputs of 4 to 35 bytes and on no others (`Modifier.NoParameters`, on a bare selector
  `Modifier.SelectorPanics`).
- The default mutation leaves the data as it was if and only if its two positions coincide and
  3 * variant + 1 is a multiple of 256 or, with a single position, variant + 1 is
  (`Modifier.DefaultUnchanged`); variants 85 and 255 do so (`Modifier.DefaultMisses`). The address mutations
  leave it if and only if no parameter looks like an address or, for the known-address one, 256 divides the
  variant (`Modifier.AddressUnchanged`); a zero parameter stays at variant 256 (`Modifier.AddressMisses`).
- String length mutation writes length l into parameter p for some variant if and only if the greatest
  common divisor of 6 and the number of parameters divides l - p (`Modifier.LengthMeetsParameter`); with two
  parameters the length 0 never reaches the second (`Modifier.LengthMissesParameter`).
- The input mutation of a recorded call panics if and only if it adds to a first word that overflows, and
  has no effect on a word W if and only if the step is 0 or -2W (`CallInput.MutatedChanges`, at inputs
  `CallInput.WordsMissed`).
- A storage-only candidate is a genuine change if and only if the step it uses is not zero
  (`Candidates.GenerateCandidates`, at a configuration `Candidates.GenerateWithZeroStep`); the default
  configuration has no zero step.
- `Clamp` keeps a part of the range of at most the given size if and only if the size is not zero and is at
  most 2^63 or covers the range (`HeaderTraversal.ClampMeaning`); 2^63 + 1 and 0 give an end before the start
  (`HeaderTraversal.ClampInverts`). As the client asks upward for the magnitude of the difference, a
  traversal still keeps all it promises for every size but zero (`HeaderTraversal.NextExtends`); a size of zero
  emits two headers, the second of them unconfirmed (`HeaderTraversal.ZeroOvershoots`).
- Submitting nil to the batch sender panics if and only if the queue is full and no stop is on
  (`BatchSender.NilPanics`), which a hundred submissions without a `Start` and a nil reach
  (`BatchSender.NilReached`); a nil that is queued ends a worker.
- The comment of the ranking speaks of priorities from 1 to 10. They lie between 0 and 6, and are at least 1 if
  and only if the score is at least a tenth (`StrategyPlanner.PriorityRange`); runs reach both ends
  (`StrategyPlanner.NoPriority`, `StrategyPlanner.TopPriority`).

## Model

| member | source | states |
|---|---|---|
| JumpTracing.SearchFrame | tracing/utils/types.go:105-184 | running the tracer over the flattened events of any frame records exactly the taken jumps of the first preorder subtree that calls the target, and ends at the depth of that frame |
| JumpTracing.CollectingFrame | tracing/utils/types.go:105-184 | inside the target subtree (or with no target) every taken jump is recorded in order, and re-entrant calls of the target change nothing |
| JumpTracing.FinishedFrame | tracing/utils/types.go:105-141 | after the target subtree, later calls of the target never start recording again |
| JumpTracing.NotifiedRoot | tracing/utils/types.go:73-79 | a notification before the target root is entered gives the same final state as none |
| JumpTracing.UntargetedFrame | tracing/utils/types.go:105-184 | with the zero address as target, what is recorded of any frame: everything until a call to the zero address sets the depth, and from then on what runs at least that deep |
| JumpTracing.ReplayRecords | tracing/utils/types.go:105-184 | what a replay of a whole tree records, from every idle tracer: traced path, nothing (stale target), or the loose path (zero target), which is all jumps when nothing calls the zero address |
| JumpTracing.ReplayEndsIdle | tracing/utils/types.go:105-125 | after any tree the tracer is not recording and its depth is 0, so replays are independent |
| JumpTracing.JumpTracer.SetTargetContract | tracing/utils/types.go:66-70 | sets the target and clears depth and recording, nothing else |
| JumpTracing.JumpTracer.OnTargetContractCalled | tracing/utils/types.go:73-79 | starts recording at the current depth exactly for the target and when not recording |
| JumpTracing.JumpTracer.OnEnter | tracing/utils/types.go:105-114 | refines the enter transition |
| JumpTracing.JumpTracer.OnExit | tracing/utils/types.go:117-125 | refines the exit transition |
| JumpTracing.JumpTracer.OnOpcode | tracing/utils/types.go:128-184 | appends the taken JUMP or JUMPI unless the event is filtered out |
| JumpTracing.JumpTracer.ReplayTarget | tracing/core/execution_engine.go:180-268 | a replay returns the path of the first target subtree, whoever was notified, and leaves the tracer idle |
| JumpTracing.JumpTracer.ReplayAgain | tracing/core/execution_engine.go:66-100 | a replay that sets no target: what it returns for every previous target and depth |
| JumpTracing.ReplayTwice | tracing/core/execution_engine.go:66-100 | a contract with one jump, replayed for itself and then with no target set: one jump, then none |
| ControlFlow.RecordedExactly | tracing/utils/types.go:128-184 | an instruction is recorded exactly when the EVM jumps there, with its contract, its position and the position it jumps to |
| ControlFlow.SuccessorRecorded | tracing/utils/types.go:149-184 | an instruction whose successor is not the next one in the code is recorded, and every recorded destination is the successor |
| ControlFlow.ConditionalJump | tracing/utils/types.go:163-183 | a JUMPI with condition 1 is recorded and one with condition 0 is not |
| ControlFlow.JumpToNext | tracing/utils/types.go:149-161 | a jump to the next instruction is recorded although it is no break in the positions |
| ControlFlow.FrameJumps | tracing/utils/types.go:128-184 | the jumps of a frame are those the EVM takes among the instructions reported for it and below it, in order |
| ControlFlow.PathHoldsJumps | tracing/utils/types.go:105-184 | a traced path holds exactly the jumps taken in the first frame that calls the target, and below |
| ControlFlow.BreaksRecorded | tracing/utils/types.go:149-184 | in a frame that the EVM runs, every break in the positions is recorded with the positions on both sides |
| CallExtraction.CallTrace.Extract | tracing/replay/txReplayer.go:1275-1333 | appends exactly the first match in preorder with its depth and decoded fields, and returns true exactly when there is one |
| CallExtraction.FirstMatchLeast | tracing/replay/txReplayer.go:1284-1331 | the match is the one of least preorder index, and exists exactly when some frame matches |
| CallExtraction.ExtractedMeaning | tracing/replay/txReplayer.go:1286-1313 | the extracted call has the frame's target, sender and type, the bytes whose hexadecimal form is its input, and value and gas or 0 |
| CallExtraction.MatchMeaning | tracing/replay/txReplayer.go:1286 | a frame with well-formed input matches exactly when it calls a protected contract with some bytes |
| CallExtraction.DecodesExactly | tracing/replay/txReplayer.go:1287-1292 | the input decodes exactly when it is hexadecimal digits in pairs |
| CallExtraction.TargetInPreorder | tracing/utils/types.go:105-114 | the tracer's first target frame is the first frame to the target in preorder, at the same depth |
| CallExtraction.ExtractionMeetsTracer | tracing/replay/txReplayer.go:1284-1331 | with one protected contract, extraction and tracer pick the same frame exactly when there is none or it carries input |
| CallExtraction.EmptyInputMissed | tracing/replay/txReplayer.go:1285 | a root call of the target without input is the tracer's frame and is not extracted |
| PathSimilarity.CalculateSimilarity | tracing/utils/types.go:224-253 | the counting loop returns positional agreements over the longer length, with the empty cases |
| PathSimilarity.CalculatePathSimilarity | tracing/replay/txReplayer.go:1174-1207 | the same for recorded paths, 0 for a missing one |
| PathSimilarity.AgreementsCount | tracing/replay/txReplayer.go:1187-1199 | the count is the number of positions at which both paths exist and agree |
| PathSimilarity.SimilarityBounds | tracing/utils/types.go:224-253 | similarity is in [0,1], symmetric, and 1 exactly for equal paths |
| PathSimilarity.DistanceIsMetric | tracing/replay/txReplayer.go:1174-1207 | one minus similarity is a metric on paths of any lengths, triangle inequality and empty paths included |
| SolidityScan.SolidityString.Value | storage/utils/scan.go:248-308 | the decoding loop returns the specified reading of the storage |
| SolidityScan.StringDecoded | storage/utils/scan.go:243-308 | what every stored string decodes to |
| SolidityScan.StringRoundTrip | storage/utils/scan.go:243-308 | decode after encode is the identity exactly for the recoverable strings |
| SolidityScan.StringRoundTripNulFree | storage/utils/scan.go:243-308 | every NUL-free string whose length is not 32 survives |
| SolidityScan.StringLocal | storage/utils/scan.go:248-308 | decoding a string depends only on its header and the data slots that the header's length reaches |
| SolidityScan.StringsLost | storage/utils/scan.go:248-308 | a NUL and a 32-byte string do not come back |
| SolidityScan.IntValue | storage/utils/scan.go:94-124 | mask, sign test and byte-flipping loop compute the specified integer |
| SolidityScan.ComplementOfPredecessor | storage/utils/scan.go:114-122 | complementing the minimal bytes of 2^L + v - 1 gives -v, for every byte-multiple width |
| SolidityScan.IntDecoded | storage/utils/scan.go:94-124 | a two's complement field of any width and offset decodes to its value exactly when it is in [-2^63, 2^64) |
| SolidityScan.IntRoundTrip | storage/utils/scan.go:94-124 | the same after writing the field into any word |
| SolidityScan.IntLost | storage/utils/scan.go:94-124 | 2^64 in an int72 does not come back |
| SolidityScan.PackedFields | storage/utils/scan.go:146-163 | writing one packed field reads back and changes no disjoint field |
| SolidityScan.BoolRoundTrip | storage/utils/scan.go:215-226 | a stored boolean reads back at every offset |
| SolidityScan.AddressRoundTrip | storage/utils/scan.go:183-194 | a stored address reads back at every offset |
| SolidityScan.BytesRoundTrip | storage/utils/scan.go:330-342 | a fixed-size byte value reads as its bytes without trailing NULs exactly when it does not start with a NUL or is all NULs |
| SolidityScan.BytesLost | storage/utils/scan.go:330-342 | the bytes2 value 0x0001 does not come back |
| MappingKeys.EncodeInt | storage/utils/mapping_value.go:83-101 | the key is the 32-byte form of v mod 2^256 for every int64, and decodes back to v |
| SliceValues.SliceValue.Elements | storage/utils/slice_value.go:42-49 | the loop visits all elements in order |
| SliceValues.PackedIndex | storage/utils/slice_value.go:24-40 | element i is bits [i*w, i*w+w) of all data slots read as one number |
| SliceValues.UintElement | storage/utils/slice_value.go:24-40 | the same for the value that Index returns |
| SliceValues.IntElement | storage/utils/slice_value.go:61-77 | signed elements: Index gives the value stored in those bits exactly when it is in [-2^63, 2^64) |
| SliceValues.BoolElement | storage/utils/slice_value.go:118-134 | boolean elements: true exactly when those eight bits hold 1 |
| SliceValues.StraddleFree | storage/utils/slice_value.go:24-40 | no element straddles two slots exactly for widths dividing 256 |
| SliceValues.IndexMeetsLayout | storage/utils/slice_value.go:24-40 | for every index: Index reads Solidity's slot and offset exactly when the width divides 256 and the first bit is below 2^64, or the element is in the first slot |
| SliceValues.ElementMisplaced | storage/utils/slice_value.go:24-40 | element 10 of 24 bits is looked for at bit 240 of the first slot, and lies at the start of the second |
| SliceValues.ByteMisplaced | storage/utils/slice_value.go:24-40 | byte 2^61 is looked for at bit 0 |
| SliceValues.ElementsIndependent | storage/utils/slice_value.go:24-40 | writing one element reads back and leaves every other element as it was |
| StructValues.ValueOf | storage/utils/scan.go:364-537 | the dispatch on the shared cells returns the specified value of the slot held now |
| StructValues.Field | storage/utils/struct_value.go:24-41 | the retargeted read equals a read at base plus relative slot, and every cell is back afterwards |
| StructValues.Key | storage/utils/mapping_value.go:29-53 | the entry is read at the hash of key and base; only cells of mapping values change |
| StructValues.MaxSlotCount | storage/utils/slice_value.go:214-226 | the loop returns the largest 64-bit field slot, for any map order |
| StructValues.Index | storage/utils/slice_value.go:228-236 | element i starts at slot + i*(max+1) in 64-bit arithmetic |
| StructValues.Session | storage/utils/struct_value.go:24-41 | over any sequence of Field, Index and Key calls on shared handles every answer is a function of its own handle alone, and all field slots are unchanged |
| StructValues.StrideMeetsLayout | storage/utils/slice_value.go:214-236 | the stride is the element's size exactly when no field continues past the last used slot |
| StructValues.StrideTooShort | storage/utils/slice_value.go:214-236 | a struct of one array of two words takes two slots and is read one slot apart |
| StructFields.FoundIsLayout | storage/utils/slice_value.go:228-236 | Index and Field look at the slot base + i*(max+1) + slot of f, modulo 2^256, exactly when the 64-bit product does not wrap or is 2^63 on a base of 0 |
| StructFields.IndexWraps | storage/utils/slice_value.go:228-236 | element 2^62 of two-slot elements at base 1 is looked for elsewhere |
| StructFields.ElementField | storage/utils/slice_value.go:228-236 | wherever Index reaches, field f of element i is the value at that slot, for every kind of field |
| StructFields.ElementsApart | storage/utils/slice_value.go:228-236 | fields with different slots, or of different elements, lie in different slots |
| StructFields.EncodedRead | storage/utils/scan.go:94-342 | decoding the bits of a field that holds an encoded number, boolean, address or byte value gives that value |
| StructFields.FieldRoundTrip | storage/utils/struct_value.go:24-41 | after writing a value of any one-word type into one field of one element, Index and Field read it back, and every field it does not touch, strings included, reads as before |
| StructFields.StringFieldRoundTrip | storage/utils/struct_value.go:24-41 | the same for a string field, which reads back exactly when it is recoverable |
| ArrayLayout.DynamicEncoded | storage/utils/scan.go:364-430 | the encoder stores a dynamic array as laid out: its length at its slot, its elements packed from the hash of the slot on |
| ArrayLayout.ArrayEncoded | storage/utils/scan.go:452-510 | the same for the elements of a fixed-size array, from its own slot on |
| ArrayLayout.ReadDynamic | storage/utils/scan.go:364-430 | Value and the element loop give back the elements of a stored dynamic array and their number, for every plain element type |
| ArrayLayout.ReadFixed | storage/utils/scan.go:452-510 | and those of a stored fixed-size array |
| ArrayLayout.StructSliceRead | storage/utils/scan.go:393-400 | a slice of structs has the length in its slot, and Index and Field read the fields stored element after element from its hash on |
| ArrayLayout.StructArrayRead | storage/utils/scan.go:478-485 | the same for a fixed-size array of structs, from its own slot on |
| ArrayLayout.MappingEntry | storage/utils/mapping_value.go:29-53 | the entry is at the hash of the key's bytes followed by the 32 bytes of the mapping's slot |
| ArrayLayout.MappingRead | storage/utils/mapping_value.go:29-53 | a plain value stored there reads back |
| ArrayLayout.NestedSliceIgnoresSlot | storage/utils/scan.go:420-424 | a slice of slices gives the inner variable's value at its own slot, whatever the outer slot |
| SendStates.SendState.ProcessSendError | txmgr/send_state.go:31-43 | the state refines the history with this result added |
| SendStates.SendState.TxMined | txmgr/send_state.go:46-51 | the state refines the history with this report added |
| SendStates.SendState.TxNotMined | txmgr/send_state.go:53-63 | the state refines the history with this report added, counter reset included |
| SendStates.SendState.ShouldAbortImmediately | txmgr/send_state.go:65-73 | true exactly when no hash was last reported mined and the count reached the threshold |
| SendStates.SendState.IsWaitingForConfirmation | txmgr/send_state.go:75-79 | true exactly when some hash was last reported mined |
| SendStates.MinedSetMeaning | txmgr/send_state.go:46-63 | the set holds exactly the hashes last reported mined |
| SendStates.NonceCountMeaning | txmgr/send_state.go:31-63 | the counter is the number of nonce-too-low errors since the set was last emptied |
| SendStates.TooLowCountMeaning | txmgr/send_state.go:37-42 | and those errors are the ones whose text says so, cancelled or not |
| SendProtocol.AlwaysInv | txmgr/txmgr.go:51-134 | the invariant holds in every reachable state, for every schedule and backend |
| SendProtocol.ReturnedReceipt | txmgr/txmgr.go:75-133 | a returned receipt is the first one placed in the channel, of a transaction its worker published, accepted at an observed tip, and deep enough there exactly when the 64-bit sum for its block does not wrap (or the tip's does) |
| SendProtocol.DepthExact | txmgr/txmgr.go:180 | when the 64-bit comparison accepts a receipt that is not deep enough, and when it refuses one that is |
| SendProtocol.AcceptedReturned | txmgr/txmgr.go:51-134 | every receipt that the comparison accepts is returned by some run |
| SendProtocol.ShallowReturned | txmgr/txmgr.go:51-134 | for every configuration, a run that returns a receipt that is not deep enough |
| SendProtocol.ErrorHasCause | txmgr/txmgr.go:58-129 | an error return has one of three causes |
| SendProtocol.WorkersAccounted | txmgr/txmgr.go:51-134 | the wait group counts the live workers, none is live after the return, and every resubmission follows a check that saw nothing mined |
| SendProtocol.WorkerCanStep | txmgr/txmgr.go:90-108 | once the context is done every live worker has an enabled step that brings it closer to its exit, whatever the channel holds |
| SendProtocol.CanReturn | txmgr/txmgr.go:51-134 | every schedule that ends the context, wherever the main loop then is, or reaches the final wait, has a continuation in which Send returns |
| SendHistory.LogIsReports | txmgr/txmgr.go:82-83 | over every schedule the history of the shared state is what the backend replied: each send result, and for each answered query a receipt or none |
| SendHistory.WorkerProgram | txmgr/txmgr.go:62-111 | a worker can take exactly the actions its code allows after its last one, so a found receipt is reported before anything else |
| SendHistory.CheckOutcome | txmgr/txmgr.go:119-125 | the ticker starts a worker exactly when no transaction's last answered query found a receipt |
| SendHistory.ContextEnds | txmgr/txmgr.go:65-97 | the context is ended from inside by exactly a failed gas price, a failed send at the abort threshold, or the return |
| SendHistory.GiveUpOutcome | txmgr/txmgr.go:84-93 | a failed send ends the context exactly when it is no cancellation, no last query found a receipt, and the threshold is reached |
| SendHistory.DeliverOutcome | txmgr/txmgr.go:99-110 | a delivery is the last receipt found for the published transaction, and the channel takes it exactly when it is empty |
| SendHistory.NoResubmission | txmgr/txmgr.go:119-125 | a run in which a found receipt keeps the ticker from starting a worker |
| BatchSender.AlwaysInv | txmgr/ethereum/transaction.go:561-706 | the invariant holds in every reachable state of Start, Stop, SubmitRequest and the workers |
| BatchSender.NoSendOnClosed | txmgr/ethereum/transaction.go:578-655 | no interleaving sends on a closed channel, and channels close only when no worker is live |
| BatchSender.RequestsConserved | txmgr/ethereum/transaction.go:639-706 | every accepted request is exactly one of queued, in flight, answered, dropped, abandoned or a nil that ended a worker |
| BatchSender.StoppedStep | txmgr/ethereum/transaction.go:578-706 | once stopChan is closed every worker step lowers the measure and nothing raises it |
| BatchSender.StoppedBound | txmgr/ethereum/transaction.go:597-600 | so the workers take a bounded number of further steps in every continuation |
| BatchSender.StoppedWorkerCanAct | txmgr/ethereum/transaction.go:662-706 | and a live worker can always take one |
| BatchSender.NoDeadlock | txmgr/ethereum/transaction.go:561-706 | while a call of Start, Stop or SubmitRequest is not finished, some caller or worker can step |
| BatchSender.CanFinish | txmgr/ethereum/transaction.go:561-706 | from every reachable state some continuation finishes every call that has begun, a Stop included |
| BatchSender.CallsBounded | txmgr/ethereum/transaction.go:561-706 | and while nothing more is called, every continuation has a bounded number of caller and worker steps |
| BatchSender.NilPanics | txmgr/ethereum/transaction.go:639-655 | SubmitRequest panics exactly for a nil on a full queue with no stop on |
| BatchSender.NilReached | txmgr/ethereum/transaction.go:639-655 | a run that panics: a hundred submissions with no worker started, and then a nil |
| BatchSender.NilFree | txmgr/ethereum/transaction.go:639-655 | without nil requests no run panics there |
| BatchHistory.ChannelsInOrder | txmgr/ethereum/transaction.go:639-706 | both channels are first in, first out: what was sent is what was received followed by what is buffered |
| BatchHistory.WorkerProgram | txmgr/ethereum/transaction.go:662-706 | a worker can take exactly the actions its code allows after its last one |
| BatchHistory.AnswerOutcome | txmgr/ethereum/transaction.go:692-700 | a response is sent, dropped or abandoned, as the action says, for the request the worker last took |
| BatchHistory.DroppedOnlyWhenFull | txmgr/ethereum/transaction.go:692-700 | in a run whose response channel is never full no response is dropped |
| BatchHistory.AbandonedOnlyAtStop | txmgr/ethereum/transaction.go:692-700 | and none is abandoned while stopChan is open |
| BatchHistory.SubmitOutcome | txmgr/ethereum/transaction.go:639-655 | a submission is queued exactly when the queue has room; the stop case of its select is never ready |
| BatchHistory.StartedExactly | txmgr/ethereum/transaction.go:561-576 | after a finished Start there are exactly workerCount workers, or a stop came first and there is none |
| BatchHistory.StoppedCompletely | txmgr/ethereum/transaction.go:578-622 | a finished Stop has closed everything and left no worker |
| HeaderTraversal.ClampMeaning | common/bigint/bigint.go:12-22 | for every uint64 size: the result is a part of the range of at most size heights exactly for the sizes that fit, and then the longest |
| HeaderTraversal.ClampInverts | common/bigint/bigint.go:12-22 | sizes 2^63 + 1 and 0 that put the end before the start |
| HeaderTraversal.AskedByClamp | synchronizer/node/node.go:175-196 | for every uint64 size: how many heights the client asks for after clamping, and for every size but zero at most the size and the heights left |
| HeaderTraversal.HeaderTraversal.NextHeaders | synchronizer/node/header_traversal.go:44-93 | one call returns the specified result, moves to the last header emitted, and stays put on errors and empty results |
| HeaderTraversal.NextExtends | synchronizer/node/header_traversal.go:44-93 | for every size but zero, a batch has at most maxSize headers, is hash-linked to the position, and never passes the confirmed height |
| HeaderTraversal.ZeroOvershoots | synchronizer/node/header_traversal.go:44-93 | a size of zero emits two headers, the second one unconfirmed |
| HeaderTraversal.NextErrors | synchronizer/node/header_traversal.go:45-92 | the exact table of results from the provider's replies: each error, the empty batch and every batch of headers |
| HeaderTraversal.ReorgReported | synchronizer/node/header_traversal.go:89-91 | against a provider with one chain, the mismatch is reported exactly when the chain has left the position and a height is left |
| HeaderTraversal.Watch | synchronizer/node/header_traversal.go:44-93 | over any run of reorganising chains: mismatches are reported exactly then and keep the position, and on a chain that goes on from it the position moves on |
| HeaderTraversal.MismatchSeen | synchronizer/node/header_traversal.go:89-91 | a first header that does not follow the position is a mismatch |
| HeaderTraversal.HeaderTraversal.Follow | synchronizer/node/header_traversal.go:44-93 | over any run with reorganisations between calls the batches form one hash-linked chain from the start |
| HeaderTraversal.HonestStep | synchronizer/node/header_traversal.go:44-93 | one call on a fixed chain, for every size but zero, moves on by the heights it asks for, which are among those left |
| HeaderTraversal.CatchUp | synchronizer/node/header_traversal.go:44-93 | k calls on a fixed chain, for every size but zero, end at the confirmed head exactly when k is at least the calls needed |
| HeaderTraversal.CallsNeededIs | synchronizer/node/header_traversal.go:44-93 | the calls needed are ceil(distance / maxSize) for sizes up to 2^63 + 1 |
| HeaderTraversal.CallsNeededWide | synchronizer/node/header_traversal.go:44-93 | and their number for the larger sizes, which ask for fewer heights until they cover what is left |
| Mutation.StorageValueMeaning | tracing/mutation/mutation_manager.go:89-112 | the value is congruent to original + delta modulo 2^256 - 1, and differs from the original exactly when the step is not zero |
| Mutation.DeltaMeaning | tracing/mutation/mutation_manager.go:92-95 | the delta is the step, and for every third variant the step times variant + 1 |
| Mutation.StorageExamples | tracing/mutation/mutation_manager.go:89-112 | four values, at both ends of the range and for both kinds of delta |
| Mutation.StepsInTurn | tracing/mutation/mutation_manager.go:53-54 | for every configuration and round of variants, each kind of step goes through its list in order |
| Mutation.DefaultSteps | tracing/mutation/mutation_manager.go:34-42 | the steps of the default configuration, variant by variant |
| Mutation.GenerateStorageChanges | tracing/mutation/mutation_manager.go:62-86 | same domain; the first variant % MaxMutations + 1 slots of an arbitrary order are mutated, each with its own variant, the others copied |
| Mutation.ChangedCount | tracing/mutation/mutation_manager.go:73-83 | exactly min(n, variant % MaxMutations + 1) slots change, or none for a zero step |
| Mutation.ApplyStepMutation | tracing/mutation/mutation_manager.go:115-167 | the in-place loop stays in bounds, keeps the length and computes the specified rounds |
| Mutation.WindowValue | tracing/mutation/mutation_manager.go:138-165 | a full window's value becomes the magnitude of W + delta, modulo 2^64, and no byte outside it changes |
| Mutation.RoundMeaning | tracing/mutation/mutation_manager.go:125-166 | round k works 17k after the variant, modulo the length, adds the byte step there, and moves the window by step * (k+1), up for even variants and down for odd ones |
| Mutation.RoundsInTurn | tracing/mutation/mutation_manager.go:123-125 | there are one, two and so on up to MaxMutations rounds in turn, but not more than bytes |
| Mutation.UntouchedBytes | tracing/mutation/mutation_manager.go:125-166 | a position no round touches keeps its byte |
| Mutation.GenerateInputData | tracing/mutation/mutation_manager.go:45-59 | length and selector stay, the rest goes through the rounds |
| Candidates.ForceModifyInputData | tracing/replay/txReplayer.go:649-692 | for every input longer than 4 and every variant exactly one byte changes, and which one |
| Candidates.ForcedExamples | tracing/replay/txReplayer.go:658-688 | a byte moved by variant + 1, and the other byte that variant 255 moves by 1 |
| Candidates.ForcedValue | tracing/replay/txReplayer.go:709-755 | the strategy loop returns the first different value, or the last resort |
| Candidates.ForcedValueMeaning | tracing/replay/txReplayer.go:714-731 | the first strategy always suffices: original + variant + 1 modulo 2^256 |
| Candidates.ForceModifyStorageData | tracing/replay/txReplayer.go:695-759 | min(2, n) slots change, whichever the map yields first |
| Candidates.CreateVirtualStorage | tracing/replay/txReplayer.go:762-774 | the two slots and values of the last resort |
| Candidates.VirtualExamples | tracing/replay/txReplayer.go:762-774 | the slots and values for variants 0 and 7 |
| Candidates.ForceValid | tracing/replay/txReplayer.go:605-646 | there is always a genuine forced modification: its kind, and which byte or slots it changes to what |
| Candidates.GenerateCandidates | tracing/replay/txReplayer.go:530-602 | exactly count candidates in ID order, each with the mutations of its kind, byte for byte and slot for slot, genuine under an exact condition, for every input and storage |
| Candidates.KindsInTurn | tracing/replay/txReplayer.go:549-586 | every third candidate mutates the input, the storage or both, with priorities 1, 2 and 3 |
| Candidates.GenerateGenuine | tracing/replay/txReplayer.go:530-602 | with no zero storage step every candidate is a genuine change, for every configuration |
| Candidates.GenerateDefault | tracing/replay/txReplayer.go:153 | so with the configuration that the replayer uses |
| Candidates.GenerateWithZeroStep | tracing/replay/txReplayer.go:559-566 | with a zero storage step, the second candidate for one slot changes nothing |
| CallInput.ApplyStepMutationToBytes | tracing/replay/txReplayer.go:862-914 | the in-place mutation of the three kinds, and when it panics |
| CallInput.MutatedChanges | tracing/replay/txReplayer.go:862-914 | exactly when it panics and exactly when it changes nothing |
| CallInput.OneByteMeaning | tracing/replay/txReplayer.go:885-891 | the one-byte kind adds the step modulo 256 at the variant's position and changes no other byte |
| CallInput.TurnMeaning | tracing/replay/txReplayer.go:904-912 | even rounds add the low byte of the step's size, and odd ones take it off |
| CallInput.WordsMissed | tracing/replay/txReplayer.go:868-884 | a first word of 2^256 - 1 panics at step 1, and one of 5 stays at step -10 |
| CallInput.SpreadMeaning | tracing/replay/txReplayer.go:892-913 | each of the up to three positions is turned once, with alternating sign |
| CallInput.SpreadElsewhere | tracing/replay/txReplayer.go:892-913 | every other byte stays |
| CallInput.GenerateFromCall | tracing/replay/txReplayer.go:1434-1459 | length and selector stay, unless the mutation panics |
| Modifier.ModifyInputDataBasicStrategy | tracing/mutation/modifier.go:1201-1233 | every strategy computes its specified outcome: too short, panic, or data of the same length |
| Modifier.SelectorKept | tracing/mutation/modifier.go:1378-1404 | the selector stays, except exactly when a step carries out of the first parameter onto a different byte |
| Modifier.SelectorLost | tracing/mutation/modifier.go:1378-1404 | one parameter of 2^256 - 1 behind a zero selector: the first step changes the selector |
| Modifier.NoParameters | tracing/mutation/modifier.go:1369 | the strategies that target one parameter panic exactly on 4 to 35 bytes, and no other strategy does |
| Modifier.SelectorPanics | tracing/mutation/modifier.go:1434 | a bare selector panics |
| Modifier.SteppedParameter | tracing/mutation/modifier.go:1386-1401 | the parameter becomes max(0, W + step) modulo 2^256 |
| Modifier.SteppedSurroundings | tracing/mutation/modifier.go:1398-1400 | the bytes after it stay, and those before it stay exactly when no carry byte lands on a different byte |
| Modifier.MultipliedWord | tracing/mutation/modifier.go:1406-1428 | the parameter becomes the product, or zero when that needs more than 32 bytes |
| Modifier.ChoiceValues | tracing/mutation/modifier.go:1382-1481 | the steps, multipliers, fill bytes and lengths by variant |
| Modifier.BoundaryWord | tracing/mutation/modifier.go:1363-1373 | the parameter becomes 0 for even variants and 2^256 - 1 for odd ones |
| Modifier.FilledWord | tracing/mutation/modifier.go:1449-1487 | the parameter is filled with the pattern byte, or becomes the length |
| Modifier.FlipTwice | tracing/mutation/modifier.go:1430-1447 | flipping twice restores the data exactly when the last byte of the parameter was 0 or 1 |
| Modifier.EveryChoice | tracing/mutation/modifier.go:1368-1369 | for every strategy but string_length_mutation, the variants run through every choice for every parameter |
| Modifier.LengthMeetsParameter | tracing/mutation/modifier.go:1475-1481 | string_length_mutation writes length l into parameter p for some variant exactly when gcd(6, parameters) divides l - p |
| Modifier.LengthMissesParameter | tracing/mutation/modifier.go:1475-1481 | with two parameters, length 0 never reaches the second |
| Modifier.AddressMeaning | tracing/mutation/modifier.go:1308-1356 | in each word with twelve leading zero bytes the last byte (nearby: the last two) gets its increment modulo 256, and every other byte stays |
| Modifier.LooksMeaning | tracing/mutation/modifier.go:1314-1322 | a word is taken for an address exactly when it is a number below 2^160 |
| Modifier.AddressMoved | tracing/mutation/modifier.go:1323-1353 | the last byte moves by the variant, and a nearby address's second last one by 232 and a hundred times the variant, modulo 256 |
| Modifier.AddressUnchanged | tracing/mutation/modifier.go:1308-1356 | the data stays as it was exactly when no parameter looks like an address or, unless nearby, 256 divides the variant |
| Modifier.AddressMisses | tracing/mutation/modifier.go:1308-1331 | a zero parameter stays as it was at variant 256 |
| Modifier.MutateAddresses | tracing/mutation/modifier.go:1308-1356 | the in-place loop computes that |
| Modifier.MutateUintStep | tracing/mutation/modifier.go:1378-1404 | the in-place step, carry included |
| Modifier.MutateUintMultiplier | tracing/mutation/modifier.go:1406-1428 | the in-place product |
| Modifier.ModifyInputDataDefault | tracing/mutation/modifier.go:1492-1520 | increments one parameter byte, or two, modulo 256; length and selector stay |
| Modifier.DefaultMeaning | tracing/mutation/modifier.go:1502-1517 | by how much every byte after the selector moves, for every length and variant |
| Modifier.DefaultUnchanged | tracing/mutation/modifier.go:1502-1517 | the data stays as it was exactly when the two positions coincide and the increments add up to a multiple of 256, or the only increment is one |
| Modifier.DefaultMisses | tracing/mutation/modifier.go:1502-1517 | 38 bytes at variant 85, and 5 to 36 bytes at variant 255, stay as they were |
| StrategyPlanner.SmartMutationStrategy.RecordMutationResult | tracing/mutation/smart_mutation_strategy.go:133-178 | all fields stay functions of the results recorded since the reset; recentResults is the last min(n, 1000) |
| StrategyPlanner.SmartMutationStrategy.AdaptBatchSize | tracing/mutation/smart_mutation_strategy.go:181-206 | the in-place adjustment and its clamping |
| StrategyPlanner.SmartMutationStrategy.ResetStrategies | tracing/mutation/smart_mutation_strategy.go:466-482 | back to the empty history, threshold kept |
| StrategyPlanner.SmartMutationStrategy.GetOptimalMutationPlan | tracing/mutation/smart_mutation_strategy.go:209-257 | the plan takes the first min(17, batch) strategies of a ranking, each with the same number of variants on the slots or arguments selected for it, and has at most TotalVariants mutations |
| StrategyPlanner.StatsBounds | tracing/mutation/smart_mutation_strategy.go:143-156 | over every run the rates stay in [0,1] and successes never exceed attempts |
| StrategyPlanner.HighBound | tracing/mutation/smart_mutation_strategy.go:159-162 | the high-similarity count never exceeds the number of mutations |
| StrategyPlanner.HighCountMeaning | tracing/mutation/smart_mutation_strategy.go:159-162 | the count is the number of results at or above the threshold they were recorded at |
| StrategyPlanner.CountsMeaning | tracing/mutation/smart_mutation_strategy.go:143-148 | attempts and successes are the numbers of results of that type, and of those that succeeded |
| StrategyPlanner.RecentMeaning | tracing/mutation/smart_mutation_strategy.go:137-140 | the kept results are the last min(n, 1000), in order |
| StrategyPlanner.AttemptsAddUp | tracing/mutation/smart_mutation_strategy.go:143-160 | attempts add up to the results of known type, so never exceed the mutations, with equality exactly when all types are known |
| StrategyPlanner.BatchBounds | tracing/mutation/smart_mutation_strategy.go:181-206 | over every run the batch size stays in [10,200] |
| StrategyPlanner.BatchMoves | tracing/mutation/smart_mutation_strategy.go:181-206 | when the batch size grows, shrinks or stays |
| StrategyPlanner.BatchExact | tracing/mutation/smart_mutation_strategy.go:181-206 | the new size in whole numbers: eleven tenths up to 200, nine tenths down to 10, or the same |
| StrategyPlanner.PriorityRange | tracing/mutation/smart_mutation_strategy.go:260-309 | over every scored run priorities lie in 0..6, and are at least 1 exactly when the score is at least a tenth |
| StrategyPlanner.ScoreExact | tracing/mutation/smart_mutation_strategy.go:281-309 | the score with its weights multiplied out; neither clamp ever acts |
| StrategyPlanner.TopPriority | tracing/mutation/smart_mutation_strategy.go:260-309 | nine perfect results reach priority 6 |
| StrategyPlanner.NoPriority | tracing/mutation/smart_mutation_strategy.go:260-309 | a hundred failures and eight successes of similarity 0 reach priority 0 |
| StrategyPlanner.Rank | tracing/mutation/smart_mutation_strategy.go:260-278 | every strategy once, by non-increasing priority, ties in any order |
| StrategyPlanner.FirstRankHighest | tracing/mutation/smart_mutation_strategy.go:260-278 | no strategy left out of the first k has a higher priority than one of them |
| StrategyPlanner.BuildPlan | tracing/mutation/smart_mutation_strategy.go:226-254 | the allocation loop plans min(n, batch) strategies with equal shares within the batch |
| StrategyPlanner.ShareMeaning | tracing/mutation/smart_mutation_strategy.go:227-230 | the share is the even part of the batch, and at least one |
| StrategyPlanner.PlannedArguments | tracing/mutation/smart_mutation_strategy.go:351-372 | every planned argument's 32-byte word lies inside the input |
| StrategyPlanner.InputPlansExactly | tracing/mutation/smart_mutation_strategy.go:351-372 | an input strategy plans every whole word of the input up to its share, and nothing else is planned |
| StrategyPlanner.StoragePlansExactly | tracing/mutation/smart_mutation_strategy.go:326-349 | a storage strategy plans the first of its slots up to its share, the i-th with variant i, and nothing else is planned |
| StrategyPlanner.PlannedSlots | tracing/mutation/smart_mutation_strategy.go:326-349 | every planned slot is one of the given slots, with its type, and of a kind its strategy accepts |
| TargetSlots.SelectTargetSlots | tracing/mutation/smart_mutation_strategy.go:375-444 | the filters keep the accepted slots in order; the other strategies get all slots by non-increasing importance, ties in any order |
| TargetSlots.SelectedAccepted | tracing/mutation/smart_mutation_strategy.go:375-444 | whatever the order, a slot is selected exactly when it is given and its strategy accepts it |
| TargetSlots.FirstMostImportant | tracing/mutation/smart_mutation_strategy.go:390-396 | where all slots are taken, no slot left out of the first k is more important than one of them |
| TargetSlots.AcceptsMeaning | tracing/mutation/smart_mutation_strategy.go:375-444 | the type and value range that each strategy takes |
| TargetSlots.StorageStrategies | tracing/mutation/smart_mutation_strategy.go:312-323 | which strategies work on storage |

## Left out

- RPC clients, HTTP, ABI fetching, the EVM, the state database, signing and RLP: only the event streams,
  replies and receipts they yield appear, as arbitrary values.
- Database, serializers, CLI, flags, configuration loading and validation, printing, metrics, caches,
  retry delays, and how importance scores and slot types are found (they are given).
- Building the type tree from a storage layout (storage/utils/parse.go) and generated bindings.
- `Synchronizer.processBatch`: its loop returns on the first header.
- Concurrent use of one tracer by the batch executor, and the planner's two different locks: operations of
  a tracer or planner are taken one at a time.
- convertCallFrame: a field-by-field tree copy; the call trace is taken as converted.
- Wall-clock time: the exponential time decay in the strategy score is an arbitrary value.
- Rounding: rates, similarities and the batch factors 1.1 and 0.9 are exact.
- 64-bit wrap-around of `variant` arithmetic such as `i * 17`, `variant * 7` or `variant * 100`, which needs
  variants no run reaches; candidate counts are below 2^63.
- The counter of `SendState` is unbounded rather than 64 bits wide.
- `Candidates.GenerateCandidates`: the time stamp of a candidate.
- `CallExtraction.CallTrace.Extract`: gas and value are the outcomes of parsing their text; hexadecimal input is
  decoded in full.
- Masks `x & (2^k - 1)` are written as `x mod 2^k`.
- Writer preference and fairness of the read-write mutex and of `select`: every order is allowed.
