/** What the tracer records, against the EVM's control flow (appendix H of the Ethereum Yellow Paper). */
module ControlFlow {
  import opened Common
  import opened Bytes
  import opened CallTree
  import opened JumpTracing

  // ---- the EVM ------------------------------------------------------------------

  /** Where execution goes after an instruction. */
  datatype Flow = Halts | Falls(pc: nat) | Leaps(pc: nat)

  /** The instruction after this one in the code: PUSH1 to PUSH32 carry 1 to 32 bytes of data. */
  function FallThrough(op: Opcode): nat {
    op.pc + 1 + if 0x60 <= op.op <= 0x7f then op.op - 0x5f else 0
  }

  /** The k-th stack element from the top. */
  function Item(op: Opcode, k: nat): Word
    requires k < |op.stack|
  {
    op.stack[|op.stack| - 1 - k]
  }

  /** STOP, RETURN, REVERT, INVALID and SELFDESTRUCT end a frame, and so does a missing stack element. */
  function FlowOf(op: Opcode): Flow {
    if op.op in {0x00, 0xf3, 0xfd, 0xfe, 0xff} then Halts
    else if op.op == 0x56 then
      if |op.stack| < 1 then Halts else Leaps(Item(op, 0) % TWO64)
    else if op.op == 0x57 then
      if |op.stack| < 2 then Halts
      else if Item(op, 1) == 0 then Falls(FallThrough(op))
      else Leaps(Item(op, 0) % TWO64)
    else Falls(FallThrough(op))
  }

  function Successor(op: Opcode): Option<nat> {
    match FlowOf(op)
    case Halts => None
    case Falls(pc) => Some(pc)
    case Leaps(pc) => Some(pc)
  }

  // ---- one instruction ------------------------------------------------------------

  /** An instruction is recorded exactly when the EVM jumps there, with its contract, its own position and
      the position it jumps to. */
  lemma RecordedExactly(op: Opcode)
    ensures TakenJump(op)
         == if FlowOf(op).Leaps? then [ExecutionJump(op.contract, op.pc, FlowOf(op).pc)] else []
  {}

  /** So whenever execution does not fall through, the record has both ends; and a record that says
      otherwise than falling through is right. */
  lemma SuccessorRecorded(op: Opcode, next: nat)
    requires Successor(op) == Some(next)
    ensures next != FallThrough(op) ==> TakenJump(op) == [ExecutionJump(op.contract, op.pc, next)]
    ensures TakenJump(op) != [] ==> TakenJump(op)[0].jumpDest == next && (op.op == 0x56 || op.op == 0x57)
  {}

  /** A JUMPI with condition 1 to position 64 is recorded, and with condition 0 it is not. */
  lemma ConditionalJump(op: Opcode)
    requires op.pc == 10 && op.op == 0x57 && op.contract == 7
    ensures op.stack == [1, 64] ==> TakenJump(op) == [ExecutionJump(7, 10, 64)]
    ensures op.stack == [0, 64] ==> TakenJump(op) == []
  {}

  /** A jump to the next instruction is recorded too. */
  lemma JumpToNext(op: Opcode)
    requires op.pc == 10 && op.op == 0x56 && op.contract == 7 && op.stack == [11]
    ensures Successor(op) == Some(FallThrough(op)) && TakenJump(op) == [ExecutionJump(7, 10, 11)]
  {}

  // ---- frames -----------------------------------------------------------------------

  /** The instructions among the events, in order. */
  function Executed(events: seq<Event>): seq<Opcode> {
    if events == [] then []
    else (if events[0].Execute? then [events[0].op] else []) + Executed(events[1..])
  }

  lemma {:induction false} ExecutedConcat(a: seq<Event>, b: seq<Event>)
    ensures Executed(a + b) == Executed(a) + Executed(b)
  {
    if a == [] {
      assert a + b == b;
    } else {
      assert (a + b)[1..] == a[1..] + b;
      ExecutedConcat(a[1..], b);
    }
  }

  function RecordOf(op: Opcode): seq<ExecutionJump> {
    if FlowOf(op).Leaps? then [ExecutionJump(op.contract, op.pc, FlowOf(op).pc)] else []
  }

  function Recorded(ops: seq<Opcode>): seq<ExecutionJump> {
    if ops == [] then [] else RecordOf(ops[0]) + Recorded(ops[1..])
  }

  lemma {:induction false} RecordedConcat(a: seq<Opcode>, b: seq<Opcode>)
    ensures Recorded(a + b) == Recorded(a) + Recorded(b)
  {
    if a == [] {
      assert a + b == b;
    } else {
      assert (a + b)[1..] == a[1..] + b;
      RecordedConcat(a[1..], b);
      Assoc(RecordOf(a[0]), Recorded(a[1..]), Recorded(b));
    }
  }

  /** The jumps of a frame are those that the EVM takes in it and below it, in execution order. */
  lemma {:induction false} FrameJumps(f: Frame, depth: nat)
    ensures Jumps(f) == Recorded(Executed(Flatten(f, depth)))
    decreases f, 1
  {
    var body := FlattenBody(f.body, depth);
    ExecutedConcat([Enter(depth, f.call.to)] + body, [Exit(depth)]);
    ExecutedConcat([Enter(depth, f.call.to)], body);
    assert [Enter(depth, f.call.to)][1..] == [] && [Exit(depth)][1..] == [];
    assert Executed(Flatten(f, depth)) == Executed(body);
    BodyJumps(f.body, depth);
  }

  lemma {:induction false} BodyJumps(b: Body, depth: nat)
    ensures JumpsOfBody(b) == Recorded(Executed(FlattenBody(b, depth)))
    decreases b, 0
  {
    match b
    case Done =>
    case Step(op, next) =>
      BodyJumps(next, depth);
      RecordedExactly(op);
      var rest := Executed(FlattenBody(next, depth));
      assert FlattenBody(b, depth)[1..] == FlattenBody(next, depth);
      assert Executed(FlattenBody(b, depth)) == [op] + rest;
      assert ([op] + rest)[1..] == rest;
    case Sub(child, next) =>
      FrameJumps(child, depth + 1);
      BodyJumps(next, depth);
      ExecutedConcat(Flatten(child, depth + 1), FlattenBody(next, depth));
      RecordedConcat(Executed(Flatten(child, depth + 1)), Executed(FlattenBody(next, depth)));
  }

  lemma {:induction false} RecordedMember(ops: seq<Opcode>, j: ExecutionJump)
    ensures j in Recorded(ops) <==> exists op :: op in ops && Takes(op, j)
  {
    if ops != [] {
      RecordedMember(ops[1..], j);
      assert forall op :: op in ops <==> op == ops[0] || op in ops[1..];
      assert j in RecordOf(ops[0]) <==> Takes(ops[0], j);
    }
  }

  /** The instruction makes this jump. */
  predicate Takes(op: Opcode, j: ExecutionJump) {
    FlowOf(op) == Leaps(j.jumpDest) && j.contractAddress == op.contract && j.jumpFrom == op.pc
  }

  /** A traced path holds exactly the jumps taken in the first frame that calls the target, and below. */
  lemma PathHoldsJumps(f: Frame, target: Address, hit: Frame, depth: nat, j: ExecutionJump)
    requires FirstTarget(f, target, 0) == Some((hit, depth))
    ensures j in TracedPath(f, target) <==> exists op :: op in Executed(Flatten(hit, depth)) && Takes(op, j)
  {
    FrameJumps(hit, depth);
    RecordedMember(Executed(Flatten(hit, depth)), j);
  }

  // ---- a frame as the EVM runs it ------------------------------------------------------

  /** The frame's own instructions. */
  function Own(b: Body): seq<Opcode> {
    match b
    case Done => []
    case Step(op, next) => [op] + Own(next)
    case Sub(_, next) => Own(next)
  }

  /** Each instruction is where the one before it leads. */
  predicate RunByEvm(ops: seq<Opcode>) {
    forall k :: 0 <= k < |ops| - 1 ==> Successor(ops[k]) == Some(ops[k + 1].pc)
  }

  /** Every break in the positions of a frame's instructions is recorded, with the positions on both
      sides; and where nothing is recorded the next instruction is the next in the code. */
  lemma BreaksRecorded(b: Body, k: nat)
    requires RunByEvm(Own(b)) && k + 1 < |Own(b)|
    ensures var op, next := Own(b)[k], Own(b)[k + 1];
      && (next.pc != FallThrough(op) ==> TakenJump(op) == [ExecutionJump(op.contract, op.pc, next.pc)])
      && (TakenJump(op) == [] ==> next.pc == FallThrough(op))
      && (TakenJump(op) != [] ==> TakenJump(op)[0].jumpDest == next.pc)
  {
    SuccessorRecorded(Own(b)[k], Own(b)[k + 1].pc);
  }
}
