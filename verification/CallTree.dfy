/** The call tree of one transaction, and the tracing events the EVM reports while it runs. */
module CallTree {
  import opened Common
  import opened Bytes

  type Address = nat

  const ZERO_ADDRESS: Address := 0

  const JUMP: byte := 0x56
  const JUMPI: byte := 0x57

  datatype ExecutionJump = ExecutionJump(contractAddress: Address, jumpFrom: nat, jumpDest: nat)

  /** One executed instruction; above is how far its reported depth exceeds the frame's own. */
  datatype Opcode = Opcode(pc: nat, op: byte, contract: Address, stack: seq<Word>, above: nat)

  /** What the call tracer reports of a frame; gas and value are the outcomes of parsing them. */
  datatype CallInfo = CallInfo(
    callType: string, from: Address, to: Address, input: string, gas: Option<nat>, value: Option<int>)

  datatype Frame = Frame(call: CallInfo, body: Body)

  datatype Body = Done | Step(op: Opcode, next: Body) | Sub(child: Frame, next: Body)

  datatype Event = Enter(depth: nat, to: Address) | Exit(depth: nat) | Execute(op: Opcode, depth: nat)

  /** The events of a frame entered at the given depth. */
  function Flatten(f: Frame, depth: nat): seq<Event>
    decreases f, 1
  {
    [Enter(depth, f.call.to)] + FlattenBody(f.body, depth) + [Exit(depth)]
  }

  function FlattenBody(b: Body, depth: nat): seq<Event>
    decreases b, 0
  {
    match b
    case Done => []
    case Step(op, next) => [Execute(op, depth + op.above)] + FlattenBody(next, depth)
    case Sub(child, next) => Flatten(child, depth + 1) + FlattenBody(next, depth)
  }

  /** The jump an instruction takes, if it is one and takes it. */
  function TakenJump(op: Opcode): (jumps: seq<ExecutionJump>)
    ensures |jumps| <= 1
  {
    var n := |op.stack|;
    if (op.op == JUMP && n > 0) || (op.op == JUMPI && n >= 2 && op.stack[n - 2] != 0) then
      [ExecutionJump(op.contract, op.pc, op.stack[n - 1] % TWO64)]
    else
      []
  }

  /** All jumps taken in a frame and the frames below it, in execution order. */
  function Jumps(f: Frame): seq<ExecutionJump> {
    JumpsOfBody(f.body)
  }

  function JumpsOfBody(b: Body): seq<ExecutionJump> {
    match b
    case Done => []
    case Step(op, next) => TakenJump(op) + JumpsOfBody(next)
    case Sub(child, next) => Jumps(child) + JumpsOfBody(next)
  }

  /** The first frame in preorder that calls the target, with its depth. */
  function FirstTarget(f: Frame, target: Address, depth: nat): Option<(Frame, nat)>
    decreases f, 1
  {
    if f.call.to == target then Some((f, depth)) else FirstTargetInBody(f.body, target, depth)
  }

  function FirstTargetInBody(b: Body, target: Address, depth: nat): Option<(Frame, nat)>
    decreases b, 0
  {
    match b
    case Done => None
    case Step(_, next) => FirstTargetInBody(next, target, depth)
    case Sub(child, next) =>
      var found := FirstTarget(child, target, depth + 1);
      if found.Some? then found else FirstTargetInBody(next, target, depth)
  }

  /** The path a replay for the target records: that of the first target subtree. */
  function TracedPath(f: Frame, target: Address): seq<ExecutionJump> {
    match FirstTarget(f, target, 0)
    case None => []
    case Some(found) => Jumps(found.0)
  }
}
