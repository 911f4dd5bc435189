/** tracing/utils/types.go: the jump tracer, driven by the EVM's enter, opcode and exit events. */
module JumpTracing {
  import opened Common
  import opened Bytes
  import opened CallTree

  datatype TracerState = TracerState(
    active: bool, target: Address, recording: bool, targetDepth: int, depth: int, jumps: seq<ExecutionJump>)

  function Entered(s: TracerState, depth: nat, to: Address): TracerState {
    if to == s.target && !s.recording && s.targetDepth == -1 then
      s.(depth := depth, recording := true, targetDepth := depth)
    else
      s.(depth := depth)
  }

  function Exited(s: TracerState, depth: nat): TracerState {
    s.(depth := depth, recording := s.recording && depth > s.targetDepth)
  }

  predicate Ignores(s: TracerState, depth: nat) {
    || !s.active
    || (s.target != ZERO_ADDRESS && !s.recording)
    || (s.targetDepth != -1 && depth < s.targetDepth)
  }

  function Executed(s: TracerState, op: Opcode, depth: nat): TracerState {
    if Ignores(s, depth) then s else s.(jumps := s.jumps + TakenJump(op))
  }

  function Apply(s: TracerState, e: Event): TracerState {
    match e
    case Enter(depth, to) => Entered(s, depth, to)
    case Exit(depth) => Exited(s, depth)
    case Execute(op, depth) => Executed(s, op, depth)
  }

  function Run(s: TracerState, events: seq<Event>): TracerState {
    if events == [] then s else Apply(Run(s, events[..|events| - 1]), events[|events| - 1])
  }

  lemma {:induction false} RunConcat(s: TracerState, a: seq<Event>, b: seq<Event>)
    ensures Run(s, a + b) == Run(Run(s, a), b)
    decreases |b|
  {
    if b == [] {
      assert a + b == a;
    } else {
      assert (a + b)[..|a + b| - 1] == a + b[..|b| - 1];
      RunConcat(s, a, b[..|b| - 1]);
    }
  }

  lemma RunFrame(s: TracerState, f: Frame, depth: nat)
    ensures Run(s, Flatten(f, depth))
         == Exited(Run(Entered(s, depth, f.call.to), FlattenBody(f.body, depth)), depth)
  {
    var enter, body, exit := [Enter(depth, f.call.to)], FlattenBody(f.body, depth), [Exit(depth)];
    RunConcat(s, enter + body, exit);
    RunConcat(s, enter, body);
    assert Run(s, enter) == Apply(Run(s, enter[..0]), enter[0]);
    var mid := Run(s, enter + body);
    assert Run(mid, exit) == Apply(Run(mid, exit[..0]), exit[0]);
  }

  lemma RunStep(s: TracerState, op: Opcode, next: Body, depth: nat)
    ensures Run(s, FlattenBody(Step(op, next), depth))
         == Run(Executed(s, op, depth + op.above), FlattenBody(next, depth))
  {
    var first := [Execute(op, depth + op.above)];
    RunConcat(s, first, FlattenBody(next, depth));
    assert Run(s, first) == Apply(Run(s, first[..0]), first[0]);
  }

  /** Two states that differ at most in the last reported depth. */
  predicate SameBut(s: TracerState, t: TracerState) {
    s.(depth := 0) == t.(depth := 0)
  }

  // ---- the three regimes of a replay ----------------------------------------

  predicate CallsTo(f: Frame, a: Address)
    decreases f, 1
  {
    f.call.to == a || BodyCallsTo(f.body, a)
  }

  predicate BodyCallsTo(b: Body, a: Address)
    decreases b, 0
  {
    match b
    case Done => false
    case Step(_, next) => BodyCallsTo(next, a)
    case Sub(child, next) => CallsTo(child, a) || BodyCallsTo(next, a)
  }

  /** The target subtree is over (or there is a stale target): nothing starts or records again. */
  predicate Finished(s: TracerState) {
    s.target != ZERO_ADDRESS && !s.recording && s.targetDepth != -1
  }

  lemma {:induction false} FinishedFrame(s: TracerState, f: Frame, depth: nat)
    requires Finished(s)
    ensures Run(s, Flatten(f, depth)) == s.(depth := depth)
    decreases f, 1
  {
    RunFrame(s, f, depth);
    FinishedBody(s.(depth := depth), f.body, depth);
  }

  lemma {:induction false} FinishedBody(s: TracerState, b: Body, depth: nat)
    requires Finished(s)
    ensures SameBut(Run(s, FlattenBody(b, depth)), s)
    decreases b, 0
  {
    match b
    case Done =>
    case Step(op, next) =>
      RunStep(s, op, next, depth);
      FinishedBody(s, next, depth);
    case Sub(child, next) =>
      RunConcat(s, Flatten(child, depth + 1), FlattenBody(next, depth));
      FinishedFrame(s, child, depth + 1);
      FinishedBody(s.(depth := depth + 1), next, depth);
  }

  /** Every taken jump is recorded: inside the target subtree, where re-entrant target calls change
      nothing, or with no target configured and no call to the zero address. */
  predicate Collecting(s: TracerState, depth: int) {
    && s.active
    && (s.recording || s.target == ZERO_ADDRESS)
    && (if s.recording then 0 <= s.targetDepth <= depth else s.targetDepth == -1)
  }

  lemma Assoc<T>(a: seq<T>, b: seq<T>, c: seq<T>)
    ensures (a + b) + c == a + (b + c)
  {}

  lemma {:induction false} CollectingFrame(s: TracerState, f: Frame, depth: nat)
    requires Collecting(s, depth - 1)
    requires s.recording || !CallsTo(f, ZERO_ADDRESS)
    ensures Run(s, Flatten(f, depth)) == s.(depth := depth, jumps := s.jumps + Jumps(f))
    decreases f, 1
  {
    RunFrame(s, f, depth);
    CollectingBody(s.(depth := depth), f.body, depth);
  }

  lemma {:induction false} CollectingBody(s: TracerState, b: Body, depth: nat)
    requires Collecting(s, depth)
    requires s.recording || !BodyCallsTo(b, ZERO_ADDRESS)
    ensures SameBut(Run(s, FlattenBody(b, depth)), s.(jumps := s.jumps + JumpsOfBody(b)))
    decreases b, 0
  {
    match b
    case Done =>
      assert s.jumps + [] == s.jumps;
    case Step(op, next) =>
      RunStep(s, op, next, depth);
      CollectingBody(s.(jumps := s.jumps + TakenJump(op)), next, depth);
      Assoc(s.jumps, TakenJump(op), JumpsOfBody(next));
    case Sub(child, next) =>
      RunConcat(s, Flatten(child, depth + 1), FlattenBody(next, depth));
      CollectingFrame(s, child, depth + 1);
      CollectingBody(s.(depth := depth + 1, jumps := s.jumps + Jumps(child)), next, depth);
      Assoc(s.jumps, Jumps(child), JumpsOfBody(next));
  }

  predicate Searching(s: TracerState) {
    s.active && s.target != ZERO_ADDRESS && !s.recording && s.targetDepth == -1
  }

  /** The state once the search of a tree with this first target is over. */
  function Searched(s: TracerState, found: Option<(Frame, nat)>): TracerState {
    match found
    case None => s
    case Some(hit) => s.(targetDepth := hit.1, jumps := s.jumps + Jumps(hit.0))
  }

  lemma {:induction false} SearchFrame(s: TracerState, f: Frame, depth: nat)
    requires Searching(s)
    ensures Run(s, Flatten(f, depth)) == Searched(s, FirstTarget(f, s.target, depth)).(depth := depth)
    decreases f, 1
  {
    RunFrame(s, f, depth);
    if f.call.to == s.target {
      CollectingBody(Entered(s, depth, f.call.to), f.body, depth);
    } else {
      SearchBody(s.(depth := depth), f.body, depth);
    }
  }

  lemma {:induction false} SearchBody(s: TracerState, b: Body, depth: nat)
    requires Searching(s)
    ensures SameBut(Run(s, FlattenBody(b, depth)), Searched(s, FirstTargetInBody(b, s.target, depth)))
    decreases b, 0
  {
    match b
    case Done =>
    case Step(op, next) =>
      RunStep(s, op, next, depth);
      SearchBody(s, next, depth);
    case Sub(child, next) =>
      RunConcat(s, Flatten(child, depth + 1), FlattenBody(next, depth));
      SearchFrame(s, child, depth + 1);
      var s' := Searched(s, FirstTarget(child, s.target, depth + 1)).(depth := depth + 1);
      if FirstTarget(child, s.target, depth + 1).Some? {
        FinishedBody(s', next, depth);
      } else {
        SearchBody(s', next, depth);
      }
  }

  // ---- a zero target -----------------------------------------------------------

  /** What is recorded with the zero address as target, and the target depth at the end. */
  datatype Loose = Loose(jumps: seq<ExecutionJump>, targetDepth: int)

  /** Nothing is filtered until a call to the zero address sets the target depth; from then on, and also
      after that call, whatever runs less deep is ignored. */
  function LooseFrame(f: Frame, depth: nat, targetDepth: int): Loose
    decreases f, 1
  {
    LooseBody(f.body, depth, if f.call.to == ZERO_ADDRESS && targetDepth == -1 then depth else targetDepth)
  }

  function LooseBody(b: Body, depth: nat, targetDepth: int): Loose
    decreases b, 0
  {
    match b
    case Done => Loose([], targetDepth)
    case Step(op, next) =>
      var rest := LooseBody(next, depth, targetDepth);
      if targetDepth != -1 && depth + op.above < targetDepth then rest else Loose(TakenJump(op) + rest.jumps, rest.targetDepth)
    case Sub(child, next) =>
      var first := LooseFrame(child, depth + 1, targetDepth);
      var rest := LooseBody(next, depth, first.targetDepth);
      Loose(first.jumps + rest.jumps, rest.targetDepth)
  }

  predicate Untargeted(s: TracerState) {
    s.active && s.target == ZERO_ADDRESS && (s.recording ==> s.targetDepth != -1)
  }

  /** t is s after recording what the loose filter lets through. */
  predicate Followed(s: TracerState, t: TracerState, l: Loose) {
    Untargeted(t) && t.jumps == s.jumps + l.jumps && t.targetDepth == l.targetDepth
  }

  lemma FollowedOn(s: TracerState, t: TracerState, u: TracerState, a: Loose, b: Loose)
    requires Followed(s, t, a) && Followed(t, u, b)
    ensures Followed(s, u, Loose(a.jumps + b.jumps, b.targetDepth))
  {
    Assoc(s.jumps, a.jumps, b.jumps);
  }

  lemma {:induction false} UntargetedFrame(s: TracerState, f: Frame, depth: nat)
    requires Untargeted(s)
    ensures Followed(s, Run(s, Flatten(f, depth)), LooseFrame(f, depth, s.targetDepth))
    decreases f, 1
  {
    RunFrame(s, f, depth);
    UntargetedBody(Entered(s, depth, f.call.to), f.body, depth);
  }

  lemma {:induction false} UntargetedBody(s: TracerState, b: Body, depth: nat)
    requires Untargeted(s)
    ensures Followed(s, Run(s, FlattenBody(b, depth)), LooseBody(b, depth, s.targetDepth))
    decreases b, 0
  {
    match b
    case Done =>
      assert s.jumps + [] == s.jumps;
    case Step(op, next) =>
      RunStep(s, op, next, depth);
      var t := Executed(s, op, depth + op.above);
      UntargetedBody(t, next, depth);
      Assoc(s.jumps, TakenJump(op), LooseBody(next, depth, s.targetDepth).jumps);
    case Sub(child, next) =>
      var first := LooseFrame(child, depth + 1, s.targetDepth);
      var t := Run(s, Flatten(child, depth + 1));
      RunConcat(s, Flatten(child, depth + 1), FlattenBody(next, depth));
      UntargetedFrame(s, child, depth + 1);
      UntargetedBody(t, next, depth);
      FollowedOn(s, t, Run(s, FlattenBody(b, depth)), first, LooseBody(next, depth, first.targetDepth));
  }

  /** Being told about a target root before it is entered gives the same replay. */
  lemma NotifiedRoot(s: TracerState, f: Frame)
    requires Searching(s) && f.call.to == s.target
    ensures Run(s.(recording := true, targetDepth := 0), Flatten(f, 0)) == Run(s, Flatten(f, 0))
  {
    RunFrame(s, f, 0);
    RunFrame(s.(recording := true, targetDepth := 0), f, 0);
    assert Entered(s.(recording := true, targetDepth := 0), 0, f.call.to) == Entered(s, 0, f.call.to);
  }

  /** What a replay of a whole tree records, from any idle tracer; with no target and no call to the
      zero address, that is every jump. */
  lemma ReplayRecords(s: TracerState, f: Frame)
    requires s.active && !s.recording && s.jumps == []
    ensures s.target == ZERO_ADDRESS ==>
      Run(s, Flatten(f, 0)).jumps == LooseFrame(f, 0, s.targetDepth).jumps
    ensures s.target != ZERO_ADDRESS && s.targetDepth == -1 ==>
      Run(s, Flatten(f, 0)).jumps == TracedPath(f, s.target)
    ensures s.target != ZERO_ADDRESS && s.targetDepth != -1 ==>
      Run(s, Flatten(f, 0)).jumps == []
    ensures s.target == ZERO_ADDRESS && s.targetDepth == -1 && !CallsTo(f, ZERO_ADDRESS) ==>
      Run(s, Flatten(f, 0)).jumps == Jumps(f)
  {
    if s.target != ZERO_ADDRESS {
      if s.targetDepth == -1 { SearchFrame(s, f, 0); } else { FinishedFrame(s, f, 0); }
    } else {
      UntargetedFrame(s, f, 0);
      if s.targetDepth == -1 && !CallsTo(f, ZERO_ADDRESS) { CollectingFrame(s, f, 0); }
    }
  }

  /** Recording always has a depth to stop at; no event changes the target or the activity flag. */
  lemma {:induction false} RunKeeps(s: TracerState, events: seq<Event>)
    requires s.recording ==> s.targetDepth >= 0
    ensures var t := Run(s, events);
      t.active == s.active && t.target == s.target && (t.recording ==> t.targetDepth >= 0)
  {
    if events != [] {
      RunKeeps(s, events[..|events| - 1]);
    }
  }

  /** Whatever the tree, the tracer is idle again after it. */
  lemma ReplayEndsIdle(s: TracerState, f: Frame)
    requires !s.recording
    ensures var t := Run(s, Flatten(f, 0));
      t.active == s.active && t.target == s.target && !t.recording && t.depth == 0
  {
    RunFrame(s, f, 0);
    RunKeeps(Entered(s, 0, f.call.to), FlattenBody(f.body, 0));
  }

  // ---- the tracer itself -----------------------------------------------------

  class ExecutionPath {
    var jumps: seq<ExecutionJump>

    constructor ()
      ensures jumps == []
    {
      jumps := [];
    }
  }

  class JumpTracer {
    var executionPath: ExecutionPath
    var isTraceActive: bool
    var targetContract: Address
    var isRecordingActive: bool
    var targetCallDepth: int
    var currentDepth: int

    ghost function Snapshot(): TracerState
      reads this, executionPath
    {
      TracerState(isTraceActive, targetContract, isRecordingActive, targetCallDepth, currentDepth, executionPath.jumps)
    }

    /** Between two replays. */
    predicate Idle()
      reads this
    {
      !isTraceActive && !isRecordingActive && currentDepth == 0
    }

    constructor ()
      ensures Idle() && targetContract == ZERO_ADDRESS && targetCallDepth == -1
      ensures fresh(executionPath) && executionPath.jumps == []
    {
      executionPath := new ExecutionPath();
      isTraceActive, isRecordingActive := false, false;
      targetContract, targetCallDepth, currentDepth := ZERO_ADDRESS, -1, 0;
    }

    method StartTrace()
      modifies this
      ensures fresh(executionPath)
      ensures Snapshot() == old(Snapshot()).(active := true, jumps := [])
    {
      isTraceActive := true;
      executionPath := new ExecutionPath();
    }

    method StopTrace() returns (path: ExecutionPath)
      modifies this
      ensures path == executionPath == old(executionPath)
      ensures Snapshot() == old(Snapshot()).(active := false)
    {
      isTraceActive := false;
      path := executionPath;
    }

    method SetTargetContract(addr: Address)
      modifies this
      ensures executionPath == old(executionPath)
      ensures Snapshot() == old(Snapshot()).(target := addr, targetDepth := -1, recording := false)
    {
      targetContract := addr;
      targetCallDepth := -1;
      isRecordingActive := false;
    }

    method OnTargetContractCalled(addr: Address)
      modifies this
      ensures executionPath == old(executionPath)
      ensures Snapshot() == if addr == old(targetContract) && !old(isRecordingActive)
                            then old(Snapshot()).(recording := true, targetDepth := old(currentDepth))
                            else old(Snapshot())
    {
      if addr == targetContract && !isRecordingActive {
        isRecordingActive := true;
        targetCallDepth := currentDepth;
      }
    }

    method OnEnter(depth: nat, to: Address)
      modifies this
      ensures executionPath == old(executionPath)
      ensures Snapshot() == Entered(old(Snapshot()), depth, to)
    {
      currentDepth := depth;
      if to == targetContract && !isRecordingActive && targetCallDepth == -1 {
        isRecordingActive := true;
        targetCallDepth := depth;
      }
    }

    method OnExit(depth: nat)
      modifies this
      ensures executionPath == old(executionPath)
      ensures Snapshot() == Exited(old(Snapshot()), depth)
    {
      if isRecordingActive && depth <= targetCallDepth {
        isRecordingActive := false;
      }
      currentDepth := depth;
    }

    method OnOpcode(op: Opcode, depth: nat)
      modifies executionPath
      ensures Snapshot() == Executed(old(Snapshot()), op, depth)
    {
      if !isTraceActive { return; }
      if targetContract != ZERO_ADDRESS && !isRecordingActive { return; }
      if targetCallDepth != -1 && depth < targetCallDepth { return; }
      var n := |op.stack|;
      if op.op == JUMP {
        if n > 0 {
          executionPath.jumps := executionPath.jumps + [ExecutionJump(op.contract, op.pc, op.stack[n - 1] % TWO64)];
        }
      } else if op.op == JUMPI {
        if n >= 2 && op.stack[n - 2] != 0 {
          executionPath.jumps := executionPath.jumps + [ExecutionJump(op.contract, op.pc, op.stack[n - 1] % TWO64)];
        }
      }
    }

    /** The EVM running the tree with this tracer's hooks. */
    method Execute(root: Frame)
      modifies this, executionPath
      ensures executionPath == old(executionPath)
      ensures Snapshot() == Run(old(Snapshot()), Flatten(root, 0))
    {
      var events := Flatten(root, 0);
      var i := 0;
      while i < |events|
        invariant 0 <= i <= |events|
        invariant executionPath == old(executionPath)
        invariant Snapshot() == Run(old(Snapshot()), events[..i])
      {
        match events[i] {
          case Enter(depth, to) => OnEnter(depth, to);
          case Exit(depth) => OnExit(depth);
          case Execute(op, depth) => OnOpcode(op, depth);
        }
        assert events[..i + 1][..i] == events[..i];
        i := i + 1;
      }
      assert events[..i] == events;
    }

    /** A replay with intercepted calls: one target, and a notification when the root calls one of
        the intercepted contracts. The path is that of the first target subtree, whoever was notified,
        and the tracer is ready for the next replay. */
    method ReplayTarget(root: Frame, target: Address, targetCalls: set<Address>) returns (path: ExecutionPath)
      requires Idle() && target != ZERO_ADDRESS
      modifies this
      ensures fresh(path) && path.jumps == TracedPath(root, target)
      ensures Idle() && targetContract == target
      ensures targetCallDepth == match FirstTarget(root, target, 0) case None => -1 case Some(hit) => hit.1
    {
      SetTargetContract(target);
      StartTrace();
      ghost var start := Snapshot();
      if root.call.to in targetCalls {
        OnTargetContractCalled(root.call.to);
      }
      Execute(root);
      SearchFrame(start, root, 0);
      if root.call.to == target { NotifiedRoot(start, root); }
      path := StopTrace();
    }

    /** A replay that sets no target: it keeps the previous one. After a replay that found its target
        it records nothing at all. */
    method ReplayAgain(root: Frame) returns (path: ExecutionPath)
      requires Idle()
      modifies this
      ensures fresh(path) && targetContract == old(targetContract) && Idle()
      ensures targetContract != ZERO_ADDRESS && old(targetCallDepth) == -1 ==> path.jumps == TracedPath(root, targetContract)
      ensures targetContract != ZERO_ADDRESS && old(targetCallDepth) != -1 ==> path.jumps == []
      ensures targetContract == ZERO_ADDRESS ==> path.jumps == LooseFrame(root, 0, old(targetCallDepth)).jumps
      ensures targetContract == ZERO_ADDRESS && old(targetCallDepth) == -1 && !CallsTo(root, ZERO_ADDRESS) ==>
        path.jumps == Jumps(root)
    {
      StartTrace();
      ReplayRecords(Snapshot(), root);
      ReplayEndsIdle(Snapshot(), root);
      Execute(root);
      path := StopTrace();
    }
  }

  /** A contract that takes one jump, replayed for itself and then again with no target set: the second
      replay records nothing. */
  method ReplayTwice(tracer: JumpTracer, op: Opcode) returns (first: ExecutionPath, second: ExecutionPath)
    requires tracer.Idle() && op.op == JUMP && |op.stack| > 0
    modifies tracer
    ensures |first.jumps| == 1 && second.jumps == []
  {
    var root := Frame(CallInfo("CALL", 1, 7, "0x00", None, None), Step(op, Done));
    assert Jumps(root) == TakenJump(op) + JumpsOfBody(Done);
    first := tracer.ReplayTarget(root, 7, {7});
    assert FirstTarget(root, 7, 0) == Some((root, 0));
    second := tracer.ReplayAgain(root);
  }
}
