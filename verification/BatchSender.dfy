/** txmgr/ethereum/transaction.go: BatchTransactionSender as a transition system. Any number of
    callers of Start, Stop and SubmitRequest interleave with the workers in any order. */
module BatchSender {
  import opened Common

  const CHANNEL_SIZE: nat := 100

  /** A submitted pointer: nil, or a request with an identity. */
  datatype Request = Nil | Req(id: nat)

  datatype Worker = Idle | Processing(req: Request) | Replying(req: Request) | Exited

  datatype Caller =
    | SubmitLock(req: Request) | SubmitHold(req: Request) | SubmitSend(req: Request) | SubmitRelease
    | StartLock | StartHold | StartSpawn(left: nat) | StartRelease
    | StopOnce | StopLock | StopHold | StopClose | StopWait | StopCloseRequests | StopCloseResponses | StopRelease
    | Finished

  datatype Once = Fresh | Running(caller: nat) | Complete

  /** The read-write mutex and the once. */
  datatype Locks = Locks(writer: Option<nat>, readers: set<nat>, once: Once)

  datatype Flags = Flags(
    isStarted: bool, isStopped: bool, stopClosed: bool, requestsClosed: bool, responsesClosed: bool)

  /** The workers with their wait group, the two buffered channels, and what became of every request. */
  datatype Pool = Pool(
    workers: seq<Worker>, wg: int, queue: seq<Request>, responses: seq<Request>,
    accepted: seq<Request>, answered: seq<Request>, dropped: seq<Request>,
    abandoned: seq<Request>, swallowed: seq<Request>, panicked: bool, nilPanics: nat)

  datatype State = State(callers: seq<Caller>, locks: Locks, flags: Flags, pool: Pool)

  function Init(): State {
    State([], Locks(None, {}, Fresh), Flags(false, false, false, false, false),
          Pool([], 0, [], [], [], [], [], [], [], false, 0))
  }

  // ---- workers ---------------------------------------------------------------

  datatype Action = Take | TakeClosed | StopIdle | Finish | Answer | Abandon | DropReply

  predicate CanAct(f: Flags, p: Pool, w: Worker, action: Action) {
    match action
    case Take => w.Idle? && |p.queue| > 0
    case TakeClosed => w.Idle? && |p.queue| == 0 && f.requestsClosed
    case StopIdle => w.Idle? && f.stopClosed
    case Finish => w.Processing?
    case Answer => w.Replying? && (f.responsesClosed || |p.responses| < CHANNEL_SIZE)
    case Abandon => w.Replying? && f.stopClosed
    case DropReply => w.Replying? && !f.stopClosed && !f.responsesClosed && |p.responses| >= CHANNEL_SIZE
  }

  /** What becomes of a request when a worker lets go of it. */
  datatype Fate = Kept | Answered | Dropped | Abandoned | Swallowed

  datatype Effect = Effect(next: Worker, pops: bool, fate: Fate, req: Request, panics: bool)

  function Move(next: Worker): Effect {
    Effect(next, false, Kept, Nil, false)
  }

  function Act(f: Flags, p: Pool, w: Worker, action: Action): Effect
    requires CanAct(f, p, w, action)
  {
    match action
    case Take =>
      if p.queue[0].Nil? then Effect(Exited, true, Swallowed, Nil, false)
      else Move(Processing(p.queue[0])).(pops := true)
    case TakeClosed => Move(Exited)
    case StopIdle => Move(Exited)
    case Finish => Move(Replying(w.req))
    case Answer =>
      if f.responsesClosed then Move(w).(panics := true) else Effect(Idle, false, Answered, w.req, false)
    case Abandon => Effect(Exited, false, Abandoned, w.req, false)
    case DropReply => Effect(Idle, false, Dropped, w.req, false)
  }

  function Perform(p: Pool, i: nat, e: Effect): Pool
    requires i < |p.workers| && (e.pops ==> |p.queue| > 0)
  {
    p.(workers := p.workers[i := e.next],
       wg := if e.next.Exited? then p.wg - 1 else p.wg,
       queue := if e.pops then p.queue[1..] else p.queue,
       responses := if e.fate.Answered? then p.responses + [e.req] else p.responses,
       answered := if e.fate.Answered? then p.answered + [e.req] else p.answered,
       dropped := if e.fate.Dropped? then p.dropped + [e.req] else p.dropped,
       abandoned := if e.fate.Abandoned? then p.abandoned + [e.req] else p.abandoned,
       swallowed := if e.fate.Swallowed? then p.swallowed + [e.req] else p.swallowed,
       panicked := p.panicked || e.panics)
  }

  // ---- callers ---------------------------------------------------------------

  datatype LockOp = Keep | ReadLock | ReadUnlock | Lock | Unlock

  datatype OnceOp = Same | Begin | End

  /** One atomic action of a caller: where it goes, and what it does to the locks, flags and pool. */
  datatype CallEffect = CallEffect(next: Caller, op: LockOp, once: OnceOp, flags: Flags, pool: Pool)

  /** The way a submitter's select goes; the default only when nothing else is ready. */
  datatype Choice = Enqueue | SawStop | DropFull

  predicate CanChoose(f: Flags, p: Pool, choice: Choice) {
    match choice
    case Enqueue => f.requestsClosed || |p.queue| < CHANNEL_SIZE
    case SawStop => f.stopClosed
    case DropFull => !f.requestsClosed && |p.queue| >= CHANNEL_SIZE && !f.stopClosed
  }

  predicate CanProceed(s: State, c: Caller, choice: Choice) {
    match c
    case SubmitLock(_) => s.locks.writer.None?
    case SubmitSend(_) => CanChoose(s.flags, s.pool, choice)
    case StartLock => s.locks.writer.None? && s.locks.readers == {}
    case StopOnce => !s.locks.once.Running?
    case StopLock => s.locks.writer.None? && s.locks.readers == {}
    case StopWait => s.pool.wg == 0
    case Finished => false
    case _ => true
  }

  /** The submitter's select. The warning about a full queue reads the request, so a nil panics there;
      the deferred unlock runs, and the panic is the caller's. */
  function Submitted(f: Flags, p: Pool, req: Request, choice: Choice): Pool {
    if choice == DropFull && req.Nil? then p.(nilPanics := p.nilPanics + 1)
    else if choice != Enqueue then p
    else if f.requestsClosed then p.(panicked := true)
    else p.(queue := p.queue + [req], accepted := p.accepted + [req])
  }

  function Spawned(p: Pool): Pool {
    p.(wg := p.wg + 1, workers := p.workers + [Idle])
  }

  function Proceed(workerCount: nat, once: Once, f: Flags, p: Pool, c: Caller, choice: Choice): CallEffect
    requires !c.Finished?
  {
    match c
    // SubmitRequest
    case SubmitLock(req) => CallEffect(SubmitHold(req), ReadLock, Same, f, p)
    case SubmitHold(req) => CallEffect(if f.isStopped then SubmitRelease else SubmitSend(req), Keep, Same, f, p)
    case SubmitSend(req) => CallEffect(SubmitRelease, Keep, Same, f, Submitted(f, p, req, choice))
    case SubmitRelease => CallEffect(Finished, ReadUnlock, Same, f, p)
    // Start
    case StartLock => CallEffect(StartHold, Lock, Same, f, p)
    case StartHold =>
      if f.isStarted || f.isStopped then CallEffect(StartRelease, Keep, Same, f, p)
      else CallEffect(StartSpawn(workerCount), Keep, Same, f.(isStarted := true), p)
    case StartSpawn(left) =>
      if left == 0 then CallEffect(StartRelease, Keep, Same, f, p)
      else CallEffect(StartSpawn(left - 1), Keep, Same, f, Spawned(p))
    case StartRelease => CallEffect(Finished, Unlock, Same, f, p)
    // Stop
    case StopOnce =>
      if once.Complete? then CallEffect(Finished, Keep, Same, f, p) else CallEffect(StopLock, Keep, Begin, f, p)
    case StopLock => CallEffect(StopHold, Lock, Same, f, p)
    case StopHold =>
      if f.isStopped then CallEffect(StopRelease, Keep, Same, f, p)
      else CallEffect(StopClose, Keep, Same, f.(isStopped := true), p)
    case StopClose => CallEffect(StopWait, Keep, Same, f.(stopClosed := true), p)
    case StopWait => CallEffect(StopCloseRequests, Keep, Same, f, p)
    case StopCloseRequests => CallEffect(StopCloseResponses, Keep, Same, f.(requestsClosed := true), p)
    case StopCloseResponses => CallEffect(StopRelease, Keep, Same, f.(responsesClosed := true), p)
    case StopRelease => CallEffect(Finished, Unlock, End, f, p)
  }

  function LocksAfter(l: Locks, i: nat, op: LockOp, once: OnceOp): Locks {
    Locks(
      match op case Lock => Some(i) case Unlock => None case _ => l.writer,
      match op case ReadLock => l.readers + {i} case ReadUnlock => l.readers - {i} case _ => l.readers,
      match once case Same => l.once case Begin => Running(i) case End => Complete)
  }

  function Called(s: State, i: nat, e: CallEffect): State
    requires i < |s.callers|
  {
    State(s.callers[i := e.next], LocksAfter(s.locks, i, e.op, e.once), e.flags, e.pool)
  }

  // ---- the system ------------------------------------------------------------

  datatype Step =
    | CallStart | CallStop | CallSubmit(req: Request)
    | Call(i: nat, choice: Choice)
    | Work(i: nat, action: Action)
    | Consume

  predicate Enabled(s: State, step: Step) {
    match step
    case Call(i, choice) => i < |s.callers| && CanProceed(s, s.callers[i], choice)
    case Work(i, action) => i < |s.pool.workers| && CanAct(s.flags, s.pool, s.pool.workers[i], action)
    case Consume => |s.pool.responses| > 0
    case _ => true
  }

  function Next(workerCount: nat, s: State, step: Step): State
    requires Enabled(s, step)
  {
    match step
    case CallStart => s.(callers := s.callers + [StartLock])
    case CallStop => s.(callers := s.callers + [StopOnce])
    case CallSubmit(req) => s.(callers := s.callers + [SubmitLock(req)])
    case Call(i, choice) => Called(s, i, Proceed(workerCount, s.locks.once, s.flags, s.pool, s.callers[i], choice))
    case Work(i, action) => s.(pool := Perform(s.pool, i, Act(s.flags, s.pool, s.pool.workers[i], action)))
    case Consume => s.(pool := s.pool.(responses := s.pool.responses[1..]))
  }

  function Try(workerCount: nat): (State, Step) -> Option<State> {
    (s: State, step: Step) => if Enabled(s, step) then Some(Next(workerCount, s, step)) else None
  }

  function After(workerCount: nat, s: State, steps: seq<Step>): Option<State> {
    RunSchedule(Try(workerCount), s, steps)
  }

  // ---- sums over the workers -------------------------------------------------

  function IsLive(w: Worker): nat {
    if w.Exited? then 0 else 1
  }

  /** How many workers have not exited. */
  function Live(workers: seq<Worker>): nat {
    Sum(workers, IsLive)
  }

  /** How often r occurs. */
  function Count(rs: seq<Request>, r: Request): nat {
    if rs == [] then 0 else Count(rs[..|rs| - 1], r) + if rs[|rs| - 1] == r then 1 else 0
  }

  function HeldBy(w: Worker, r: Request): nat {
    if (w.Processing? || w.Replying?) && w.req == r then 1 else 0
  }

  /** How often r is in flight. */
  function Held(workers: seq<Worker>, r: Request): nat {
    Sum(workers, w => HeldBy(w, r))
  }

  lemma {:induction false} CountIsMultiplicity(rs: seq<Request>, r: Request)
    ensures Count(rs, r) == multiset(rs)[r]
  {
    if rs != [] {
      CountIsMultiplicity(rs[..|rs| - 1], r);
      assert rs == rs[..|rs| - 1] + [rs[|rs| - 1]];
    }
  }

  lemma CountAppend(rs: seq<Request>, x: Request, r: Request)
    ensures Count(rs + [x], r) == Count(rs, r) + if x == r then 1 else 0
  {
    assert (rs + [x])[..|rs|] == rs;
  }

  lemma {:induction false} CountPop(rs: seq<Request>, r: Request)
    requires |rs| > 0
    ensures Count(rs, r) == Count(rs[1..], r) + if rs[0] == r then 1 else 0
  {
    var n := |rs| - 1;
    if n > 0 {
      CountPop(rs[..n], r);
      assert rs[..n][1..] == rs[1..][..n - 1];
    } else {
      assert rs[1..] == [] == rs[..0];
    }
  }

  /** Steps a worker can still take before it needs another request. */
  function Rank(w: Worker): nat {
    match w
    case Idle => 1
    case Processing(_) => 3
    case Replying(_) => 2
    case Exited => 0
  }

  function TotalRank(workers: seq<Worker>): nat {
    Sum(workers, Rank)
  }

  lemma SpawnSums(workers: seq<Worker>, r: Request)
    ensures Live(workers + [Idle]) == Live(workers) + 1
    ensures Held(workers + [Idle], r) == Held(workers, r)
    ensures TotalRank(workers + [Idle]) == TotalRank(workers) + 1
  {
    SumAppend(workers, IsLive, Idle);
    SumAppend(workers, w => HeldBy(w, r), Idle);
    SumAppend(workers, Rank, Idle);
  }

  // ---- the invariant ---------------------------------------------------------

  predicate HoldsRead(c: Caller) {
    c.SubmitHold? || c.SubmitSend? || c.SubmitRelease?
  }

  predicate Stopping(c: Caller) {
    c.StopHold? || c.StopClose? || c.StopWait? || c.StopCloseRequests? || c.StopCloseResponses? || c.StopRelease?
  }

  predicate HoldsWrite(c: Caller) {
    c.StartHold? || c.StartSpawn? || c.StartRelease? || Stopping(c)
  }

  predicate InOnce(c: Caller) {
    Stopping(c) || c.StopLock?
  }

  predicate CallerHolds(l: Locks, i: nat, c: Caller) {
    && (HoldsRead(c) <==> i in l.readers)
    && (HoldsWrite(c) <==> l.writer == Some(i))
    && (InOnce(c) <==> l.once == Running(i))
  }

  ghost predicate LocksOk(callers: seq<Caller>, l: Locks) {
    && (forall i :: 0 <= i < |callers| ==> CallerHolds(l, i, callers[i]))
    && (forall i :: i in l.readers ==> i < |callers|)
    && (l.writer.Some? ==> l.writer.value < |callers| && l.readers == {})
    && (l.once.Running? ==> l.once.caller < |callers|)
  }

  /** What a caller knows of the flags and the wait group at its point in the code. */
  predicate CallerKnows(f: Flags, wg: int, c: Caller) {
    match c
    case SubmitSend(_) => !f.isStopped
    case StartSpawn(_) => !f.isStopped
    case StopLock => !f.isStopped
    case StopHold => !f.isStopped
    case StopClose => f.isStopped && !f.stopClosed
    case StopWait => f.stopClosed && !f.requestsClosed
    case StopCloseRequests => f.stopClosed && wg == 0 && !f.requestsClosed
    case StopCloseResponses => f.requestsClosed && wg == 0
    case StopRelease => f.responsesClosed && wg == 0
    case _ => true
  }

  ghost predicate CallersOk(callers: seq<Caller>, f: Flags, wg: int) {
    forall i :: 0 <= i < |callers| ==> CallerKnows(f, wg, callers[i])
  }

  predicate FlagsOk(f: Flags, wg: int, once: Once) {
    && (f.isStopped ==> !once.Fresh?)
    && (f.stopClosed ==> f.isStopped)
    && (f.requestsClosed ==> f.stopClosed && wg == 0)
    && (f.responsesClosed ==> f.requestsClosed)
    && (once.Complete? ==> f.responsesClosed)
  }

  /** Every accepted r is queued, in flight, or met one of the four fates. */
  predicate Balanced(p: Pool, r: Request) {
    Count(p.accepted, r)
    == Count(p.queue, r) + Held(p.workers, r)
       + Count(p.answered, r) + Count(p.dropped, r) + Count(p.abandoned, r) + Count(p.swallowed, r)
  }

  ghost predicate PoolOk(f: Flags, p: Pool) {
    && p.wg == Live(p.workers)
    && (forall r :: Balanced(p, r))
    && (!f.stopClosed ==> |p.workers| == Live(p.workers) + |p.swallowed|)
    && !p.panicked
  }

  ghost predicate Inv(s: State) {
    && LocksOk(s.callers, s.locks)
    && CallersOk(s.callers, s.flags, s.pool.wg)
    && FlagsOk(s.flags, s.pool.wg, s.locks.once)
    && PoolOk(s.flags, s.pool)
  }

  // ---- worker steps ----------------------------------------------------------

  /** What the worker held or took, it holds or has passed on. */
  predicate Passes(p: Pool, w: Worker, e: Effect, r: Request)
    requires e.pops ==> |p.queue| > 0
  {
    HeldBy(w, r) + (if e.pops && p.queue[0] == r then 1 else 0)
    == HeldBy(e.next, r) + (if !e.fate.Kept? && e.req == r then 1 else 0)
  }

  ghost predicate GoodEffect(f: Flags, p: Pool, w: Worker, e: Effect) {
    && !w.Exited? && !e.panics
    && (e.pops ==> |p.queue| > 0)
    && (forall r :: Passes(p, w, e, r))
    && (!f.stopClosed ==> (e.fate.Swallowed? <==> e.next.Exited?))
    && Rank(e.next) < Rank(w) + (if e.pops then 3 else 0)
  }

  lemma ActIsGood(f: Flags, p: Pool, once: Once, i: nat, action: Action)
    requires FlagsOk(f, p.wg, once) && PoolOk(f, p) && i < |p.workers| && CanAct(f, p, p.workers[i], action)
    ensures GoodEffect(f, p, p.workers[i], Act(f, p, p.workers[i], action))
  {
    SumZero(p.workers, IsLive);
  }

  lemma FateCounts(p: Pool, i: nat, e: Effect, r: Request)
    requires i < |p.workers| && (e.pops ==> |p.queue| > 0)
    ensures var p' := Perform(p, i, e);
      Count(p'.answered, r) + Count(p'.dropped, r) + Count(p'.abandoned, r) + Count(p'.swallowed, r)
      == Count(p.answered, r) + Count(p.dropped, r) + Count(p.abandoned, r) + Count(p.swallowed, r)
         + (if !e.fate.Kept? && e.req == r then 1 else 0)
  {
    match e.fate
    case Kept =>
    case Answered => CountAppend(p.answered, e.req, r);
    case Dropped => CountAppend(p.dropped, e.req, r);
    case Abandoned => CountAppend(p.abandoned, e.req, r);
    case Swallowed => CountAppend(p.swallowed, e.req, r);
  }

  lemma WorkBalances(p: Pool, i: nat, e: Effect, r: Request)
    requires i < |p.workers| && (e.pops ==> |p.queue| > 0) && Passes(p, p.workers[i], e, r) && Balanced(p, r)
    ensures Balanced(Perform(p, i, e), r)
  {
    SumUpdate(p.workers, w => HeldBy(w, r), i, e.next);
    if e.pops { CountPop(p.queue, r); }
    FateCounts(p, i, e, r);
  }

  lemma WorkKeepsPool(f: Flags, p: Pool, i: nat, e: Effect)
    requires PoolOk(f, p) && i < |p.workers| && GoodEffect(f, p, p.workers[i], e)
    ensures PoolOk(f, Perform(p, i, e))
  {
    SumUpdate(p.workers, IsLive, i, e.next);
    forall r ensures Balanced(Perform(p, i, e), r) { WorkBalances(p, i, e, r); }
  }

  lemma WorkKeepsInv(s: State, i: nat, action: Action)
    requires Inv(s) && i < |s.pool.workers| && CanAct(s.flags, s.pool, s.pool.workers[i], action)
    ensures Inv(s.(pool := Perform(s.pool, i, Act(s.flags, s.pool, s.pool.workers[i], action))))
  {
    ActIsGood(s.flags, s.pool, s.locks.once, i, action);
    var e := Act(s.flags, s.pool, s.pool.workers[i], action);
    WorkKeepsPool(s.flags, s.pool, i, e);
    // a live worker rules out every point that relies on an empty wait group
    SumZero(s.pool.workers, IsLive);
    forall j | 0 <= j < |s.callers| ensures CallerKnows(s.flags, Perform(s.pool, i, e).wg, s.callers[j]) {
      assert CallerKnows(s.flags, s.pool.wg, s.callers[j]);
    }
  }

  // ---- caller steps ----------------------------------------------------------

  /** The lock operation agrees with what the caller holds before and after. */
  predicate OpFits(l: Locks, c: Caller, e: CallEffect) {
    && (match e.op
        case Keep => (HoldsRead(c) <==> HoldsRead(e.next)) && (HoldsWrite(c) <==> HoldsWrite(e.next))
        case ReadLock => l.writer.None? && HoldsRead(e.next) && !HoldsWrite(e.next)
        case ReadUnlock => HoldsRead(c) && !HoldsRead(e.next) && !HoldsWrite(e.next)
        case Lock => l.writer.None? && l.readers == {} && HoldsWrite(e.next) && !HoldsRead(e.next)
        case Unlock => HoldsWrite(c) && !HoldsWrite(e.next) && !HoldsRead(e.next))
    && (match e.once
        case Same => InOnce(c) <==> InOnce(e.next)
        case Begin => !l.once.Running? && InOnce(e.next)
        case End => InOnce(c) && !InOnce(e.next))
  }

  /** Only a caller inside the once and under the lock stops or closes anything. */
  predicate FlagsFit(s: State, c: Caller, e: CallEffect) {
    && (e.flags.isStopped == s.flags.isStopped || (InOnce(c) && HoldsWrite(c)))
    && (e.flags.(isStarted := false) == s.flags.(isStarted := false) || HoldsWrite(c))
    && (e.pool.wg == s.pool.wg || HoldsWrite(c))
    && CallerKnows(e.flags, e.pool.wg, e.next)
    && FlagsOk(e.flags, e.pool.wg, match e.once case Same => s.locks.once case Begin => Running(0) case End => Complete)
  }

  lemma ProceedOpFits(workerCount: nat, s: State, c: Caller, choice: Choice)
    requires CanProceed(s, c, choice)
    ensures OpFits(s.locks, c, Proceed(workerCount, s.locks.once, s.flags, s.pool, c, choice))
  {}

  lemma ProceedFlagsFit(workerCount: nat, s: State, c: Caller, choice: Choice)
    requires CanProceed(s, c, choice)
    requires CallerKnows(s.flags, s.pool.wg, c) && FlagsOk(s.flags, s.pool.wg, s.locks.once)
    requires InOnce(c) ==> s.locks.once.Running?
    ensures FlagsFit(s, c, Proceed(workerCount, s.locks.once, s.flags, s.pool, c, choice))
  {}

  lemma SubmitKeepsPool(f: Flags, p: Pool, req: Request, choice: Choice)
    requires PoolOk(f, p) && !f.requestsClosed
    ensures PoolOk(f, Submitted(f, p, req, choice))
  {
    forall r ensures Balanced(Submitted(f, p, req, choice), r) {
      assert Balanced(p, r);
      CountAppend(p.accepted, req, r);
      CountAppend(p.queue, req, r);
    }
  }

  lemma SpawnKeepsPool(f: Flags, p: Pool)
    requires PoolOk(f, p)
    ensures PoolOk(f, Spawned(p))
  {
    SpawnSums(p.workers, Nil);
    forall r ensures Balanced(Spawned(p), r) {
      assert Balanced(p, r);
      SpawnSums(p.workers, r);
    }
  }

  lemma PoolForFlags(f: Flags, g: Flags, p: Pool)
    requires PoolOk(f, p) && (f.stopClosed ==> g.stopClosed)
    ensures PoolOk(g, p)
  {}

  lemma ProceedKeepsPool(workerCount: nat, s: State, c: Caller, choice: Choice)
    requires CanProceed(s, c, choice) && PoolOk(s.flags, s.pool)
    requires CallerKnows(s.flags, s.pool.wg, c) && FlagsOk(s.flags, s.pool.wg, s.locks.once)
    ensures var e := Proceed(workerCount, s.locks.once, s.flags, s.pool, c, choice); PoolOk(e.flags, e.pool)
  {
    var e := Proceed(workerCount, s.locks.once, s.flags, s.pool, c, choice);
    if c.SubmitSend? {
      SubmitKeepsPool(s.flags, s.pool, c.req, choice);
    } else {
      if c.StartSpawn? { SpawnKeepsPool(s.flags, s.pool); }
      PoolForFlags(s.flags, e.flags, e.pool);
    }
  }

  lemma CallKeepsLocks(callers: seq<Caller>, l: Locks, i: nat, e: CallEffect)
    requires LocksOk(callers, l) && i < |callers| && OpFits(l, callers[i], e)
    ensures LocksOk(callers[i := e.next], LocksAfter(l, i, e.op, e.once))
  {
    var callers', l' := callers[i := e.next], LocksAfter(l, i, e.op, e.once);
    assert CallerHolds(l, i, callers[i]);
    forall j | 0 <= j < |callers'| ensures CallerHolds(l', j, callers'[j]) {
      assert CallerHolds(l, j, callers[j]);
    }
  }

  lemma CallKeepsCallers(s: State, i: nat, e: CallEffect)
    requires LocksOk(s.callers, s.locks) && CallersOk(s.callers, s.flags, s.pool.wg)
    requires i < |s.callers| && FlagsFit(s, s.callers[i], e)
    ensures CallersOk(s.callers[i := e.next], e.flags, e.pool.wg)
  {
    assert CallerHolds(s.locks, i, s.callers[i]);
    var callers' := s.callers[i := e.next];
    forall j | 0 <= j < |callers'| ensures CallerKnows(e.flags, e.pool.wg, callers'[j]) {
      assert CallerHolds(s.locks, j, s.callers[j]) && CallerKnows(s.flags, s.pool.wg, s.callers[j]);
    }
  }

  lemma CallKeepsInv(workerCount: nat, s: State, i: nat, choice: Choice)
    requires Inv(s) && i < |s.callers| && CanProceed(s, s.callers[i], choice)
    ensures Inv(Called(s, i, Proceed(workerCount, s.locks.once, s.flags, s.pool, s.callers[i], choice)))
  {
    var c := s.callers[i];
    assert CallerHolds(s.locks, i, c) && CallerKnows(s.flags, s.pool.wg, c);
    ProceedOpFits(workerCount, s, c, choice);
    ProceedFlagsFit(workerCount, s, c, choice);
    ProceedKeepsPool(workerCount, s, c, choice);
    var e := Proceed(workerCount, s.locks.once, s.flags, s.pool, c, choice);
    CallKeepsLocks(s.callers, s.locks, i, e);
    CallKeepsCallers(s, i, e);
  }

  // ---- every run -------------------------------------------------------------

  lemma ArrivalKeepsInv(s: State, c: Caller)
    requires Inv(s) && (c.StartLock? || c.StopOnce? || c.SubmitLock?)
    ensures Inv(s.(callers := s.callers + [c]))
  {
    var callers := s.callers + [c];
    forall j | 0 <= j < |callers|
      ensures CallerHolds(s.locks, j, callers[j]) && CallerKnows(s.flags, s.pool.wg, callers[j])
    {
      if j < |s.callers| { assert CallerHolds(s.locks, j, s.callers[j]) && CallerKnows(s.flags, s.pool.wg, s.callers[j]); }
    }
  }

  lemma ConsumeKeepsInv(s: State)
    requires Inv(s) && |s.pool.responses| > 0
    ensures Inv(s.(pool := s.pool.(responses := s.pool.responses[1..])))
  {
    var p := s.pool.(responses := s.pool.responses[1..]);
    forall r ensures Balanced(p, r) { assert Balanced(s.pool, r); }
  }

  lemma StepKeepsInv(workerCount: nat, s: State, step: Step)
    requires Inv(s) && Enabled(s, step)
    ensures Inv(Next(workerCount, s, step))
  {
    match step
    case CallStart => ArrivalKeepsInv(s, StartLock);
    case CallStop => ArrivalKeepsInv(s, StopOnce);
    case CallSubmit(req) => ArrivalKeepsInv(s, SubmitLock(req));
    case Call(i, choice) => CallKeepsInv(workerCount, s, i, choice);
    case Work(i, action) => WorkKeepsInv(s, i, action);
    case Consume => ConsumeKeepsInv(s);
  }

  lemma {:induction false} AlwaysInv(workerCount: nat, steps: seq<Step>)
    ensures After(workerCount, Init(), steps).Some? ==> Inv(After(workerCount, Init(), steps).value)
  {
    if steps != [] {
      AlwaysInv(workerCount, steps[..|steps| - 1]);
      var before, step := After(workerCount, Init(), steps[..|steps| - 1]), steps[|steps| - 1];
      if before.Some? && Enabled(before.value, step) { StepKeepsInv(workerCount, before.value, step); }
    }
  }

  /** Main result, over every interleaving: nothing is sent on a closed channel, and channels close
      only when no worker is live. */
  lemma NoSendOnClosed(workerCount: nat, steps: seq<Step>, s: State)
    requires After(workerCount, Init(), steps) == Some(s)
    ensures !s.pool.panicked
    ensures s.flags.requestsClosed || s.flags.responsesClosed ==>
      s.pool.wg == 0 && s.flags.isStopped && forall i :: 0 <= i < |s.pool.workers| ==> s.pool.workers[i].Exited?
    ensures s.locks.once.Complete? ==> s.flags.stopClosed && s.flags.requestsClosed && s.flags.responsesClosed
  {
    AlwaysInv(workerCount, steps);
    SumZero(s.pool.workers, IsLive);
  }

  /** Among the accepted requests, r occurs as often as in all the places it can be. */
  predicate Conserved(p: Pool, r: Request) {
    multiset(p.accepted)[r]
    == multiset(p.queue)[r] + Held(p.workers, r)
       + multiset(p.answered)[r] + multiset(p.dropped)[r] + multiset(p.abandoned)[r] + multiset(p.swallowed)[r]
  }

  /** Conservation: every accepted request is queued, in flight, answered, dropped for a full response
      channel, abandoned at stop, or a nil that ended a worker; and until the stop, the workers that
      ended are exactly those that took a nil. */
  lemma RequestsConserved(workerCount: nat, steps: seq<Step>, s: State)
    requires After(workerCount, Init(), steps) == Some(s)
    ensures forall r :: Conserved(s.pool, r)
    ensures !s.flags.stopClosed ==> |s.pool.workers| == Live(s.pool.workers) + |s.pool.swallowed|
    ensures s.pool.wg == Live(s.pool.workers)
  {
    AlwaysInv(workerCount, steps);
    forall r ensures Conserved(s.pool, r) {
      assert Balanced(s.pool, r);
      CountIsMultiplicity(s.pool.accepted, r);
      CountIsMultiplicity(s.pool.queue, r);
      CountIsMultiplicity(s.pool.answered, r);
      CountIsMultiplicity(s.pool.dropped, r);
      CountIsMultiplicity(s.pool.abandoned, r);
      CountIsMultiplicity(s.pool.swallowed, r);
    }
  }

  // ---- after the stop --------------------------------------------------------

  function PoolMeasure(p: Pool): nat {
    3 * |p.queue| + TotalRank(p.workers)
  }

  function Measure(s: State): nat {
    PoolMeasure(s.pool)
  }

  /** Once stopChan is closed the queue only shrinks, no worker starts, and every worker step lowers
      the measure. */
  lemma StoppedStep(workerCount: nat, s: State, step: Step)
    requires Inv(s) && s.flags.stopClosed && Enabled(s, step)
    ensures Next(workerCount, s, step).flags.stopClosed
    ensures Measure(Next(workerCount, s, step)) <= Measure(s) - if step.Work? then 1 else 0
  {
    if step.Work? {
      ActIsGood(s.flags, s.pool, s.locks.once, step.i, step.action);
      SumUpdate(s.pool.workers, Rank, step.i, Act(s.flags, s.pool, s.pool.workers[step.i], step.action).next);
    } else if step.Call? {
      assert CallerKnows(s.flags, s.pool.wg, s.callers[step.i]);
    }
  }

  function WorkSteps(steps: seq<Step>): nat {
    if steps == [] then 0 else WorkSteps(steps[..|steps| - 1]) + if steps[|steps| - 1].Work? then 1 else 0
  }

  /** However the run goes on, the workers take at most Measure(s) more steps. */
  lemma {:induction false} StoppedBound(workerCount: nat, s: State, steps: seq<Step>)
    requires Inv(s) && s.flags.stopClosed && After(workerCount, s, steps).Some?
    ensures var t := After(workerCount, s, steps).value;
      Inv(t) && t.flags.stopClosed && WorkSteps(steps) + Measure(t) <= Measure(s)
  {
    if steps != [] {
      var init, step := steps[..|steps| - 1], steps[|steps| - 1];
      StoppedBound(workerCount, s, init);
      StoppedStep(workerCount, After(workerCount, s, init).value, step);
      StepKeepsInv(workerCount, After(workerCount, s, init).value, step);
    }
  }

  /** And a live worker can always take one, so the stopper's wait ends. */
  lemma StoppedWorkerCanAct(s: State, i: nat)
    requires s.flags.stopClosed && i < |s.pool.workers| && !s.pool.workers[i].Exited?
    ensures exists action :: Enabled(s, Work(i, action))
  {
    var w := s.pool.workers[i];
    var action := if w.Idle? then StopIdle else if w.Processing? then Finish else Abandon;
    assert Enabled(s, Work(i, action));
  }

  // ---- every call ends -------------------------------------------------------

  /** Steps a caller can still take, counting three for the request it may queue and one for every
      worker it may start. */
  function CallerRank(workerCount: nat, c: Caller): nat {
    match c
    case SubmitLock(_) => 7
    case SubmitHold(_) => 6
    case SubmitSend(_) => 5
    case SubmitRelease => 1
    case StartLock => 4 + 2 * workerCount
    case StartHold => 3 + 2 * workerCount
    case StartSpawn(left) => 2 + 2 * left
    case StartRelease => 1
    case StopOnce => 8
    case StopLock => 7
    case StopHold => 6
    case StopClose => 5
    case StopWait => 4
    case StopCloseRequests => 3
    case StopCloseResponses => 2
    case StopRelease => 1
    case Finished => 0
  }

  /** All the work there is when nothing more is called. */
  function Remaining(workerCount: nat, s: State): nat {
    Sum(s.callers, c => CallerRank(workerCount, c)) + Measure(s)
  }

  predicate IsWork(step: Step) {
    step.Call? || step.Work?
  }

  predicate Arrives(step: Step) {
    step.CallStart? || step.CallStop? || step.CallSubmit?
  }

  lemma SubmittedMeasure(f: Flags, p: Pool, req: Request, choice: Choice)
    ensures PoolMeasure(Submitted(f, p, req, choice)) <= PoolMeasure(p) + 3
  {}

  lemma SpawnedMeasure(p: Pool)
    ensures PoolMeasure(Spawned(p)) == PoolMeasure(p) + 1
  {
    SpawnSums(p.workers, Nil);
  }

  /** The callers' own ranks fall by more than the work they hand over. */
  lemma ProceedLowers(workerCount: nat, s: State, c: Caller, choice: Choice)
    requires CanProceed(s, c, choice)
    ensures var e := Proceed(workerCount, s.locks.once, s.flags, s.pool, c, choice);
      CallerRank(workerCount, e.next) + PoolMeasure(e.pool) < CallerRank(workerCount, c) + PoolMeasure(s.pool)
  {
    var e := Proceed(workerCount, s.locks.once, s.flags, s.pool, c, choice);
    if c.SubmitSend? {
      SubmittedMeasure(s.flags, s.pool, c.req, choice);
    } else if c.StartSpawn? {
      SpawnedMeasure(s.pool);
    } else {
      assert e.pool == s.pool;
    }
  }

  lemma CallLowers(workerCount: nat, s: State, i: nat, choice: Choice)
    requires i < |s.callers| && CanProceed(s, s.callers[i], choice)
    ensures Remaining(workerCount, Next(workerCount, s, Call(i, choice))) < Remaining(workerCount, s)
  {
    var e := Proceed(workerCount, s.locks.once, s.flags, s.pool, s.callers[i], choice);
    ProceedLowers(workerCount, s, s.callers[i], choice);
    SumUpdate(s.callers, c => CallerRank(workerCount, c), i, e.next);
    assert Next(workerCount, s, Call(i, choice)) == Called(s, i, e);
  }

  lemma WorkLowers(workerCount: nat, s: State, i: nat, action: Action)
    requires Inv(s) && Enabled(s, Work(i, action))
    ensures Remaining(workerCount, Next(workerCount, s, Work(i, action))) < Remaining(workerCount, s)
  {
    ActIsGood(s.flags, s.pool, s.locks.once, i, action);
    SumUpdate(s.pool.workers, Rank, i, Act(s.flags, s.pool, s.pool.workers[i], action).next);
  }

  lemma StepLowers(workerCount: nat, s: State, step: Step)
    requires Inv(s) && Enabled(s, step) && !Arrives(step)
    ensures Remaining(workerCount, Next(workerCount, s, step)) + (if IsWork(step) then 1 else 0) <= Remaining(workerCount, s)
    ensures |Next(workerCount, s, step).callers| == |s.callers|
  {
    match step
    case Call(i, choice) => CallLowers(workerCount, s, i, choice);
    case Work(i, action) => WorkLowers(workerCount, s, i, action);
    case _ =>
  }

  /** A caller that holds the lock can step, or a worker it waits for can. */
  lemma HolderUnblocks(s: State, i: nat) returns (step: Step)
    requires Inv(s) && i < |s.callers| && (HoldsRead(s.callers[i]) || HoldsWrite(s.callers[i]))
    ensures IsWork(step) && Enabled(s, step)
  {
    var c := s.callers[i];
    assert CallerKnows(s.flags, s.pool.wg, c);
    if c.StopWait? && s.pool.wg != 0 {
      SumZero(s.pool.workers, IsLive);
      var j :| 0 <= j < |s.pool.workers| && !s.pool.workers[j].Exited?;
      StoppedWorkerCanAct(s, j);
      var action :| Enabled(s, Work(j, action));
      step := Work(j, action);
    } else {
      var choice := if s.flags.requestsClosed || |s.pool.queue| < CHANNEL_SIZE then Enqueue
                    else if s.flags.stopClosed then SawStop else DropFull;
      step := Call(i, choice);
    }
  }

  /** A caller that waits for the lock can take it, or its holder unblocks. */
  lemma LockerUnblocks(s: State, i: nat) returns (step: Step)
    requires Inv(s) && i < |s.callers|
    requires s.callers[i].SubmitLock? || s.callers[i].StartLock? || s.callers[i].StopLock?
    ensures IsWork(step) && Enabled(s, step)
  {
    if s.locks.writer.Some? {
      var w := s.locks.writer.value;
      assert CallerHolds(s.locks, w, s.callers[w]);
      step := HolderUnblocks(s, w);
    } else if s.locks.readers != {} && !s.callers[i].SubmitLock? {
      var r :| r in s.locks.readers;
      assert CallerHolds(s.locks, r, s.callers[r]);
      step := HolderUnblocks(s, r);
    } else {
      step := Call(i, Enqueue);
    }
  }

  /** No deadlock: while a call is not finished, some caller or worker can step. */
  lemma NoDeadlock(s: State, i: nat) returns (step: Step)
    requires Inv(s) && i < |s.callers| && !s.callers[i].Finished?
    ensures IsWork(step) && Enabled(s, step)
  {
    var c := s.callers[i];
    if HoldsRead(c) || HoldsWrite(c) {
      step := HolderUnblocks(s, i);
    } else if c.StopOnce? {
      if s.locks.once.Running? {
        var k := s.locks.once.caller;
        assert CallerHolds(s.locks, k, s.callers[k]);
        if s.callers[k].StopLock? { step := LockerUnblocks(s, k); } else { step := HolderUnblocks(s, k); }
      } else {
        step := Call(i, Enqueue);
      }
    } else {
      step := LockerUnblocks(s, i);
    }
  }

  predicate AllFinished(s: State) {
    forall i :: 0 <= i < |s.callers| ==> s.callers[i].Finished?
  }

  lemma {:induction false} CallsFinish(workerCount: nat, s: State) returns (steps: seq<Step>)
    requires Inv(s)
    ensures After(workerCount, s, steps).Some? && |steps| <= Remaining(workerCount, s)
    ensures var t := After(workerCount, s, steps).value; AllFinished(t) && |t.callers| == |s.callers|
    decreases Remaining(workerCount, s)
  {
    if i :| 0 <= i < |s.callers| && !s.callers[i].Finished? {
      var step := NoDeadlock(s, i);
      StepLowers(workerCount, s, step);
      StepKeepsInv(workerCount, s, step);
      var rest := CallsFinish(workerCount, Next(workerCount, s, step));
      ScheduleFirst(Try(workerCount), s, step, rest);
      steps := [step] + rest;
    } else {
      steps := [];
    }
  }

  /** From every reachable state some continuation finishes every call of Start, Stop and SubmitRequest
      that has begun. */
  lemma CanFinish(workerCount: nat, before: seq<Step>) returns (steps: seq<Step>)
    requires After(workerCount, Init(), before).Some?
    ensures After(workerCount, Init(), before + steps).Some?
    ensures var s, t := After(workerCount, Init(), before).value, After(workerCount, Init(), before + steps).value;
      |t.callers| == |s.callers| && AllFinished(t)
  {
    AlwaysInv(workerCount, before);
    steps := CallsFinish(workerCount, After(workerCount, Init(), before).value);
    ScheduleConcat(Try(workerCount), Init(), before, steps);
  }

  function BusySteps(steps: seq<Step>): nat {
    if steps == [] then 0 else BusySteps(steps[..|steps| - 1]) + if IsWork(steps[|steps| - 1]) then 1 else 0
  }

  /** And unless something more is called, every continuation is that short: the callers and workers
      together take at most Remaining steps. */
  lemma {:induction false} CallsBounded(workerCount: nat, s: State, steps: seq<Step>)
    requires Inv(s) && After(workerCount, s, steps).Some?
    requires forall k :: 0 <= k < |steps| ==> !Arrives(steps[k])
    ensures var t := After(workerCount, s, steps).value;
      Inv(t) && BusySteps(steps) + Remaining(workerCount, t) <= Remaining(workerCount, s)
  {
    if steps != [] {
      var init, step := steps[..|steps| - 1], steps[|steps| - 1];
      CallsBounded(workerCount, s, init);
      assert !Arrives(step);
      StepLowers(workerCount, After(workerCount, s, init).value, step);
      StepKeepsInv(workerCount, After(workerCount, s, init).value, step);
    }
  }

  // ---- nil requests ----------------------------------------------------------

  /** SubmitRequest panics exactly when it is given nil, the queue is full and no stop is on. */
  lemma NilPanics(workerCount: nat, s: State, step: Step)
    requires Enabled(s, step)
    ensures Next(workerCount, s, step).pool.nilPanics
         == s.pool.nilPanics + if step.Call? && s.callers[step.i] == SubmitSend(Nil) && step.choice == DropFull then 1 else 0
    ensures step.Call? && s.callers[step.i].SubmitSend? ==>
      (step.choice == DropFull <==> |s.pool.queue| >= CHANNEL_SIZE && !s.flags.stopClosed && !s.flags.requestsClosed)
  {}

  predicate Carries(c: Caller, r: Request) {
    (c.SubmitLock? || c.SubmitHold? || c.SubmitSend?) && c.req == r
  }

  /** Without nil requests it never panics. */
  lemma {:induction false} NilFree(workerCount: nat, steps: seq<Step>)
    requires After(workerCount, Init(), steps).Some? && CallSubmit(Nil) !in steps
    ensures var s := After(workerCount, Init(), steps).value;
      s.pool.nilPanics == 0 && forall i :: 0 <= i < |s.callers| ==> !Carries(s.callers[i], Nil)
  {
    if steps != [] {
      var init, step := steps[..|steps| - 1], steps[|steps| - 1];
      NilFree(workerCount, init);
      var s := After(workerCount, Init(), init).value;
      assert step in steps;
      NilPanics(workerCount, s, step);
      NilStays(workerCount, s, step);
    }
  }

  lemma NilStays(workerCount: nat, s: State, step: Step)
    requires Enabled(s, step) && step != CallSubmit(Nil)
    requires forall i :: 0 <= i < |s.callers| ==> !Carries(s.callers[i], Nil)
    ensures var t := Next(workerCount, s, step); forall i :: 0 <= i < |t.callers| ==> !Carries(t.callers[i], Nil)
  {
    var t := Next(workerCount, s, step);
    forall i | 0 <= i < |t.callers|
      ensures !Carries(t.callers[i], Nil)
    {
      assert i < |s.callers| ==> !Carries(s.callers[i], Nil);
    }
  }

  /** Before any Start or Stop: the earlier callers, and one more at this point of SubmitRequest. */
  predicate Submitting(s: State, earlier: seq<Caller>, c: Caller, queued: nat, nilPanics: nat) {
    && s.callers == earlier + [c]
    && s.locks == Locks(None, if HoldsRead(c) then {|earlier|} else {}, Fresh)
    && s.flags == Flags(false, false, false, false, false)
    && |s.pool.queue| == queued && s.pool.nilPanics == nilPanics
  }

  predicate Resting(s: State, queued: nat) {
    && s.locks == Locks(None, {}, Fresh)
    && s.flags == Flags(false, false, false, false, false)
    && |s.pool.queue| == queued && s.pool.nilPanics == 0
  }

  /** One more step of a schedule. */
  lemma Extend(workerCount: nat, steps: seq<Step>, s: State, step: Step) returns (more: seq<Step>, t: State)
    requires After(workerCount, Init(), steps) == Some(s) && Enabled(s, step)
    ensures more == steps + [step] && t == Next(workerCount, s, step)
    ensures After(workerCount, Init(), more) == Some(t)
  {
    ScheduleLast(Try(workerCount), Init(), steps, step);
    more, t := steps + [step], Next(workerCount, s, step);
  }

  lemma Replaced(earlier: seq<Caller>, c: Caller, d: Caller)
    ensures (earlier + [c])[|earlier|] == c
    ensures (earlier + [c])[|earlier| := d] == earlier + [d]
  {}

  /** The last caller's next step. */
  lemma Advance(workerCount: nat, steps: seq<Step>, s: State, earlier: seq<Caller>, c: Caller, choice: Choice)
    returns (more: seq<Step>, t: State)
    requires After(workerCount, Init(), steps) == Some(s)
    requires s.callers == earlier + [c] && CanProceed(s, c, choice)
    ensures After(workerCount, Init(), more) == Some(t)
    ensures var e := Proceed(workerCount, s.locks.once, s.flags, s.pool, c, choice);
      t == State(earlier + [e.next], LocksAfter(s.locks, |earlier|, e.op, e.once), e.flags, e.pool)
  {
    var e := Proceed(workerCount, s.locks.once, s.flags, s.pool, c, choice);
    Replaced(earlier, c, e.next);
    more, t := Extend(workerCount, steps, s, Call(|earlier|, choice));
  }

  /** A submission with the read lock held and the check for a stop passed. */
  lemma Submit(workerCount: nat, steps: seq<Step>, s: State, req: Request, queued: nat)
    returns (more: seq<Step>, t: State)
    requires After(workerCount, Init(), steps) == Some(s) && Resting(s, queued)
    ensures After(workerCount, Init(), more) == Some(t) && Submitting(t, s.callers, SubmitSend(req), queued, 0)
  {
    more, t := Extend(workerCount, steps, s, CallSubmit(req));
    more, t := Advance(workerCount, more, t, s.callers, SubmitLock(req), Enqueue);
    more, t := Advance(workerCount, more, t, s.callers, SubmitHold(req), Enqueue);
  }

  lemma SubmitQueued(workerCount: nat, steps: seq<Step>, s: State, queued: nat) returns (more: seq<Step>, t: State)
    requires After(workerCount, Init(), steps) == Some(s) && Resting(s, queued) && queued < CHANNEL_SIZE
    ensures After(workerCount, Init(), more) == Some(t) && Resting(t, queued + 1)
  {
    more, t := Submit(workerCount, steps, s, Req(queued), queued);
    more, t := Advance(workerCount, more, t, s.callers, SubmitSend(Req(queued)), Enqueue);
    more, t := Advance(workerCount, more, t, s.callers, SubmitRelease, Enqueue);
  }

  lemma {:induction false} FillQueue(workerCount: nat, queued: nat) returns (steps: seq<Step>, s: State)
    requires queued <= CHANNEL_SIZE
    ensures After(workerCount, Init(), steps) == Some(s) && Resting(s, queued)
  {
    if queued == 0 {
      steps, s := [], Init();
    } else {
      steps, s := FillQueue(workerCount, queued - 1);
      steps, s := SubmitQueued(workerCount, steps, s, queued - 1);
    }
  }

  /** A run that panics: a hundred submissions with no worker started, and then a nil. */
  lemma NilReached(workerCount: nat) returns (steps: seq<Step>, s: State)
    ensures After(workerCount, Init(), steps) == Some(s) && s.pool.nilPanics == 1 && |s.pool.queue| == 100
  {
    steps, s := FillQueue(workerCount, CHANNEL_SIZE);
    var earlier := s.callers;
    steps, s := Submit(workerCount, steps, s, Nil, CHANNEL_SIZE);
    steps, s := Advance(workerCount, steps, s, earlier, SubmitSend(Nil), DropFull);
  }
}
