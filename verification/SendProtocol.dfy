/** txmgr/txmgr.go: SimpleTxManager.Send as a transition system. One step is one atomic action of the
    main loop or of one worker goroutine; the scheduler and every reply of the backend are arbitrary. */
module SendProtocol {
  import opened Common
  import opened Bytes
  import opened SendStates

  type uint64 = x: nat | x < TWO64

  datatype Config = Config(numConfirmations: uint64, safeAbort: nat)

  datatype Receipt = Receipt(blockNumber: uint64)

  /** A receipt with the worker that polled it, for which transaction, and the tip it was judged at. */
  datatype Delivery = Delivery(worker: nat, tx: Hash, receipt: Receipt, tip: uint64)

  datatype GasReply = Priced(tx: Hash) | PriceCanceled | PriceFailed

  datatype Worker =
    | Pricing
    | Publishing(tx: Hash)
    | Publicized(tx: Hash, result: SendResult)
    | Rejected(canceled: bool)
    | Querying(tx: Hash)
    | Found(tx: Hash, receipt: Receipt)
    | NotFound(tx: Hash)
    | Measuring(tx: Hash, receipt: Receipt)
    | Waiting(tx: Hash)
    | Delivering(delivery: Delivery)
    | Exited

  datatype Outcome = Confirmed(delivery: Delivery) | ContextError

  /** Leaving and Draining are the deferred cancel and wait of a return. */
  datatype Main = Looping | Ticked | Spawning | Leaving(r: Outcome) | Draining(r: Outcome) | Returned(r: Outcome)

  datatype State = State(
    main: Main, workers: seq<Worker>, wg: int, parentDone: bool, cancelled: bool, channel: Option<Delivery>,
    log: seq<SendEvent>,
    // what happened so far
    placed: seq<Delivery>, published: set<(nat, Hash)>, tips: set<uint64>, checks: seq<nat>,
    gasFailed: bool, abortedAt: Option<nat>)

  /** One atomic action of a worker, with the reply it got from outside. */
  datatype Action =
    | GasReplies(gas: GasReply)
    | SendReplies(result: SendResult)
    | ProcessSend
    | GiveUp
    | ReceiptReplies(receipt: Option<Receipt>)
    | ReceiptFails
    | ReportMined
    | ReportNotMined
    | TipReplies(tip: uint64)
    | TipFails
    | QueryAgain
    | StopWaiting
    | Deliver

  datatype Step =
    | ParentDone
    | Tick | Check | Spawn | LeaveOnContext | Receive | Cancel | Return
    | Work(i: nat, action: Action)

  function Init(): State {
    State(Looping, [Pricing], 1, false, false, None, [], [], {}, {}, [], false, None)
  }

  predicate Done(s: State) {
    s.parentDone || s.cancelled
  }

  predicate IsDeep(cfg: Config, receipt: Receipt, tip: uint64) {
    (receipt.blockNumber + cfg.numConfirmations) % TWO64 <= (tip + 1) % TWO64
  }

  predicate ShouldAbort(cfg: Config, log: seq<SendEvent>) {
    MinedSet(log) == {} && NonceCount(log) >= cfg.safeAbort
  }

  predicate CanAct(w: Worker, action: Action, done: bool) {
    match action
    case GasReplies(_) => w.Pricing?
    case SendReplies(_) => w.Publishing?
    case ProcessSend => w.Publicized?
    case GiveUp => w.Rejected?
    case ReceiptReplies(_) => w.Querying?
    case ReceiptFails => w.Querying?
    case ReportMined => w.Found?
    case ReportNotMined => w.NotFound?
    case TipReplies(_) => w.Measuring?
    case TipFails => w.Measuring?
    case QueryAgain => w.Waiting?
    case StopWaiting => w.Waiting? && done
    case Deliver => w.Delivering?
  }

  /** What an action does: where the worker goes, what it tells the shared state, and whether it
      cancels the context or offers a receipt to the channel. */
  datatype Effect = Effect(
    next: Worker, events: seq<SendEvent>, published: set<(nat, Hash)>, tips: set<uint64>,
    gasFails: bool, aborts: bool, offers: Option<Delivery>)

  function Move(next: Worker): Effect {
    Effect(next, [], {}, {}, false, false, None)
  }

  function Act(cfg: Config, i: nat, w: Worker, action: Action, log: seq<SendEvent>): Effect
    requires CanAct(w, action, true)
  {
    match action
    case GasReplies(gas) => (
      match gas
      case Priced(tx) => Move(Publishing(tx))
      case PriceCanceled => Move(Exited)
      case PriceFailed => Move(Exited).(gasFails := true))
    case SendReplies(result) =>
      Move(Publicized(w.tx, result)).(published := if result.Ok? then {(i, w.tx)} else {})
    case ProcessSend =>
      Move(if w.result.Ok? then Querying(w.tx) else Rejected(w.result.canceled)).(events := [Sent(w.result)])
    case GiveUp => Move(Exited).(aborts := !w.canceled && ShouldAbort(cfg, log))
    case ReceiptReplies(receipt) =>
      Move(if receipt.Some? then Found(w.tx, receipt.value) else NotFound(w.tx))
    case ReceiptFails => Move(Waiting(w.tx))
    case ReportMined => Move(Measuring(w.tx, w.receipt)).(events := [Mined(w.tx)])
    case ReportNotMined => Move(Waiting(w.tx)).(events := [NotMined(w.tx)])
    case TipReplies(tip) =>
      Move(if IsDeep(cfg, w.receipt, tip) then Delivering(Delivery(i, w.tx, w.receipt, tip)) else Waiting(w.tx))
        .(tips := {tip})
    case TipFails => Move(Waiting(w.tx))
    case QueryAgain => Move(Querying(w.tx))
    case StopWaiting => Move(Exited)
    case Deliver => Move(Exited).(offers := Some(w.delivery))
  }

  /** The effect on the whole state. An exiting goroutine runs its deferred wg.Done; a receipt offered
      to a full channel is dropped, as the select with a default does. */
  function Perform(s: State, i: nat, e: Effect): State
    requires i < |s.workers|
  {
    var accepted := e.offers.Some? && s.channel.None?;
    s.(workers := s.workers[i := e.next],
       wg := if e.next.Exited? then s.wg - 1 else s.wg,
       log := s.log + e.events,
       published := s.published + e.published,
       tips := s.tips + e.tips,
       cancelled := s.cancelled || e.gasFails || e.aborts,
       gasFailed := s.gasFailed || e.gasFails,
       abortedAt := if e.aborts then Some(|s.log|) else s.abortedAt,
       channel := if accepted then e.offers else s.channel,
       placed := if accepted then s.placed + [e.offers.value] else s.placed)
  }

  predicate Enabled(s: State, step: Step) {
    match step
    case ParentDone => true
    case Tick => s.main.Looping?
    case Check => s.main.Ticked?
    case Spawn => s.main.Spawning?
    case LeaveOnContext => s.main.Looping? && Done(s)
    case Receive => s.main.Looping? && s.channel.Some?
    case Cancel => s.main.Leaving?
    case Return => s.main.Draining? && s.wg == 0
    case Work(i, action) => i < |s.workers| && CanAct(s.workers[i], action, Done(s))
  }

  function Next(cfg: Config, s: State, step: Step): State
    requires Enabled(s, step)
  {
    match step
    case ParentDone => s.(parentDone := true)
    case Tick => s.(main := Ticked)
    case Check =>
      if MinedSet(s.log) != {} then s.(main := Looping)
      else s.(main := Spawning, checks := s.checks + [|s.log|])
    case Spawn => s.(main := Looping, wg := s.wg + 1, workers := s.workers + [Pricing])
    case LeaveOnContext => s.(main := Leaving(ContextError))
    case Receive => s.(main := Leaving(Confirmed(s.channel.value)), channel := None)
    case Cancel => s.(main := Draining(s.main.r), cancelled := true)
    case Return => s.(main := Returned(s.main.r))
    case Work(i, action) => Perform(s, i, Act(cfg, i, s.workers[i], action, s.log))
  }

  function Try(cfg: Config): (State, Step) -> Option<State> {
    (s: State, step: Step) => if Enabled(s, step) then Some(Next(cfg, s, step)) else None
  }

  /** The state after a schedule, if each of its steps is enabled when its turn comes. */
  function After(cfg: Config, s: State, steps: seq<Step>): Option<State> {
    RunSchedule(Try(cfg), s, steps)
  }

  // ---- the invariant ---------------------------------------------------------

  function IsLive(w: Worker): nat {
    if w.Exited? then 0 else 1
  }

  /** How many workers have not exited. */
  function Live(workers: seq<Worker>): nat {
    Sum(workers, IsLive)
  }

  predicate GoodDelivery(cfg: Config, published: set<(nat, Hash)>, tips: set<uint64>, d: Delivery) {
    (d.worker, d.tx) in published && IsDeep(cfg, d.receipt, d.tip) && d.tip in tips
  }

  predicate GoodWorker(cfg: Config, published: set<(nat, Hash)>, tips: set<uint64>, i: nat, w: Worker) {
    match w
    case Publicized(tx, result) => result.Ok? ==> (i, tx) in published
    case Querying(tx) => (i, tx) in published
    case Found(tx, _) => (i, tx) in published
    case NotFound(tx) => (i, tx) in published
    case Measuring(tx, _) => (i, tx) in published
    case Waiting(tx) => (i, tx) in published
    case Delivering(d) => GoodDelivery(cfg, published, tips, d)
    case _ => true
  }

  /** What every effect of a good worker satisfies. */
  predicate GoodEffect(cfg: Config, s: State, i: nat, e: Effect) {
    && GoodWorker(cfg, s.published + e.published, s.tips + e.tips, i, e.next)
    && (e.offers.Some? ==> GoodDelivery(cfg, s.published, s.tips, e.offers.value))
    && (e.aborts ==> ShouldAbort(cfg, s.log))
  }

  lemma ActIsGood(cfg: Config, s: State, i: nat, action: Action)
    requires i < |s.workers| && CanAct(s.workers[i], action, true)
    requires GoodWorker(cfg, s.published, s.tips, i, s.workers[i])
    ensures GoodEffect(cfg, s, i, Act(cfg, i, s.workers[i], action, s.log))
    ensures !s.workers[i].Exited?
  {}

  ghost predicate WorkersOk(cfg: Config, s: State) {
    && s.wg == Live(s.workers)
    && forall i :: 0 <= i < |s.workers| ==> GoodWorker(cfg, s.published, s.tips, i, s.workers[i])
  }

  predicate Left(m: Main) {
    m.Leaving? || m.Draining? || m.Returned?
  }

  /** What is in the channel, after the receipt the main loop took, is what was placed. */
  predicate ChannelOk(s: State) {
    var queued := if s.channel.Some? then [s.channel.value] else [];
    s.placed == if Left(s.main) && s.main.r.Confirmed? then [s.main.r.delivery] + queued else queued
  }

  ghost predicate PlacedOk(cfg: Config, s: State) {
    forall k :: 0 <= k < |s.placed| ==> GoodDelivery(cfg, s.published, s.tips, s.placed[k])
  }

  ghost predicate CausesOk(cfg: Config, s: State) {
    && (s.main.Draining? || s.main.Returned? ==> s.cancelled)
    && (s.cancelled ==> s.gasFailed || s.abortedAt.Some? || s.main.Draining? || s.main.Returned?)
    && (Left(s.main) && s.main.r.ContextError? ==> s.parentDone || s.gasFailed || s.abortedAt.Some?)
    && (s.abortedAt.Some? ==> s.abortedAt.value <= |s.log| && ShouldAbort(cfg, s.log[..s.abortedAt.value]))
  }

  ghost predicate ChecksOk(s: State) {
    && |s.workers| == 1 + |s.checks| - (if s.main.Spawning? then 1 else 0)
    && forall k :: 0 <= k < |s.checks| ==> s.checks[k] <= |s.log| && MinedSet(s.log[..s.checks[k]]) == {}
  }

  ghost predicate Inv(cfg: Config, s: State) {
    && WorkersOk(cfg, s)
    && ChannelOk(s)
    && PlacedOk(cfg, s)
    && CausesOk(cfg, s)
    && ChecksOk(s)
    && (s.main.Returned? ==> s.wg == 0)
  }

  lemma InitInv(cfg: Config)
    ensures Inv(cfg, Init())
  {
    SumAppend([], IsLive, Pricing);
    assert [] + [Pricing] == [Pricing];
  }

  // A worker's step, whatever its effect, keeps each part of the invariant.

  lemma WorkKeepsWorkers(cfg: Config, s: State, i: nat, e: Effect)
    requires WorkersOk(cfg, s) && i < |s.workers| && !s.workers[i].Exited? && GoodEffect(cfg, s, i, e)
    ensures WorkersOk(cfg, Perform(s, i, e))
  {
    SumUpdate(s.workers, IsLive, i, e.next);
    var t := Perform(s, i, e);
    forall j | 0 <= j < |t.workers| ensures GoodWorker(cfg, t.published, t.tips, j, t.workers[j]) {
      assert GoodWorker(cfg, s.published, s.tips, j, s.workers[j]);
    }
  }

  lemma WorkKeepsPlaced(cfg: Config, s: State, i: nat, e: Effect)
    requires ChannelOk(s) && PlacedOk(cfg, s) && i < |s.workers| && GoodEffect(cfg, s, i, e)
    ensures ChannelOk(Perform(s, i, e)) && PlacedOk(cfg, Perform(s, i, e))
  {
    var t := Perform(s, i, e);
    forall k | 0 <= k < |t.placed| ensures GoodDelivery(cfg, t.published, t.tips, t.placed[k]) {
      if k < |s.placed| { assert GoodDelivery(cfg, s.published, s.tips, s.placed[k]); }
    }
  }

  lemma WorkKeepsHistory(cfg: Config, s: State, i: nat, e: Effect)
    requires CausesOk(cfg, s) && ChecksOk(s) && i < |s.workers| && GoodEffect(cfg, s, i, e)
    ensures CausesOk(cfg, Perform(s, i, e)) && ChecksOk(Perform(s, i, e))
  {
    var t := Perform(s, i, e);
    assert forall n :: 0 <= n <= |s.log| ==> t.log[..n] == s.log[..n];
    assert s.log[..|s.log|] == s.log;
  }

  lemma WorkKeepsInv(cfg: Config, s: State, i: nat, action: Action)
    requires Inv(cfg, s) && Enabled(s, Work(i, action))
    ensures Inv(cfg, Next(cfg, s, Work(i, action)))
  {
    var e := Act(cfg, i, s.workers[i], action, s.log);
    assert GoodWorker(cfg, s.published, s.tips, i, s.workers[i]);
    ActIsGood(cfg, s, i, action);
    EffectKeepsInv(cfg, s, i, e);
  }

  lemma EffectKeepsInv(cfg: Config, s: State, i: nat, e: Effect)
    requires Inv(cfg, s) && i < |s.workers| && !s.workers[i].Exited? && GoodEffect(cfg, s, i, e)
    ensures Inv(cfg, Perform(s, i, e))
  {
    WorkKeepsWorkers(cfg, s, i, e);
    WorkKeepsPlaced(cfg, s, i, e);
    WorkKeepsHistory(cfg, s, i, e);
    SumZero(s.workers, IsLive);
  }

  lemma MainKeepsWorkers(cfg: Config, s: State, step: Step)
    requires WorkersOk(cfg, s) && Enabled(s, step) && !step.Work?
    ensures WorkersOk(cfg, Next(cfg, s, step))
  {
    SumAppend(s.workers, IsLive, Pricing);
    var t := Next(cfg, s, step);
    forall j | 0 <= j < |t.workers| ensures GoodWorker(cfg, t.published, t.tips, j, t.workers[j]) {
      if j < |s.workers| { assert GoodWorker(cfg, s.published, s.tips, j, s.workers[j]); }
    }
  }

  lemma MainKeepsHistory(cfg: Config, s: State, step: Step)
    requires CausesOk(cfg, s) && ChecksOk(s) && Enabled(s, step) && !step.Work?
    ensures CausesOk(cfg, Next(cfg, s, step)) && ChecksOk(Next(cfg, s, step))
  {
    assert s.log[..|s.log|] == s.log;
  }

  lemma MainKeepsPlaced(cfg: Config, s: State, step: Step)
    requires ChannelOk(s) && PlacedOk(cfg, s) && Enabled(s, step) && !step.Work?
    ensures ChannelOk(Next(cfg, s, step)) && PlacedOk(cfg, Next(cfg, s, step))
  {}

  lemma MainKeepsInv(cfg: Config, s: State, step: Step)
    requires Inv(cfg, s) && Enabled(s, step) && !step.Work?
    ensures Inv(cfg, Next(cfg, s, step))
  {
    MainKeepsWorkers(cfg, s, step);
    MainKeepsPlaced(cfg, s, step);
    MainKeepsHistory(cfg, s, step);
  }

  lemma StepKeepsInv(cfg: Config, s: State, step: Step)
    requires Inv(cfg, s) && Enabled(s, step)
    ensures Inv(cfg, Next(cfg, s, step))
  {
    if step.Work? { WorkKeepsInv(cfg, s, step.i, step.action); } else { MainKeepsInv(cfg, s, step); }
  }

  lemma {:induction false} AlwaysInv(cfg: Config, steps: seq<Step>)
    ensures After(cfg, Init(), steps).Some? ==> Inv(cfg, After(cfg, Init(), steps).value)
  {
    if steps == [] {
      InitInv(cfg);
    } else {
      AlwaysInv(cfg, steps[..|steps| - 1]);
      var before, step := After(cfg, Init(), steps[..|steps| - 1]), steps[|steps| - 1];
      if before.Some? && Enabled(before.value, step) {
        StepKeepsInv(cfg, before.value, step);
      }
    }
  }

  // ---- what Send guarantees --------------------------------------------------

  /** A receipt taken by the main loop is the first one placed, and it is a good one. */
  lemma ReceivedIsGood(cfg: Config, s: State)
    requires ChannelOk(s) && PlacedOk(cfg, s)
    requires Left(s.main) && s.main.r.Confirmed?
    ensures |s.placed| > 0 && s.placed[0] == s.main.r.delivery
    ensures GoodDelivery(cfg, s.published, s.tips, s.main.r.delivery)
  {
    assert GoodDelivery(cfg, s.published, s.tips, s.placed[0]);
  }

  /** The receipt's block and the confirmations on top of it are at or below the tip. */
  predicate HasDepth(cfg: Config, receipt: Receipt, tip: uint64) {
    receipt.blockNumber + cfg.numConfirmations <= tip + 1
  }

  /** The 64-bit comparison accepts a receipt that is not confirmed exactly when the sum for the block
      wraps and the one for the tip does not; and it refuses a confirmed one exactly when the sum for
      the tip wraps and the one for the block, short of 2^64, does not. */
  lemma DepthExact(cfg: Config, receipt: Receipt, tip: uint64)
    ensures var sum := receipt.blockNumber + cfg.numConfirmations;
      && (IsDeep(cfg, receipt, tip) ==> (HasDepth(cfg, receipt, tip) <==> sum < TWO64 || tip + 1 == TWO64))
      && (!IsDeep(cfg, receipt, tip) ==> (!HasDepth(cfg, receipt, tip) <==> tip + 1 < TWO64 || sum > TWO64))
  {}

  /** Main result, over every schedule and every backend: a returned receipt is the first one placed
      in the channel, for a transaction its worker published, and accepted at a tip it observed, where
      it is confirmed exactly when its sum does not wrap (or the tip's does). */
  lemma ReturnedReceipt(cfg: Config, steps: seq<Step>, s: State)
    requires After(cfg, Init(), steps) == Some(s)
    requires Left(s.main) && s.main.r.Confirmed?
    ensures |s.placed| > 0 && s.placed[0] == s.main.r.delivery
    ensures var d := s.main.r.delivery;
      && (d.worker, d.tx) in s.published && d.tip in s.tips && IsDeep(cfg, d.receipt, d.tip)
      && (HasDepth(cfg, d.receipt, d.tip)
          <==> d.receipt.blockNumber + cfg.numConfirmations < TWO64 || d.tip + 1 == TWO64)
  {
    AlwaysInv(cfg, steps);
    ReceivedIsGood(cfg, s);
    DepthExact(cfg, s.main.r.delivery.receipt, s.main.r.delivery.tip);
  }

  /** One more step of a schedule. */
  lemma Extend(cfg: Config, steps: seq<Step>, s: State, step: Step) returns (more: seq<Step>, t: State)
    requires After(cfg, Init(), steps) == Some(s) && Enabled(s, step)
    ensures more == steps + [step] && t == Next(cfg, s, step)
    ensures After(cfg, Init(), more) == Some(t)
  {
    ScheduleLast(Try(cfg), Init(), steps, step);
    more, t := steps + [step], Next(cfg, s, step);
  }

  /** The first worker alone, at this point of its work. */
  predicate OneWorker(s: State, w: Worker) {
    s.main.Looping? && s.workers == [w] && s.wg == 1 && s.channel.None?
  }

  lemma FirstPublishes(cfg: Config) returns (steps: seq<Step>, s: State)
    ensures After(cfg, Init(), steps) == Some(s) && OneWorker(s, Querying(1)) && s.log == [Sent(Ok)]
  {
    steps, s := [], Init();
    steps, s := Extend(cfg, steps, s, Work(0, GasReplies(Priced(1))));
    steps, s := Extend(cfg, steps, s, Work(0, SendReplies(Ok)));
    steps, s := Extend(cfg, steps, s, Work(0, ProcessSend));
  }

  lemma FirstDelivers(cfg: Config, d: Delivery) returns (steps: seq<Step>, s: State)
    requires d.worker == 0 && d.tx == 1 && IsDeep(cfg, d.receipt, d.tip)
    ensures After(cfg, Init(), steps) == Some(s) && OneWorker(s, Delivering(d))
  {
    steps, s := FirstPublishes(cfg);
    steps, s := Extend(cfg, steps, s, Work(0, ReceiptReplies(Some(d.receipt))));
    steps, s := Extend(cfg, steps, s, Work(0, ReportMined));
    steps, s := Extend(cfg, steps, s, Work(0, TipReplies(d.tip)));
  }

  /** Whatever the comparison accepts, some schedule returns. */
  lemma AcceptedReturned(cfg: Config, d: Delivery) returns (steps: seq<Step>, s: State)
    requires d.worker == 0 && d.tx == 1 && IsDeep(cfg, d.receipt, d.tip)
    ensures After(cfg, Init(), steps) == Some(s) && s.main == Returned(Confirmed(d))
  {
    steps, s := FirstDelivers(cfg, d);
    steps, s := Extend(cfg, steps, s, Work(0, Deliver));
    steps, s := Extend(cfg, steps, s, Receive);
    steps, s := Extend(cfg, steps, s, Cancel);
    steps, s := Extend(cfg, steps, s, Return);
  }

  /** For every configuration: a backend that reports block 2^64 - numConfirmations and tip 0 makes Send
      return a receipt that is not deep enough. */
  lemma ShallowReturned(cfg: Config) returns (steps: seq<Step>, s: State)
    requires cfg.numConfirmations > 0
    ensures After(cfg, Init(), steps) == Some(s) && s.main.Returned? && s.main.r.Confirmed?
    ensures !HasDepth(cfg, s.main.r.delivery.receipt, s.main.r.delivery.tip)
  {
    var receipt := Receipt(TWO64 - cfg.numConfirmations);
    steps, s := AcceptedReturned(cfg, Delivery(0, 1, receipt, 0));
  }

  /** An error return has one of three causes: the parent context ended, a gas price could not be had,
      or the abort threshold was reached while no transaction was reported mined. */
  lemma ErrorHasCause(cfg: Config, steps: seq<Step>, s: State)
    requires After(cfg, Init(), steps) == Some(s)
    requires Left(s.main) && s.main.r.ContextError?
    ensures s.parentDone || s.gasFailed
      || exists k: nat :: k <= |s.log| && MinedSet(s.log[..k]) == {} && NonceCount(s.log[..k]) >= cfg.safeAbort
  {
    AlwaysInv(cfg, steps);
  }

  /** The wait group counts the live workers, none is left when Send returns, and every worker but the
      first was started after a check that saw no mined transaction. */
  lemma WorkersAccounted(cfg: Config, steps: seq<Step>, s: State)
    requires After(cfg, Init(), steps) == Some(s)
    ensures s.wg == Live(s.workers)
    ensures s.main.Returned? ==> forall i :: 0 <= i < |s.workers| ==> s.workers[i].Exited?
    ensures |s.workers| <= 1 + |s.checks|
    ensures forall k :: 0 <= k < |s.checks| ==> s.checks[k] <= |s.log| && MinedSet(s.log[..s.checks[k]]) == {}
  {
    AlwaysInv(cfg, steps);
    SumZero(s.workers, IsLive);
  }

  // ---- no worker is ever stuck -----------------------------------------------

  function Rank(w: Worker): nat {
    match w
    case Pricing => 1
    case Publishing(_) => 5
    case Publicized(_, _) => 4
    case Rejected(_) => 1
    case Querying(_) => 2
    case Found(_, _) => 3
    case NotFound(_) => 2
    case Measuring(_, _) => 2
    case Waiting(_) => 1
    case Delivering(_) => 1
    case Exited => 0
  }

  /** An action that brings a live worker closer to its exit once the context is done. */
  function ExitAction(w: Worker): Action
    requires !w.Exited?
  {
    match w
    case Pricing => GasReplies(PriceCanceled)
    case Publishing(_) => SendReplies(Failure(false, true))
    case Publicized(_, _) => ProcessSend
    case Rejected(_) => GiveUp
    case Querying(_) => ReceiptFails
    case Found(_, _) => ReportMined
    case NotFound(_) => ReportNotMined
    case Measuring(_, _) => TipFails
    case Waiting(_) => StopWaiting
    case Delivering(_) => Deliver
  }

  lemma ExitActionWorks(cfg: Config, i: nat, w: Worker, log: seq<SendEvent>)
    requires !w.Exited?
    ensures CanAct(w, ExitAction(w), true)
    ensures Rank(Act(cfg, i, w, ExitAction(w), log).next) < Rank(w)
  {}

  function TotalRank(workers: seq<Worker>): nat {
    Sum(workers, Rank)
  }

  /** No worker blocks: once the context is done, each has an enabled step that lowers its rank,
      whatever the channel holds. */
  lemma WorkerCanStep(cfg: Config, s: State, i: nat)
    requires Done(s) && i < |s.workers| && !s.workers[i].Exited?
    ensures Enabled(s, Work(i, ExitAction(s.workers[i])))
    ensures var t := Next(cfg, s, Work(i, ExitAction(s.workers[i])));
      Done(t) && t.main == s.main && TotalRank(t.workers) < TotalRank(s.workers)
  {
    var w := s.workers[i];
    ExitActionWorks(cfg, i, w, s.log);
    var e := Act(cfg, i, w, ExitAction(w), s.log);
    SumUpdate(s.workers, Rank, i, e.next);
    assert Next(cfg, s, Work(i, ExitAction(w))) == Perform(s, i, e);
  }

  /** Once the main loop waits for its workers, some schedule lets it return. */
  lemma {:induction false} DrainReturns(cfg: Config, s: State) returns (steps: seq<Step>)
    requires Inv(cfg, s) && s.main.Draining?
    ensures After(cfg, s, steps).Some? && After(cfg, s, steps).value.main == Returned(s.main.r)
    ensures |steps| <= TotalRank(s.workers) + 1
    decreases TotalRank(s.workers)
  {
    if i :| 0 <= i < |s.workers| && !s.workers[i].Exited? {
      var step := Work(i, ExitAction(s.workers[i]));
      WorkerCanStep(cfg, s, i);
      StepKeepsInv(cfg, s, step);
      var rest := DrainReturns(cfg, Next(cfg, s, step));
      ScheduleFirst(Try(cfg), s, step, rest);
      steps := [step] + rest;
    } else {
      SumZero(s.workers, IsLive);
      steps := [Return];
      ScheduleFirst(Try(cfg), s, Return, []);
      assert [Return] + [] == [Return];
    }
  }

  /** The main loop's own next step on its way out, when the context is done. */
  function OutStep(s: State): Step
    requires Done(s) && !s.main.Draining? && !s.main.Returned?
  {
    match s.main
    case Looping => LeaveOnContext
    case Ticked => Check
    case Spawning => Spawn
    case Leaving(_) => Cancel
  }

  function OutRank(m: Main): nat {
    match m
    case Spawning => 4
    case Ticked => 5
    case Looping => 3
    case Leaving(_) => 2
    case Draining(_) => 1
    case Returned(_) => 0
  }

  lemma OutStepWorks(cfg: Config, s: State)
    requires Done(s) && !s.main.Draining? && !s.main.Returned?
    ensures Enabled(s, OutStep(s)) && Done(Next(cfg, s, OutStep(s)))
    ensures OutRank(Next(cfg, s, OutStep(s)).main) < OutRank(s.main)
  {}

  lemma {:induction false} DoneReturns(cfg: Config, s: State) returns (steps: seq<Step>)
    requires Inv(cfg, s) && Done(s)
    ensures After(cfg, s, steps).Some? && After(cfg, s, steps).value.main.Returned?
    decreases OutRank(s.main)
  {
    if s.main.Returned? {
      steps := [];
    } else if s.main.Draining? {
      steps := DrainReturns(cfg, s);
    } else {
      OutStepWorks(cfg, s);
      StepKeepsInv(cfg, s, OutStep(s));
      var rest := DoneReturns(cfg, Next(cfg, s, OutStep(s)));
      ScheduleFirst(Try(cfg), s, OutStep(s), rest);
      steps := [OutStep(s)] + rest;
    }
  }

  /** Send can always return: every schedule that has ended the context, or reached the final wait, has
      a continuation in which Send returns. */
  lemma CanReturn(cfg: Config, before: seq<Step>) returns (steps: seq<Step>)
    requires After(cfg, Init(), before).Some?
    requires var s := After(cfg, Init(), before).value; Done(s) || s.main.Draining?
    ensures After(cfg, Init(), before + steps).Some?
    ensures After(cfg, Init(), before + steps).value.main.Returned?
  {
    AlwaysInv(cfg, before);
    steps := DoneReturns(cfg, After(cfg, Init(), before).value);
    ScheduleConcat(Try(cfg), Init(), before, steps);
  }
}
