/** txmgr/txmgr.go: what a run of Send did, read off the schedule alone: what the backend replied to each
    worker, and in which order the worker's code runs. */
module SendHistory {
  import opened Common
  import opened Bytes
  import opened SendStates
  import opened SendProtocol

  // ---- what the backend replied ----------------------------------------------

  /** A worker's last action, and the backend's last replies to it. */
  datatype Replies = Replies(last: Option<Action>, tx: Hash, sent: SendResult, receipt: Option<Receipt>, tip: uint64)

  function Heard(r: Replies, a: Action): Replies {
    var s := r.(last := Some(a));
    match a
    case GasReplies(Priced(tx)) => s.(tx := tx)
    case SendReplies(result) => s.(sent := result)
    case ReceiptReplies(receipt) => s.(receipt := receipt)
    case TipReplies(tip) => s.(tip := tip)
    case _ => s
  }

  function RepliesTo(steps: seq<Step>, i: nat): Replies {
    if steps == [] then Replies(None, 0, Ok, None, 0)
    else
      var before, step := RepliesTo(steps[..|steps| - 1], i), steps[|steps| - 1];
      if step.Work? && step.i == i then Heard(before, step.action) else before
  }

  /** What the shared state is told: each send result, and for each answered query whether it found a
      receipt of the transaction. */
  function Reports(steps: seq<Step>): seq<SendEvent> {
    if steps == [] then []
    else
      var init, step := steps[..|steps| - 1], steps[|steps| - 1];
      Reports(init)
      + if !step.Work? then []
        else
          var r := RepliesTo(init, step.i);
          match step.action
          case ProcessSend => [Sent(r.sent)]
          case ReportMined => [if r.receipt.Some? then Mined(r.tx) else NotMined(r.tx)]
          case ReportNotMined => [if r.receipt.Some? then Mined(r.tx) else NotMined(r.tx)]
          case _ => []
  }

  // ---- the order of a worker's code --------------------------------------------

  predicate IsQuery(a: Action) {
    a.ReceiptReplies? || a.ReceiptFails?
  }

  /** At the ticker: query again, or leave once the context is done. */
  predicate AtTicker(a: Action, done: bool) {
    a.QueryAgain? || (a.StopWaiting? && done)
  }

  /** Which action may come after the last one: the statements of sendTxAsync and waitMined in order. */
  predicate MayFollow(cfg: Config, r: Replies, a: Action, done: bool) {
    match r.last
    case None => a.GasReplies?
    case Some(GasReplies(Priced(_))) => a.SendReplies?
    case Some(SendReplies(_)) => a.ProcessSend?
    case Some(ProcessSend) => if r.sent.Ok? then IsQuery(a) else a.GiveUp?
    case Some(ReceiptReplies(_)) => if r.receipt.Some? then a.ReportMined? else a.ReportNotMined?
    case Some(ReceiptFails) => AtTicker(a, done)
    case Some(ReportMined) => a.TipReplies? || a.TipFails?
    case Some(ReportNotMined) => AtTicker(a, done)
    case Some(TipReplies(_)) =>
      if r.receipt.Some? && IsDeep(cfg, r.receipt.value, r.tip) then a.Deliver? else AtTicker(a, done)
    case Some(TipFails) => AtTicker(a, done)
    case Some(QueryAgain) => IsQuery(a)
    case _ => false
  }

  /** The steps that end the context from inside: a gas price that cannot be had, a failed send that is
      not a cancellation, at the abort threshold with nothing mined, and the return itself. */
  ghost predicate Ends(cfg: Config, init: seq<Step>, step: Step) {
    || step.Cancel?
    || (step.Work? && step.action == GasReplies(PriceFailed))
    || (step.Work? && step.action.GiveUp? && RepliesTo(init, step.i).sent.Failure?
        && !RepliesTo(init, step.i).sent.canceled
        && (forall h :: !LastReportedMined(Reports(init), h)) && NonceCount(Reports(init)) >= cfg.safeAbort)
  }

  ghost predicate Ended(cfg: Config, steps: seq<Step>) {
    steps != [] && (Ended(cfg, steps[..|steps| - 1]) || Ends(cfg, steps[..|steps| - 1], steps[|steps| - 1]))
  }

  // ---- the state a schedule leads to ---------------------------------------------

  /** Where a worker stands, by what it heard. */
  predicate Stands(cfg: Config, i: nat, r: Replies, w: Worker) {
    match r.last
    case None => w == Pricing
    case Some(GasReplies(Priced(_))) => w == Publishing(r.tx)
    case Some(SendReplies(_)) => w == Publicized(r.tx, r.sent)
    case Some(ProcessSend) => w == if r.sent.Ok? then Querying(r.tx) else Rejected(r.sent.canceled)
    case Some(ReceiptReplies(_)) => w == if r.receipt.Some? then Found(r.tx, r.receipt.value) else NotFound(r.tx)
    case Some(ReportMined) => r.receipt.Some? && w == Measuring(r.tx, r.receipt.value)
    case Some(TipReplies(_)) =>
      && r.receipt.Some?
      && w == if IsDeep(cfg, r.receipt.value, r.tip) then Delivering(Delivery(i, r.tx, r.receipt.value, r.tip))
              else Waiting(r.tx)
    case Some(QueryAgain) => w == Querying(r.tx)
    case Some(ReceiptFails) => w == Waiting(r.tx)
    case Some(ReportNotMined) => w == Waiting(r.tx)
    case Some(TipFails) => w == Waiting(r.tx)
    case _ => w == Exited
  }

  ghost predicate WorkersStand(cfg: Config, steps: seq<Step>, s: State) {
    && (forall i :: 0 <= i < |s.workers| ==> Stands(cfg, i, RepliesTo(steps, i), s.workers[i]))
    && (forall i :: i >= |s.workers| ==> RepliesTo(steps, i).last == None)
  }

  ghost predicate Follows(cfg: Config, steps: seq<Step>, s: State) {
    WorkersStand(cfg, steps, s) && s.log == Reports(steps) && (s.cancelled <==> Ended(cfg, steps))
  }

  lemma NothingMined(log: seq<SendEvent>)
    ensures MinedSet(log) == {} <==> forall h :: !LastReportedMined(log, h)
  {
    forall h
      ensures h in MinedSet(log) <==> LastReportedMined(log, h)
    {
      MinedSetMeaning(log, h);
    }
  }

  lemma RepliesAfter(steps: seq<Step>, step: Step, j: nat)
    ensures RepliesTo(steps + [step], j)
         == if step.Work? && step.i == j then Heard(RepliesTo(steps, j), step.action) else RepliesTo(steps, j)
  {
    assert (steps + [step])[..|steps|] == steps;
  }

  /** An action leads to where the worker then stands. */
  lemma ActStands(cfg: Config, i: nat, r: Replies, w: Worker, a: Action, log: seq<SendEvent>)
    requires Stands(cfg, i, r, w) && CanAct(w, a, true)
    ensures Stands(cfg, i, Heard(r, a), Act(cfg, i, w, a, log).next)
  {}

  lemma WorkersStep(cfg: Config, steps: seq<Step>, s: State, step: Step)
    requires WorkersStand(cfg, steps, s) && Enabled(s, step)
    ensures WorkersStand(cfg, steps + [step], Next(cfg, s, step))
  {
    var t := Next(cfg, s, step);
    forall j | 0 <= j < |t.workers|
      ensures Stands(cfg, j, RepliesTo(steps + [step], j), t.workers[j])
    {
      RepliesAfter(steps, step, j);
      if j < |s.workers| {
        assert Stands(cfg, j, RepliesTo(steps, j), s.workers[j]);
        if step.Work? && step.i == j { ActStands(cfg, j, RepliesTo(steps, j), s.workers[j], step.action, s.log); }
      } else {
        assert RepliesTo(steps, j).last == None;
      }
    }
    forall j | j >= |t.workers|
      ensures RepliesTo(steps + [step], j).last == None
    {
      RepliesAfter(steps, step, j);
    }
  }

  lemma LogStep(cfg: Config, steps: seq<Step>, s: State, step: Step)
    requires WorkersStand(cfg, steps, s) && s.log == Reports(steps) && Enabled(s, step)
    ensures Next(cfg, s, step).log == Reports(steps + [step])
  {
    assert (steps + [step])[..|steps|] == steps;
    if step.Work? { assert Stands(cfg, step.i, RepliesTo(steps, step.i), s.workers[step.i]); }
  }

  /** The actions whose effect ends the context. */
  lemma ActEnds(cfg: Config, i: nat, r: Replies, w: Worker, a: Action, log: seq<SendEvent>)
    requires Stands(cfg, i, r, w) && CanAct(w, a, true)
    ensures var e := Act(cfg, i, w, a, log);
      e.gasFails || e.aborts
      <==> a == GasReplies(PriceFailed) || (a.GiveUp? && r.sent.Failure? && !r.sent.canceled && ShouldAbort(cfg, log))
  {}

  lemma ContextStep(cfg: Config, steps: seq<Step>, s: State, step: Step)
    requires Follows(cfg, steps, s) && Enabled(s, step)
    ensures Next(cfg, s, step).cancelled <==> Ended(cfg, steps + [step])
  {
    assert (steps + [step])[..|steps|] == steps;
    NothingMined(s.log);
    if step.Work? {
      assert Stands(cfg, step.i, RepliesTo(steps, step.i), s.workers[step.i]);
      ActEnds(cfg, step.i, RepliesTo(steps, step.i), s.workers[step.i], step.action, s.log);
      assert Ends(cfg, steps, step) <==> (var e := Act(cfg, step.i, s.workers[step.i], step.action, s.log); e.gasFails || e.aborts);
    }
  }

  /** Every run follows its schedule. */
  lemma {:induction false} RunFollows(cfg: Config, steps: seq<Step>, s: State)
    requires After(cfg, Init(), steps) == Some(s)
    ensures Follows(cfg, steps, s)
  {
    if steps != [] {
      var init, step := steps[..|steps| - 1], steps[|steps| - 1];
      var before := After(cfg, Init(), init).value;
      RunFollows(cfg, init, before);
      assert steps == init + [step];
      WorkersStep(cfg, init, before, step);
      LogStep(cfg, init, before, step);
      ContextStep(cfg, init, before, step);
    }
  }

  // ---- what a run does -------------------------------------------------------------

  /** Over every schedule: the history of the shared state is what the backend replied. */
  lemma LogIsReports(cfg: Config, steps: seq<Step>, s: State)
    requires After(cfg, Init(), steps) == Some(s)
    ensures s.log == Reports(steps)
  {
    RunFollows(cfg, steps, s);
  }

  lemma StandProgram(cfg: Config, i: nat, r: Replies, w: Worker, a: Action, done: bool)
    requires Stands(cfg, i, r, w)
    ensures CanAct(w, a, done) <==> MayFollow(cfg, r, a, done)
  {}

  /** A worker can take exactly the actions that its code allows after its last one: so a found receipt is
      reported, and reported before anything else is done with it. */
  lemma WorkerProgram(cfg: Config, steps: seq<Step>, s: State, i: nat, a: Action)
    requires After(cfg, Init(), steps) == Some(s) && i < |s.workers|
    ensures Enabled(s, Work(i, a)) <==> MayFollow(cfg, RepliesTo(steps, i), a, Done(s))
  {
    RunFollows(cfg, steps, s);
    assert Stands(cfg, i, RepliesTo(steps, i), s.workers[i]);
    StandProgram(cfg, i, RepliesTo(steps, i), s.workers[i], a, Done(s));
  }

  /** The ticker starts another worker exactly when no transaction's last answered query found a receipt;
      otherwise the loop goes on. */
  lemma CheckOutcome(cfg: Config, steps: seq<Step>, s: State)
    requires After(cfg, Init(), steps) == Some(s) && Enabled(s, Check)
    ensures var t := Next(cfg, s, Check);
      if forall h :: !LastReportedMined(Reports(steps), h) then Enabled(t, Spawn) && !Enabled(t, Tick)
      else Enabled(t, Tick) && !Enabled(t, Spawn)
  {
    RunFollows(cfg, steps, s);
    NothingMined(s.log);
  }

  /** The context is ended from inside by exactly those steps. */
  lemma ContextEnds(cfg: Config, steps: seq<Step>, s: State)
    requires After(cfg, Init(), steps) == Some(s)
    ensures s.cancelled <==> Ended(cfg, steps)
  {
    RunFollows(cfg, steps, s);
  }

  /** A failed send that is not a cancellation ends the context exactly when no transaction's last answered
      query found a receipt and the nonce-too-low errors reached the threshold. */
  lemma GiveUpOutcome(cfg: Config, steps: seq<Step>, s: State, i: nat)
    requires After(cfg, Init(), steps) == Some(s) && Enabled(s, Work(i, GiveUp)) && !s.cancelled
    ensures RepliesTo(steps, i).sent.Failure?
    ensures Next(cfg, s, Work(i, GiveUp)).cancelled
       <==> !RepliesTo(steps, i).sent.canceled
            && (forall h :: !LastReportedMined(Reports(steps), h)) && NonceCount(Reports(steps)) >= cfg.safeAbort
  {
    RunFollows(cfg, steps, s);
    assert Stands(cfg, i, RepliesTo(steps, i), s.workers[i]);
    NothingMined(s.log);
  }

  /** A delivery hands over the receipt that the worker's last query found, for the transaction it
      published, at the last tip it heard; and the channel takes it exactly when it is empty. */
  lemma DeliverOutcome(cfg: Config, steps: seq<Step>, s: State, i: nat)
    requires After(cfg, Init(), steps) == Some(s) && Enabled(s, Work(i, Deliver))
    ensures var r, t := RepliesTo(steps, i), Next(cfg, s, Work(i, Deliver));
      && r.receipt.Some?
      && t.channel == if s.channel.Some? then s.channel else Some(Delivery(i, r.tx, r.receipt.value, r.tip))
  {
    RunFollows(cfg, steps, s);
    var r := RepliesTo(steps, i);
    assert Stands(cfg, i, r, s.workers[i]);
    StandDelivers(cfg, i, r, s.workers[i]);
  }

  lemma StandDelivers(cfg: Config, i: nat, r: Replies, w: Worker)
    requires Stands(cfg, i, r, w) && w.Delivering?
    ensures r.receipt.Some? && w.delivery == Delivery(i, r.tx, r.receipt.value, r.tip)
  {}

  /** The first worker's receipt has been reported: a ticker then starts nothing. */
  lemma NoResubmission(cfg: Config, receipt: Receipt) returns (steps: seq<Step>, s: State)
    ensures After(cfg, Init(), steps + [Tick, Check]) == Some(s) && s.main.Looping? && |s.workers| == 1
    ensures Reports(steps) == [Sent(Ok), Mined(1)]
  {
    steps, s := FirstPublishes(cfg);
    steps, s := Extend(cfg, steps, s, Work(0, ReceiptReplies(Some(receipt))));
    steps, s := Extend(cfg, steps, s, Work(0, ReportMined));
    LogIsReports(cfg, steps, s);
    MinedOne(s.log);
    s := TickThenCheck(cfg, steps, s);
  }

  lemma TickThenCheck(cfg: Config, steps: seq<Step>, s: State) returns (t: State)
    requires After(cfg, Init(), steps) == Some(s) && s.main.Looping? && MinedSet(s.log) != {}
    ensures After(cfg, Init(), steps + [Tick, Check]) == Some(t) && t == s
  {
    var more;
    more, t := Extend(cfg, steps, s, Tick);
    more, t := Extend(cfg, more, t, Check);
    assert more == steps + [Tick, Check];
  }

  lemma MinedOne(log: seq<SendEvent>)
    requires log == [Sent(Ok), Mined(1)]
    ensures MinedSet(log) == {1}
  {
    var init := log[..1];
    assert init == [Sent(Ok)] && init[..0] == [];
    assert MinedSet(init) == MinedSet(init[..0]);
    assert MinedSet(log) == MinedSet(init) + {1};
  }
}
