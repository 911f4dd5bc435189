/** txmgr/ethereum/transaction.go: what a run of the batch sender did with every request, in order. */
module BatchHistory {
  import opened Common
  import opened BatchSender

  function Reached(workerCount: nat, steps: seq<Step>): State
    requires After(workerCount, Init(), steps).Some?
  {
    After(workerCount, Init(), steps).value
  }

  predicate Runs(workerCount: nat, steps: seq<Step>) {
    After(workerCount, Init(), steps).Some?
  }

  lemma LastStep(workerCount: nat, steps: seq<Step>)
    requires Runs(workerCount, steps) && steps != []
    ensures var init, step := steps[..|steps| - 1], steps[|steps| - 1];
      && Runs(workerCount, init) && Enabled(Reached(workerCount, init), step)
      && Reached(workerCount, steps) == Next(workerCount, Reached(workerCount, init), step)
  {}

  // ---- the channels, in order ----------------------------------------------------

  /** The response that a step receives from the response channel, the request that it takes from or
      puts into the request channel, and the response that it puts in, if any. */
  function Receives(s: State, step: Step): seq<Request>
    requires Enabled(s, step)
  {
    if step.Consume? then [s.pool.responses[0]] else []
  }

  function Takes(s: State, step: Step): seq<Request>
    requires Enabled(s, step)
  {
    if step.Work? && step.action.Take? then [s.pool.queue[0]] else []
  }

  function Submits(s: State, step: Step): seq<Request>
    requires Enabled(s, step)
  {
    if step.Call? && s.callers[step.i].SubmitSend? && step.choice == Enqueue then [s.callers[step.i].req] else []
  }

  /** All that the steps of a run did of one kind, in order. */
  function Consumed(workerCount: nat, steps: seq<Step>): seq<Request>
    requires Runs(workerCount, steps)
  {
    if steps == [] then [] else
      LastStep(workerCount, steps);
      var init := steps[..|steps| - 1];
      Consumed(workerCount, init) + Receives(Reached(workerCount, init), steps[|steps| - 1])
  }

  function Taken(workerCount: nat, steps: seq<Step>): seq<Request>
    requires Runs(workerCount, steps)
  {
    if steps == [] then [] else
      LastStep(workerCount, steps);
      var init := steps[..|steps| - 1];
      Taken(workerCount, init) + Takes(Reached(workerCount, init), steps[|steps| - 1])
  }

  function Submissions(workerCount: nat, steps: seq<Step>): seq<Request>
    requires Runs(workerCount, steps)
  {
    if steps == [] then [] else
      LastStep(workerCount, steps);
      var init := steps[..|steps| - 1];
      Submissions(workerCount, init) + Submits(Reached(workerCount, init), steps[|steps| - 1])
  }

  lemma QueueStep(workerCount: nat, s: State, step: Step)
    requires Inv(s) && Enabled(s, step)
    ensures var p, q := s.pool, Next(workerCount, s, step).pool;
      && q.accepted == p.accepted + Submits(s, step)
      && p.queue + Submits(s, step) == Takes(s, step) + q.queue
  {
    if step.Call? { assert CallerKnows(s.flags, s.pool.wg, s.callers[step.i]); }
  }

  lemma ResponseStep(workerCount: nat, s: State, step: Step) returns (sent: seq<Request>)
    requires Enabled(s, step)
    ensures var p, q := s.pool, Next(workerCount, s, step).pool;
      && q.answered == p.answered + sent
      && p.responses + sent == Receives(s, step) + q.responses
  {
    var p, q := s.pool, Next(workerCount, s, step).pool;
    sent := q.answered[|p.answered|..];
  }

  lemma Shift(a: seq<Request>, b: seq<Request>, c: seq<Request>, d: seq<Request>, e: seq<Request>)
    requires b + c == d + e
    ensures (a + b) + c == (a + d) + e
  {
    assert (a + b) + c == a + (b + c);
    assert (a + d) + e == a + (d + e);
  }

  /** Both channels are first in, first out, and lose nothing: what was sent is what was received
      followed by what is buffered. */
  lemma {:induction false} ChannelsInOrder(workerCount: nat, steps: seq<Step>)
    requires Runs(workerCount, steps)
    ensures var p := Reached(workerCount, steps).pool;
      && p.accepted == Submissions(workerCount, steps) == Taken(workerCount, steps) + p.queue
      && p.answered == Consumed(workerCount, steps) + p.responses
  {
    if steps != [] {
      var init, step := steps[..|steps| - 1], steps[|steps| - 1];
      LastStep(workerCount, steps);
      ChannelsInOrder(workerCount, init);
      AlwaysInv(workerCount, init);
      var s, t := Reached(workerCount, init), Reached(workerCount, steps);
      QueueStep(workerCount, s, step);
      Shift(Taken(workerCount, init), s.pool.queue, Submits(s, step), Takes(s, step), t.pool.queue);
      var sent := ResponseStep(workerCount, s, step);
      Shift(Consumed(workerCount, init), s.pool.responses, sent, Receives(s, step), t.pool.responses);
    }
  }

  // ---- what happens to each request ----------------------------------------------

  /** A worker's last action, and the request it last took. */
  datatype Progress = Progress(last: Option<Action>, req: Request)

  function ProgressOf(workerCount: nat, steps: seq<Step>, i: nat): Progress
    requires Runs(workerCount, steps)
  {
    if steps == [] then Progress(None, Nil)
    else
      LastStep(workerCount, steps);
      var init, step := steps[..|steps| - 1], steps[|steps| - 1];
      var before := ProgressOf(workerCount, init, i);
      if !(step.Work? && step.i == i) then before
      else Progress(Some(step.action), if step.action.Take? then Reached(workerCount, init).pool.queue[0] else before.req)
  }

  /** Which action may come after the last one: the statements of the worker's loop in order. */
  predicate MayFollow(p: Progress, a: Action, f: Flags, pool: Pool) {
    match p.last
    case None => AtSelect(a, f, pool)
    case Some(Take) => p.req.Req? && a.Finish?
    case Some(Finish) => AtAnswer(a, f, pool)
    case Some(Answer) => AtSelect(a, f, pool)
    case Some(DropReply) => AtSelect(a, f, pool)
    case _ => false
  }

  /** Waiting for a request: the closed channel counts once it is empty. */
  predicate AtSelect(a: Action, f: Flags, pool: Pool) {
    match a
    case Take => pool.queue != []
    case TakeClosed => pool.queue == [] && f.requestsClosed
    case StopIdle => f.stopClosed
    case _ => false
  }

  /** Answering: an open channel takes the response exactly when it has room, and the default applies
      exactly when neither it nor the stop is ready. */
  predicate AtAnswer(a: Action, f: Flags, pool: Pool) {
    match a
    case Answer => |pool.responses| < 100
    case Abandon => f.stopClosed
    case DropReply => |pool.responses| >= 100 && !f.stopClosed
    case _ => false
  }

  predicate Stands(p: Progress, w: Worker) {
    match p.last
    case None => w == Idle
    case Some(Take) => w == if p.req.Nil? then Exited else Processing(p.req)
    case Some(Finish) => w == Replying(p.req)
    case Some(Answer) => w == Idle
    case Some(DropReply) => w == Idle
    case _ => w == Exited
  }

  ghost predicate WorkersStand(workerCount: nat, steps: seq<Step>)
    requires Runs(workerCount, steps)
  {
    var workers := Reached(workerCount, steps).pool.workers;
    && (forall i :: 0 <= i < |workers| ==> Stands(ProgressOf(workerCount, steps, i), workers[i]))
    && (forall i :: i >= |workers| ==> ProgressOf(workerCount, steps, i).last == None)
  }

  lemma {:induction false} RunStands(workerCount: nat, steps: seq<Step>)
    requires Runs(workerCount, steps)
    ensures WorkersStand(workerCount, steps)
  {
    if steps != [] {
      var init, step := steps[..|steps| - 1], steps[|steps| - 1];
      LastStep(workerCount, steps);
      RunStands(workerCount, init);
      AlwaysInv(workerCount, init);
      StepStands(workerCount, steps, Reached(workerCount, init), step);
    }
  }

  lemma StepStands(workerCount: nat, steps: seq<Step>, s: State, step: Step)
    requires Runs(workerCount, steps) && steps != [] && step == steps[|steps| - 1]
    requires Runs(workerCount, steps[..|steps| - 1]) && s == Reached(workerCount, steps[..|steps| - 1])
    requires Inv(s) && Enabled(s, step) && Reached(workerCount, steps) == Next(workerCount, s, step)
    requires WorkersStand(workerCount, steps[..|steps| - 1])
    ensures WorkersStand(workerCount, steps)
  {
    var init, workers := steps[..|steps| - 1], Reached(workerCount, steps).pool.workers;
    if step.Work? { LiveKeepsGroup(s.pool, step.i); }
    forall i | 0 <= i < |workers|
      ensures Stands(ProgressOf(workerCount, steps, i), workers[i])
    {
      if i < |s.pool.workers| { assert Stands(ProgressOf(workerCount, init, i), s.pool.workers[i]); }
      else { assert ProgressOf(workerCount, init, i).last == None; }
    }
    forall i | i >= |workers|
      ensures ProgressOf(workerCount, steps, i).last == None
    {
      assert ProgressOf(workerCount, init, i).last == None;
    }
  }

  /** A worker that is not gone keeps the wait group up. */
  lemma LiveKeepsGroup(p: Pool, i: nat)
    requires i < |p.workers| && p.wg == Live(p.workers) && !p.workers[i].Exited?
    ensures p.wg != 0
  {
    SumZero(p.workers, IsLive);
    assert IsLive(p.workers[i]) == 1;
  }

  /** A worker can take exactly the actions that its code allows after its last one. */
  lemma WorkerProgram(workerCount: nat, steps: seq<Step>, i: nat, a: Action)
    requires Runs(workerCount, steps) && i < |Reached(workerCount, steps).pool.workers|
    ensures var s := Reached(workerCount, steps);
      Enabled(s, Work(i, a)) <==> MayFollow(ProgressOf(workerCount, steps, i), a, s.flags, s.pool)
  {
    RunStands(workerCount, steps);
    AlwaysInv(workerCount, steps);
    var s := Reached(workerCount, steps);
    assert Stands(ProgressOf(workerCount, steps, i), s.pool.workers[i]);
    if !s.pool.workers[i].Exited? { LiveKeepsGroup(s.pool, i); }
  }

  /** What the three ways of answering do: the response goes into the channel, is dropped or is abandoned,
      each for the request that the worker last took. */
  lemma AnswerOutcome(workerCount: nat, steps: seq<Step>, i: nat, a: Action)
    requires Runs(workerCount, steps) && Enabled(Reached(workerCount, steps), Work(i, a))
    ensures var s, req := Reached(workerCount, steps), ProgressOf(workerCount, steps, i).req;
      var t := Next(workerCount, s, Work(i, a));
      && t.pool.responses == s.pool.responses + (if a.Answer? then [req] else [])
      && t.pool.answered == s.pool.answered + (if a.Answer? then [req] else [])
      && t.pool.dropped == s.pool.dropped + (if a.DropReply? then [req] else [])
      && t.pool.abandoned == s.pool.abandoned + (if a.Abandon? then [req] else [])
  {
    RunStands(workerCount, steps);
    AlwaysInv(workerCount, steps);
    var s := Reached(workerCount, steps);
    assert Stands(ProgressOf(workerCount, steps, i), s.pool.workers[i]);
    LiveKeepsGroup(s.pool, i);
  }

  /** In every state of the run the response channel has room. */
  ghost predicate NeverFull(workerCount: nat, steps: seq<Step>)
    requires Runs(workerCount, steps)
  {
    && |Reached(workerCount, steps).pool.responses| < 100
    && (steps != [] ==>
          (LastStep(workerCount, steps); NeverFull(workerCount, steps[..|steps| - 1])))
  }

  /** A response is dropped only for a full response channel. */
  lemma {:induction false} DroppedOnlyWhenFull(workerCount: nat, steps: seq<Step>)
    requires Runs(workerCount, steps) && NeverFull(workerCount, steps)
    ensures Reached(workerCount, steps).pool.dropped == []
  {
    if steps != [] {
      LastStep(workerCount, steps);
      DroppedOnlyWhenFull(workerCount, steps[..|steps| - 1]);
      OnlyDropReplyDrops(workerCount, Reached(workerCount, steps[..|steps| - 1]), steps[|steps| - 1]);
    }
  }

  lemma OnlyDropReplyDrops(workerCount: nat, s: State, step: Step)
    requires Enabled(s, step) && |s.pool.responses| < 100
    ensures Next(workerCount, s, step).pool.dropped == s.pool.dropped
  {}

  /** And abandoned only at a stop. */
  lemma {:induction false} AbandonedOnlyAtStop(workerCount: nat, steps: seq<Step>)
    requires Runs(workerCount, steps) && !Reached(workerCount, steps).flags.stopClosed
    ensures Reached(workerCount, steps).pool.abandoned == []
  {
    if steps != [] {
      LastStep(workerCount, steps);
      StopStays(workerCount, Reached(workerCount, steps[..|steps| - 1]), steps[|steps| - 1]);
      AbandonedOnlyAtStop(workerCount, steps[..|steps| - 1]);
    }
  }

  lemma StopStays(workerCount: nat, s: State, step: Step)
    requires Enabled(s, step) && !Next(workerCount, s, step).flags.stopClosed
    ensures !s.flags.stopClosed && Next(workerCount, s, step).pool.abandoned == s.pool.abandoned
  {}

  // ---- the callers -----------------------------------------------------------------

  /** What a submitter's select does: it queues the request exactly when the queue has room, and else falls
      through; the stop is never ready there, as a stop needs the lock that the submitter holds. */
  lemma SubmitOutcome(workerCount: nat, steps: seq<Step>, i: nat, req: Request, choice: Choice)
    requires Runs(workerCount, steps) && i < |Reached(workerCount, steps).callers|
    requires Reached(workerCount, steps).callers[i] == SubmitSend(req)
    ensures var s := Reached(workerCount, steps);
      && (Enabled(s, Call(i, choice))
          <==> if |s.pool.queue| < 100 then choice == Enqueue else choice == DropFull)
      && (Enabled(s, Call(i, choice)) ==>
            Next(workerCount, s, Call(i, choice)).pool.queue
            == s.pool.queue + if |s.pool.queue| < 100 then [req] else [])
  {
    AlwaysInv(workerCount, steps);
    var s := Reached(workerCount, steps);
    assert CallerKnows(s.flags, s.pool.wg, s.callers[i]);
  }

  /** The workers that Starts still have to start. */
  function ToStart(c: Caller): nat {
    if c.StartSpawn? then c.left else 0
  }

  function StillToStart(callers: seq<Caller>): nat {
    Sum(callers, ToStart)
  }

  /** The calls in the order of their arrival; a caller's number is its place here. */
  function Arrivals(steps: seq<Step>): seq<Step> {
    if steps == [] then []
    else Arrivals(steps[..|steps| - 1]) + if Arrives(steps[|steps| - 1]) then [steps[|steps| - 1]] else []
  }

  /** How far a call of each kind has come, and what that means for the flags. */
  predicate CallStands(call: Step, c: Caller, f: Flags) {
    match call
    case CallStart =>
      && (c.StartLock? || c.StartHold? || c.StartSpawn? || c.StartRelease? || c.Finished?)
      && (c.StartSpawn? || c.StartRelease? || c.Finished? ==> f.isStarted || f.isStopped)
    case CallStop =>
      && (InOnce(c) || c.StopOnce? || c.Finished?)
      && (c.Finished? ==> f.isStopped && f.stopClosed && f.requestsClosed && f.responsesClosed)
    case CallSubmit(req) =>
      && (c.SubmitLock? || c.SubmitHold? || c.SubmitSend? || c.SubmitRelease? || c.Finished?)
      && (c.SubmitLock? || c.SubmitHold? || c.SubmitSend? ==> c.req == req)
    case _ => false
  }

  ghost predicate CallersStand(calls: seq<Step>, s: State, workerCount: nat) {
    && |s.callers| == |calls|
    && (forall i :: 0 <= i < |s.callers| ==> CallStands(calls[i], s.callers[i], s.flags))
    && |s.pool.workers| + StillToStart(s.callers) == (if s.flags.isStarted then workerCount else 0)
    && OneSpawns(calls, s.callers)
  }

  /** While one Start starts workers, no other has come that far. */
  ghost predicate OneSpawns(calls: seq<Step>, callers: seq<Caller>)
    requires |calls| == |callers|
  {
    forall i, k :: 0 <= i < |callers| && 0 <= k < |callers| && i != k && callers[k].StartSpawn? && calls[i].CallStart? ==>
      callers[i].StartLock? || callers[i].StartHold?
  }

  lemma SpawnsAlone(workerCount: nat, calls: seq<Step>, s: State, i: nat, choice: Choice)
    requires Inv(s) && |calls| == |s.callers| && OneSpawns(calls, s.callers)
    requires forall j :: 0 <= j < |calls| ==> CallStands(calls[j], s.callers[j], s.flags)
    requires i < |s.callers| && CanProceed(s, s.callers[i], choice)
    ensures OneSpawns(calls, Next(workerCount, s, Call(i, choice)).callers)
  {
    var callers := Next(workerCount, s, Call(i, choice)).callers;
    forall j, k | 0 <= j < |callers| && 0 <= k < |callers| && j != k && callers[k].StartSpawn? && calls[j].CallStart?
      ensures callers[j].StartLock? || callers[j].StartHold?
    {
      assert CallerHolds(s.locks, j, s.callers[j]) && CallerHolds(s.locks, k, s.callers[k]);
      assert CallStands(calls[j], s.callers[j], s.flags) && CallerKnows(s.flags, s.pool.wg, s.callers[k]);
    }
  }

  lemma {:induction false} NothingToStart(callers: seq<Caller>)
    requires forall i :: 0 <= i < |callers| ==> !callers[i].StartSpawn?
    ensures StillToStart(callers) == 0
  {
    SumZero(callers, ToStart);
    assert forall i :: 0 <= i < |callers| ==> ToStart(callers[i]) == 0;
  }

  lemma CallKeepsStand(workerCount: nat, calls: seq<Step>, s: State, i: nat, choice: Choice)
    requires Inv(s) && CallersStand(calls, s, workerCount) && i < |s.callers| && CanProceed(s, s.callers[i], choice)
    ensures CallersStand(calls, Next(workerCount, s, Call(i, choice)), workerCount)
  {
    var t := Next(workerCount, s, Call(i, choice));
    CallAdvances(workerCount, s, i, choice, calls[i]);
    CallSums(workerCount, s, i, choice);
    FlagsGrow(workerCount, s, Call(i, choice));
    SpawnsAlone(workerCount, calls, s, i, choice);
    forall j | 0 <= j < |t.callers|
      ensures CallStands(calls[j], t.callers[j], t.flags)
    {
      assert CallStands(calls[j], s.callers[j], s.flags);
    }
  }

  lemma ArrivalKeepsStand(workerCount: nat, calls: seq<Step>, s: State, step: Step)
    requires CallersStand(calls, s, workerCount) && Enabled(s, step) && Arrives(step)
    ensures CallersStand(calls + [step], Next(workerCount, s, step), workerCount)
  {
    var t := Next(workerCount, s, step);
    SumAppend(s.callers, ToStart, t.callers[|s.callers|]);
    forall j | 0 <= j < |t.callers|
      ensures CallStands((calls + [step])[j], t.callers[j], t.flags)
    {
      if j < |s.callers| { assert CallStands(calls[j], s.callers[j], s.flags); }
    }
  }

  lemma OtherKeepsStand(workerCount: nat, calls: seq<Step>, s: State, step: Step)
    requires CallersStand(calls, s, workerCount) && Enabled(s, step) && !Arrives(step) && !step.Call?
    ensures CallersStand(calls, Next(workerCount, s, step), workerCount)
  {}

  lemma {:induction false} RunCallers(workerCount: nat, steps: seq<Step>)
    requires Runs(workerCount, steps)
    ensures CallersStand(Arrivals(steps), Reached(workerCount, steps), workerCount)
  {
    if steps != [] {
      var init, step := steps[..|steps| - 1], steps[|steps| - 1];
      LastStep(workerCount, steps);
      RunCallers(workerCount, init);
      AlwaysInv(workerCount, init);
      var s := Reached(workerCount, init);
      if step.Call? {
        CallKeepsStand(workerCount, Arrivals(init), s, step.i, step.choice);
      } else if Arrives(step) {
        ArrivalKeepsStand(workerCount, Arrivals(init), s, step);
      } else {
        OtherKeepsStand(workerCount, Arrivals(init), s, step);
      }
    }
  }

  lemma CallAdvances(workerCount: nat, s: State, i: nat, choice: Choice, call: Step)
    requires Inv(s) && i < |s.callers| && CanProceed(s, s.callers[i], choice) && CallStands(call, s.callers[i], s.flags)
    ensures var e := Proceed(workerCount, s.locks.once, s.flags, s.pool, s.callers[i], choice);
      CallStands(call, e.next, e.flags)
  {
    assert CallerKnows(s.flags, s.pool.wg, s.callers[i]);
  }

  lemma CallSums(workerCount: nat, s: State, i: nat, choice: Choice)
    requires i < |s.callers| && CanProceed(s, s.callers[i], choice)
    requires s.callers[i].StartHold? && !s.flags.isStarted ==> |s.pool.workers| + StillToStart(s.callers) == 0
    ensures var e := Proceed(workerCount, s.locks.once, s.flags, s.pool, s.callers[i], choice);
      |e.pool.workers| + StillToStart(s.callers[i := e.next])
      == if e.flags.isStarted && !s.flags.isStarted then workerCount
         else |s.pool.workers| + StillToStart(s.callers)
  {
    SumUpdate(s.callers, ToStart, i, Proceed(workerCount, s.locks.once, s.flags, s.pool, s.callers[i], choice).next);
  }

  /** No flag is ever taken back. */
  lemma FlagsGrow(workerCount: nat, s: State, step: Step)
    requires Enabled(s, step)
    ensures var f, g := s.flags, Next(workerCount, s, step).flags;
      && (f.isStarted ==> g.isStarted) && (f.isStopped ==> g.isStopped) && (f.stopClosed ==> g.stopClosed)
      && (f.requestsClosed ==> g.requestsClosed) && (f.responsesClosed ==> g.responsesClosed)
  {}

  /** However many Starts there are, a finished one has started exactly workerCount workers, unless a stop
      came first; and without a Start there is none. */
  lemma StartedExactly(workerCount: nat, steps: seq<Step>, i: nat)
    requires Runs(workerCount, steps) && i < |Arrivals(steps)| && Arrivals(steps)[i].CallStart?
    ensures i < |Reached(workerCount, steps).callers|
    ensures var s := Reached(workerCount, steps);
      s.callers[i].Finished? ==>
        if s.flags.isStarted then |s.pool.workers| == workerCount
        else s.flags.isStopped && s.pool.workers == []
  {
    RunCallers(workerCount, steps);
    if Reached(workerCount, steps).callers[i].Finished? { NothingToStart(Reached(workerCount, steps).callers); }
    assert CallStands(Arrivals(steps)[i], Reached(workerCount, steps).callers[i], Reached(workerCount, steps).flags);
  }

  /** A finished Stop has closed everything and left no worker. */
  lemma StoppedCompletely(workerCount: nat, steps: seq<Step>, i: nat)
    requires Runs(workerCount, steps) && i < |Arrivals(steps)| && Arrivals(steps)[i].CallStop?
    ensures i < |Reached(workerCount, steps).callers|
    ensures var s := Reached(workerCount, steps);
      s.callers[i].Finished? ==>
        && s.flags.isStopped && s.flags.stopClosed && s.flags.requestsClosed && s.flags.responsesClosed
        && forall j :: 0 <= j < |s.pool.workers| ==> s.pool.workers[j].Exited?
  {
    RunCallers(workerCount, steps);
    NoSendOnClosed(workerCount, steps, Reached(workerCount, steps));
    assert CallStands(Arrivals(steps)[i], Reached(workerCount, steps).callers[i], Reached(workerCount, steps).flags);
  }
}
