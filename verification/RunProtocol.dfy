/** The closing protocol of `AbstractExecutor.run`: the polling loop, the task it
    owns and the cancel flag, as steps that interleave at the task's awaits. */
module RunProtocol {
  import opened Text
  import opened Executor

  /** What can end an attempt: an exception queue_job retries, a person's stop
      (`JobCancelled`), or any other exception. */
  datatype Exc = Retry | Stop | Fault

  datatype Hook = OnSuccess | OnFailure | OnAbort | OnCancelled

  /** Where the task that runs `_async_entry` is suspended. */
  datatype Task =
    | Opening                       // the transport is being opened
    | Preparing                     // before_execute, get_commands, the upload
    | Stepping                      // a step runs on the host
    | Judging(skipped: bool)        // parse_results
    | AfterCommands                 // after_commands, before on_success
    | InHook(hook: Hook)            // on_success or on_failure
    | Leaving(pending: Option<Exc>) // the staging discarded, the transport closed
    | InAbort(exc: Exc)             // on_abort
    | Unwinding                     // a cancellation on its way out, through the same teardown
    | Done(outcome: Option<Exc>)
    | Cancelled

  /** The loop: polling, waiting for the task it cancelled, closing a stop, or over. */
  datatype Loop = Polling | Stopping | InCancel | Ended(result: Option<Exc>)

  datatype Config = Config(steps: seq<Step>, handlesAbort: bool)

  datatype State = State(
    task: Task, loop: Loop, stopAsked: bool, outcomeStarted: bool, outcomeDispatched: bool,
    stepResults: Option<seq<int>>, started: seq<Hook>, returned: seq<Hook>, raised: nat, torn: bool)

  const INIT := State(Opening, Polling, false, false, false, None, [], [], 0, false)

  datatype Event =
    | AskStop             // cancel_job sets the flag
    | Opened
    | Prepared
    | StepExit(status: int)
    | Judged(errors: bool)
    | AfterDone
    | Raises(exc: Exc)    // whatever the task awaits raises
    | HookReturns         // the hook the task awaits returns
    | Left                // the teardown ends
    | Poll                // the loop reads the flag
    | Collect             // the loop finds the task done
    | CancelReturns
    | CancelRaises

  /** `except Exception` in `_async_entry`: the exception ends the attempt, and
      `on_abort` closes it when nothing else did and nothing will run it again. */
  function Caught(c: Config, s: State, e: Exc): State {
    if e == Fault && !s.outcomeDispatched then
      if c.handlesAbort then
        s.(outcomeStarted := true, started := s.started + [OnAbort], task := InAbort(e))
      else
        s.(started := s.started + [OnAbort], returned := s.returned + [OnAbort], task := Done(Some(e)))
    else s.(task := Done(Some(e)))
  }

  function StartHook(s: State, hook: Hook): State {
    s.(outcomeStarted := true, started := s.started + [hook], task := InHook(hook))
  }

  /** What follows a step: the next one, or the outcome of those that ran. */
  function AfterStep(c: Config, s: State, ran: seq<int>): State {
    var s := s.(stepResults := Some(ran));
    if |ran| >= |c.steps| then s.(task := Judging(false))
    else if ran != [] && Stops(c.steps[|ran| - 1], ran[|ran| - 1]) then s.(task := Judging(true))
    else s.(task := Stepping)
  }

  /** Up to the outcome: the transport, the steps, and what judges them. */
  function StepMove(c: Config, s: State, e: Event): Option<State> {
    if e.Raises? then
      Some(if s.task.Opening? then Caught(c, s, e.exc) else s.(task := Leaving(Some(e.exc))))
    else
      match s.task
      case Opening => if e.Opened? then Some(s.(task := Preparing)) else None
      case Preparing => if e.Prepared? then Some(AfterStep(c, s, [])) else None
      case Stepping =>
        if e.StepExit? && s.stepResults.Some? then Some(AfterStep(c, s, s.stepResults.value + [e.status])) else None
      case Judging(skipped) =>
        if !e.Judged? then None
        else if e.errors || skipped then Some(StartHook(s, OnFailure))
        else Some(s.(task := AfterCommands))
      case AfterCommands => if e.AfterDone? then Some(StartHook(s, OnSuccess)) else None
      case _ => None
  }

  /** In a closing hook. A failed outcome is raised once its hook returned;
      what `on_abort` raises is logged, and the attempt's exception goes on. */
  function HookMove(s: State, e: Event): Option<State> {
    match s.task
    case InHook(hook) =>
      if e.HookReturns? then
        Some(s.(outcomeDispatched := true, returned := s.returned + [hook],
                task := Leaving(if hook == OnFailure then Some(Fault) else None)))
      else if e.Raises? then Some(s.(raised := s.raised + 1, task := Leaving(Some(e.exc))))
      else None
    case InAbort(exc) =>
      if e.HookReturns? then Some(s.(returned := s.returned + [OnAbort], task := Done(Some(exc))))
      else if e.Raises? then Some(s.(raised := s.raised + 1, task := Done(Some(exc))))
      else None
    case _ => None
  }

  /** In the teardown, of a run that ends or of one that was stopped. An
      exception of its own takes the place of what was on its way out. */
  function LeaveMove(c: Config, s: State, e: Event): Option<State> {
    match s.task
    case Leaving(pending) =>
      if e.Left? then Some(if pending.Some? then Caught(c, s, pending.value) else s.(task := Done(None)))
      else if e.Raises? then Some(Caught(c, s, e.exc))
      else None
    case Unwinding =>
      if e.Left? then Some(s.(task := Cancelled))
      else if e.Raises? then Some(Caught(c, s.(torn := e.exc == Fault), e.exc))
      else None
    case _ => None
  }

  /** The task's own move on an event, if the event is one of its own. */
  function TaskMove(c: Config, s: State, e: Event): Option<State> {
    match s.task
    case InHook(_) => HookMove(s, e)
    case InAbort(_) => HookMove(s, e)
    case Leaving(_) => LeaveMove(c, s, e)
    case Unwinding => LeaveMove(c, s, e)
    case Done(_) => None
    case Cancelled => None
    case _ => StepMove(c, s, e)
  }

  predicate TaskOver(s: State) {
    s.task.Done? || s.task.Cancelled?
  }

  /** `_dispatch_cancel`, unless an outcome hook returned. */
  function CloseStop(s: State): State {
    if s.outcomeDispatched then s.(loop := Ended(Some(Stop)))
    else s.(loop := InCancel, started := s.started + [OnCancelled])
  }

  function LoopMove(s: State, e: Event): Option<State> {
    match (s.loop, e)
    case (Polling, AskStop) => Some(s.(stopAsked := true))
    case (Polling, Poll) =>
      if TaskOver(s) then None
      else if s.stopAsked && !s.outcomeStarted then Some(s.(loop := Stopping, task := Unwinding)) else Some(s)
    case (Polling, Collect) =>
      if !s.task.Done? then None
      else if s.task.outcome == Some(Stop) then Some(CloseStop(s))
      else Some(s.(loop := Ended(s.task.outcome)))
    case (Stopping, Collect) => if TaskOver(s) then Some(CloseStop(s)) else None
    case (InCancel, CancelReturns) => Some(s.(returned := s.returned + [OnCancelled], loop := Ended(Some(Stop))))
    case (InCancel, CancelRaises) => Some(s.(raised := s.raised + 1, loop := Ended(Some(Stop))))
    case _ => None
  }

  /** The state after an event; none when it cannot happen there. */
  function Next(c: Config, s: State, e: Event): Option<State> {
    var moved := LoopMove(s, e);
    if moved.Some? then moved
    else if s.loop.Polling? || s.loop.Stopping? then TaskMove(c, s, e)
    else None
  }

  function RunFrom(c: Config, s: State, events: seq<Event>): Option<State>
    decreases events
  {
    if events == [] then Some(s)
    else if Next(c, s, events[0]).None? then None
    else RunFrom(c, Next(c, s, events[0]).value, events[1..])
  }

  function Run(c: Config, events: seq<Event>): Option<State> {
    RunFrom(c, INIT, events)
  }

  /* ---- What every interleaving keeps ---- */

  /** The hooks that run at this moment. */
  function Live(s: State): nat {
    if s.task.InHook? || s.task.InAbort? || s.loop.InCancel? then 1 else 0
  }

  function One(b: bool): nat {
    if b then 1 else 0
  }

  /** No hook is cut off: each one started returned, raised, or is running. */
  predicate Conserved(s: State) {
    |s.started| == |s.returned| + s.raised + Live(s)
  }

  predicate DispatchedIsReturned(s: State) {
    s.outcomeDispatched <==> OnSuccess in s.returned || OnFailure in s.returned
  }

  /** How many hooks returned, where the run is. */
  predicate Counted(s: State) {
    var n := |s.returned|;
    && (s.outcomeDispatched ==> s.outcomeStarted)
    && match s.loop
       case Polling =>
         && !s.torn
         && (match s.task
             case Opening => n == 0 && s.raised == 0 && !s.outcomeStarted
             case Preparing => n == 0 && s.raised == 0 && !s.outcomeStarted
             case Stepping => n == 0 && s.raised == 0 && !s.outcomeStarted
             case Judging(_) => n == 0 && s.raised == 0 && !s.outcomeStarted
             case AfterCommands => n == 0 && s.raised == 0 && !s.outcomeStarted
             case InHook(hook) => n == 0 && s.outcomeStarted && hook in {OnSuccess, OnFailure}
             case Leaving(pending) =>
               && n == One(s.outcomeDispatched) && (pending.None? ==> s.outcomeDispatched && OnSuccess in s.returned)
               && (s.outcomeStarted <==> n == 1 || s.raised > 0)
             case InAbort(exc) => n == 0 && s.outcomeStarted && exc == Fault
             case Unwinding => false
             case Cancelled => false
             case Done(outcome) =>
               && n <= 1
               && (outcome == None ==> n == 1 && OnSuccess in s.returned)
               && (outcome == Some(Fault) && s.raised == 0 ==> n == 1)
               && (outcome == Some(Retry) || outcome == Some(Stop) ==> n == One(s.outcomeDispatched)))
       case Stopping =>
         && !s.outcomeDispatched
         && (match s.task
             case Unwinding => n == 0 && s.raised == 0 && !s.torn
             case Cancelled => n == 0 && s.raised == 0 && !s.torn
             case InAbort(exc) => n == 0 && s.raised == 0 && s.torn
             case Done(_) => n <= One(s.torn) && (s.raised == 0 ==> n == One(s.torn))
             case _ => false)
       case InCancel =>
         && TaskOver(s) && !s.outcomeDispatched && n <= One(s.torn) && (s.raised == 0 ==> n == One(s.torn))
       case Ended(result) =>
         && TaskOver(s)
         && n <= 1 + One(s.torn)
         && (result == None ==> n == 1 && OnSuccess in s.returned)
         && (s.raised == 0 ==>
               (result == None || result == Some(Fault) ==> n == 1) &&
               (result == Some(Retry) ==> n == One(s.outcomeDispatched)) &&
               (result == Some(Stop) ==> n == 1 + One(s.torn)))
         && (result != Some(Stop) ==> !s.torn)
  }

  /** The steps that ran: none but the last stopped the run. */
  predicate RanTo(c: Config, s: State, all: bool) {
    && s.stepResults.Some?
    && var ran := s.stepResults.value;
       && |ran| <= |c.steps|
       && (all ==> |ran| == |c.steps|)
       && forall i :: 0 <= i < |ran| - 1 ==> !Stops(c.steps[i], ran[i])
  }

  predicate Stepped(c: Config, s: State) {
    && (s.task == Stepping ==>
          RanTo(c, s, false) && |s.stepResults.value| < |c.steps| &&
          forall i :: 0 <= i < |s.stepResults.value| ==> !Stops(c.steps[i], s.stepResults.value[i]))
    && (s.task.Judging? ==> RanTo(c, s, !s.task.skipped))
    && (s.task == AfterCommands ==> RanTo(c, s, true))
    && (OnSuccess in s.started ==> RanTo(c, s, true))
    && (OnCancelled in s.started ==> s.loop.InCancel? || s.loop == Ended(Some(Stop)))
    && (OnFailure in s.started ==> s.stepResults.Some?)
  }


  predicate Kept(c: Config, s: State) {
    Conserved(s) && DispatchedIsReturned(s) && Counted(s) && Stepped(c, s)
  }

  lemma InitKept(c: Config)
    ensures Kept(c, INIT)
  {
  }

  lemma CaughtKeeps(c: Config, s: State, e: Exc)
    requires Kept(c, s.(torn := false)) && (s.loop.Polling? || s.loop.Stopping?)
    requires s.torn ==> s.loop.Stopping? && e == Fault
    requires s.loop.Polling? ==> s.task in {Opening, Leaving(None)} || s.task.Leaving?
    requires s.loop.Polling? && s.task.Leaving? && s.task.pending.None? ==> s.outcomeDispatched
    requires s.loop.Stopping? ==> s.task == Unwinding && s.torn == (e == Fault)
    requires s.loop.Polling? ==> !s.torn
    ensures Kept(c, Caught(c, s, e))
  {
  }

  lemma StepMoveKeeps(c: Config, s: State, e: Event)
    requires Kept(c, s) && s.loop.Polling? && StepMove(c, s, e).Some?
    requires s.task in {Opening, Preparing, Stepping, AfterCommands} || s.task.Judging?
    ensures Kept(c, StepMove(c, s, e).value)
  {
    hide Stops, Caught, StepMove, AfterStep;
    assert s.started == [] && s.returned == [];
    StepMoveIs(c, s, e);
    if e.Raises? && s.task.Opening? {
      CaughtKeeps(c, s, e.exc);
    } else if s.task.Preparing? && e.Prepared? {
      AfterStepKeeps(c, s, []);
    } else if s.task.Stepping? && e.StepExit? {
      AfterStepKeeps(c, s, s.stepResults.value + [e.status]);
    }
  }

  lemma StepMoveIs(c: Config, s: State, e: Event)
    requires StepMove(c, s, e).Some?
    ensures var next := StepMove(c, s, e).value;
            if e.Raises? && s.task.Opening? then next == Caught(c, s, e.exc)
            else if s.task.Preparing? && e.Prepared? then next == AfterStep(c, s, [])
            else if s.task.Stepping? && e.StepExit? then
              s.stepResults.Some? && next == AfterStep(c, s, s.stepResults.value + [e.status])
            else if e.Raises? then next == s.(task := Leaving(Some(e.exc)))
            else if s.task.Opening? then next == s.(task := Preparing)
            else if s.task.AfterCommands? then next == StartHook(s, OnSuccess)
            else s.task.Judging? && e.Judged? &&
                 (next == StartHook(s, OnFailure) || (!s.task.skipped && next == s.(task := AfterCommands)))
  {
    hide Caught, AfterStep, StartHook;
  }

  lemma AfterStepKeeps(c: Config, s: State, ran: seq<int>)
    requires Kept(c, s) && s.loop.Polling? && s.started == [] && s.returned == []
    requires s.task in {Preparing, Stepping}
    requires |ran| <= |c.steps| && forall i :: 0 <= i < |ran| - 1 ==> !Stops(c.steps[i], ran[i])
    ensures Kept(c, AfterStep(c, s, ran))
  {
    hide Stops;
  }

  lemma HookMoveKeeps(c: Config, s: State, e: Event)
    requires Kept(c, s) && (s.loop.Polling? || s.loop.Stopping?) && HookMove(s, e).Some?
    ensures Kept(c, HookMove(s, e).value)
  {
    hide Stops;
  }

  lemma LeaveMoveKeeps(c: Config, s: State, e: Event)
    requires Kept(c, s) && (s.loop.Polling? || s.loop.Stopping?) && LeaveMove(c, s, e).Some?
    ensures Kept(c, LeaveMove(c, s, e).value)
  {
    hide Stops, Caught;
    if s.task.Leaving? {
      if e.Raises? {
        CaughtKeeps(c, s, e.exc);
      } else if s.task.pending.Some? {
        CaughtKeeps(c, s, s.task.pending.value);
      }
    } else if e.Raises? {
      CaughtKeeps(c, s.(torn := e.exc == Fault), e.exc);
    }
  }

  lemma TaskMoveKeeps(c: Config, s: State, e: Event)
    requires Kept(c, s) && (s.loop.Polling? || s.loop.Stopping?) && TaskMove(c, s, e).Some?
    ensures Kept(c, TaskMove(c, s, e).value)
  {
    hide StepMove, HookMove, LeaveMove, Stops;
    match s.task
    case InHook(_) => HookMoveKeeps(c, s, e);
    case InAbort(_) => HookMoveKeeps(c, s, e);
    case Leaving(_) => LeaveMoveKeeps(c, s, e);
    case Unwinding => LeaveMoveKeeps(c, s, e);
    case _ => StepMoveKeeps(c, s, e);
  }

  lemma CloseStopKeeps(c: Config, s: State)
    requires Kept(c, s) && TaskOver(s)
    requires s.loop.Stopping? || (s.loop.Polling? && s.task == Done(Some(Stop)))
    ensures Kept(c, CloseStop(s))
  {
    hide Stops;
  }

  lemma LoopMoveKeeps(c: Config, s: State, e: Event)
    requires Kept(c, s) && LoopMove(s, e).Some?
    ensures Kept(c, LoopMove(s, e).value)
  {
    hide Stops, CloseStop;
    if e.Collect? && (s.loop.Stopping? || s.task == Done(Some(Stop))) {
      CloseStopKeeps(c, s);
    }
  }

  lemma NextKeeps(c: Config, s: State, e: Event)
    requires Kept(c, s) && Next(c, s, e).Some?
    ensures Kept(c, Next(c, s, e).value)
  {
    hide Kept, TaskMove, LoopMove;
    if LoopMove(s, e).Some? {
      LoopMoveKeeps(c, s, e);
    } else {
      TaskMoveKeeps(c, s, e);
    }
  }

  lemma {:induction false} RunKeeps(c: Config, s: State, events: seq<Event>)
    requires Kept(c, s) && RunFrom(c, s, events).Some?
    ensures Kept(c, RunFrom(c, s, events).value)
    decreases events
  {
    hide Kept, Next;
    if events != [] {
      NextKeeps(c, s, events[0]);
      RunKeeps(c, Next(c, s, events[0]).value, events[1..]);
    }
  }

  /* ---- The closing hooks of an attempt ---- */

  /** At any moment of any run at most one closing hook has returned, one more
      when the teardown of a stopped run raised an exception of its own; and a
      hook that started has returned, raised or is running: no stop cuts it off. */
  lemma AtMostOneHookReturns(c: Config, events: seq<Event>)
    requires Run(c, events).Some?
    ensures var s := Run(c, events).value;
            && |s.returned| <= 1 + One(s.torn)
            && |s.started| == |s.returned| + s.raised + Live(s)
  {
    hide RunFrom;
    InitKept(c);
    RunKeeps(c, INIT, events);
  }

  /** When no hook raises, an attempt that ends and will not be retried was
      closed by exactly one hook, two exactly when that teardown raised; one
      that will be retried by none, unless its outcome was dispatched before. */
  lemma ExactlyOneHookCloses(c: Config, events: seq<Event>)
    requires Run(c, events).Some? && Run(c, events).value.loop.Ended? && Run(c, events).value.raised == 0
    ensures var s := Run(c, events).value;
            && |s.started| == |s.returned|
            && (s.loop.result != Some(Retry) ==> |s.returned| == 1 + One(s.torn))
            && (s.loop.result == Some(Retry) ==> |s.returned| == One(s.outcomeDispatched))
            && (s.loop.result == None ==> s.returned == [OnSuccess])
            && (s.torn ==> s.loop.result == Some(Stop))
  {
    hide RunFrom;
    InitKept(c);
    RunKeeps(c, INIT, events);
    match Run(c, events).value.loop.result
    case None =>
    case Some(Fault) =>
    case Some(Stop) =>
    case Some(Retry) =>
  }

  /** `on_success` starts only when every step ran and none but the last could
      have stopped the run; `on_cancelled_running` only in a run that ends as stopped. */
  lemma HooksMeanWhatTheySay(c: Config, events: seq<Event>)
    requires Run(c, events).Some?
    ensures var s := Run(c, events).value;
            && (OnSuccess in s.started ==> RanTo(c, s, true))
            && (OnFailure in s.started ==> s.stepResults.Some?)
            && (OnCancelled in s.started ==> s.loop == InCancel || s.loop == Ended(Some(Stop)))
  {
    hide RunFrom;
    InitKept(c);
    RunKeeps(c, INIT, events);
  }

  /* ---- Every run can end ---- */

  /** The event that takes the run a step nearer its end. */
  function Lead(s: State): Event {
    if s.loop.InCancel? then CancelReturns
    else if TaskOver(s) then Collect
    else
      match s.task
      case Opening => Opened
      case Preparing => Prepared
      case Stepping => StepExit(0)
      case Judging(_) => Judged(false)
      case AfterCommands => AfterDone
      case InHook(_) => HookReturns
      case InAbort(_) => HookReturns
      case _ => Left
  }

  /** How many such events are left at most. */
  function Distance(c: Config, s: State): nat {
    match s.loop
    case Ended(_) => 0
    case InCancel => 1
    case _ =>
      match s.task
      case Done(_) => 2
      case Cancelled => 2
      case InAbort(_) => 3
      case Unwinding => 3
      case Leaving(_) => 4
      case InHook(_) => 5
      case AfterCommands => 6
      case Judging(_) => 7
      case Stepping =>
        if s.stepResults.Some? && |s.stepResults.value| <= |c.steps| then 8 + |c.steps| - |s.stepResults.value| else 0
      case Preparing => 9 + |c.steps|
      case Opening => 10 + |c.steps|
  }

  lemma LeadLeaves(c: Config, s: State)
    requires Kept(c, s) && (s.loop.Polling? || s.loop.Stopping?) && !TaskOver(s)
    requires s.task.InHook? || s.task.InAbort? || s.task.Leaving? || s.task.Unwinding?
    ensures LoopMove(s, Lead(s)).None? && TaskMove(c, s, Lead(s)).Some?
    ensures Distance(c, TaskMove(c, s, Lead(s)).value) < Distance(c, s)
  {
    hide Stops, Kept, StepMove;
  }

  lemma LeadSteps(c: Config, s: State)
    requires Kept(c, s) && (s.loop.Polling? || s.loop.Stopping?) && !TaskOver(s)
    requires !(s.task.InHook? || s.task.InAbort? || s.task.Leaving? || s.task.Unwinding?)
    ensures LoopMove(s, Lead(s)).None? && TaskMove(c, s, Lead(s)).Some?
    ensures Distance(c, TaskMove(c, s, Lead(s)).value) < Distance(c, s)
  {
    hide Stops, Conserved, DispatchedIsReturned, Counted, HookMove, LeaveMove;
  }

  lemma LeadCollects(c: Config, s: State)
    requires Kept(c, s) && (s.loop.InCancel? || (TaskOver(s) && !s.loop.Ended?))
    ensures LoopMove(s, Lead(s)).Some? && Distance(c, LoopMove(s, Lead(s)).value) < Distance(c, s)
  {
    hide Stops, Conserved, DispatchedIsReturned, Stepped;
  }

  /** It can always happen, and brings the run nearer. */
  lemma LeadProgresses(c: Config, s: State)
    requires Kept(c, s) && !s.loop.Ended?
    ensures Next(c, s, Lead(s)).Some? && Distance(c, Next(c, s, Lead(s)).value) < Distance(c, s)
  {
    hide Kept, Lead, LoopMove, TaskMove, Distance;
    if s.loop.InCancel? || TaskOver(s) {
      LeadCollects(c, s);
    } else if s.task.InHook? || s.task.InAbort? || s.task.Leaving? || s.task.Unwinding? {
      LeadLeaves(c, s);
    } else {
      LeadSteps(c, s);
    }
  }

  lemma {:induction false} LeadEnds(c: Config, s: State) returns (more: seq<Event>)
    requires Kept(c, s)
    ensures RunFrom(c, s, more).Some? && RunFrom(c, s, more).value.loop.Ended?
    ensures |more| <= Distance(c, s)
    decreases Distance(c, s)
  {
    hide Kept, Next, Lead, Distance;
    more := [];
    if !s.loop.Ended? {
      LeadProgresses(c, s);
      NextKeeps(c, s, Lead(s));
      more := LeadEnds(c, Next(c, s, Lead(s)).value);
      RunStep(c, s, Lead(s), more);
      more := [Lead(s)] + more;
    }
  }

  lemma {:induction false} RunOn(c: Config, s: State, events: seq<Event>, more: seq<Event>)
    requires RunFrom(c, s, events).Some?
    ensures RunFrom(c, s, events + more) == RunFrom(c, RunFrom(c, s, events).value, more)
    decreases events
  {
    hide Next;
    if events == [] {
      assert events + more == more;
    } else {
      assert (events + more)[1..] == events[1..] + more;
      RunOn(c, Next(c, s, events[0]).value, events[1..], more);
    }
  }

  /** No interleaving is ever stuck: from wherever it is, a run can go on to its end, in
      at most ten events and one more for each step. */
  lemma EveryRunCanEnd(c: Config, events: seq<Event>)
    requires Run(c, events).Some?
    ensures exists more: seq<Event> ::
              |more| <= 10 + |c.steps| && Run(c, events + more).Some? && Run(c, events + more).value.loop.Ended?
  {
    hide RunFrom, Kept;
    InitKept(c);
    RunKeeps(c, INIT, events);
    var s := Run(c, events).value;
    var more := LeadEnds(c, s);
    RunOn(c, INIT, events, more);
    DistanceBound(c, s);
  }

  lemma DistanceBound(c: Config, s: State)
    ensures Distance(c, s) <= 10 + |c.steps|
  {
  }

  const TORN_RUN := [Opened, AskStop, Poll, Raises(Fault), HookReturns, Collect, CancelReturns]

  lemma RunStep(c: Config, s: State, e: Event, rest: seq<Event>)
    requires Next(c, s, e).Some?
    ensures RunFrom(c, s, [e] + rest) == RunFrom(c, Next(c, s, e).value, rest)
  {
    assert ([e] + rest)[1..] == rest;
  }

  /** A stop whose teardown raises: two hooks close the run, `on_abort` and `on_cancelled_running`. */
  lemma TornTeardownClosesTwice(c: Config)
    requires c.handlesAbort
    ensures Run(c, TORN_RUN).Some? && Run(c, TORN_RUN).value.returned == [OnAbort, OnCancelled]
  {
    hide RunFrom, Next;
    var s1 := INIT.(task := Preparing);
    var s2 := s1.(stopAsked := true);
    var s3 := s2.(loop := Stopping, task := Unwinding);
    var s4 := s3.(torn := true, outcomeStarted := true, started := [OnAbort], task := InAbort(Fault));
    var s5 := s4.(returned := [OnAbort], task := Done(Some(Fault)));
    var s6 := s5.(loop := InCancel, started := [OnAbort, OnCancelled]);
    var s7 := s6.(returned := [OnAbort, OnCancelled], loop := Ended(Some(Stop)));
    TornSteps(c, s1, s2, s3, s4, s5, s6, s7);
    var none: seq<Event> := [];
    var e7 := [CancelReturns] + none;
    var e6 := [Collect] + e7;
    var e5 := [HookReturns] + e6;
    var e4 := [Raises(Fault)] + e5;
    var e3 := [Poll] + e4;
    var e2 := [AskStop] + e3;
    RunStep(c, INIT, Opened, e2);
    RunStep(c, s1, AskStop, e3);
    RunStep(c, s2, Poll, e4);
    RunStep(c, s3, Raises(Fault), e5);
    RunStep(c, s4, HookReturns, e6);
    RunStep(c, s5, Collect, e7);
    RunStep(c, s6, CancelReturns, none);
    RunNone(c, s7);
    assert TORN_RUN == [Opened] + e2;
  }

  lemma TornSteps(c: Config, s1: State, s2: State, s3: State, s4: State, s5: State, s6: State, s7: State)
    requires c.handlesAbort
    requires s1 == INIT.(task := Preparing) && s2 == s1.(stopAsked := true)
    requires s3 == s2.(loop := Stopping, task := Unwinding)
    requires s4 == s3.(torn := true, outcomeStarted := true, started := [OnAbort], task := InAbort(Fault))
    requires s5 == s4.(returned := [OnAbort], task := Done(Some(Fault)))
    requires s6 == s5.(loop := InCancel, started := [OnAbort, OnCancelled])
    requires s7 == s6.(returned := [OnAbort, OnCancelled], loop := Ended(Some(Stop)))
    ensures Next(c, INIT, Opened) == Some(s1) && Next(c, s1, AskStop) == Some(s2) && Next(c, s2, Poll) == Some(s3)
    ensures Next(c, s3, Raises(Fault)) == Some(s4) && Next(c, s4, HookReturns) == Some(s5)
    ensures Next(c, s5, Collect) == Some(s6) && Next(c, s6, CancelReturns) == Some(s7)
  {
    hide Next;
    StepsToStop(c, s1, s2);
    StepsToAbort(c, s3);
    StepsToEnd(c, s5);
  }

  lemma StepsToStop(c: Config, s1: State, s2: State)
    requires s1 == INIT.(task := Preparing) && s2 == s1.(stopAsked := true)
    ensures Next(c, INIT, Opened) == Some(s1) && Next(c, s1, AskStop) == Some(s2)
    ensures Next(c, s2, Poll) == Some(s2.(loop := Stopping, task := Unwinding))
  {
  }

  lemma StepsToAbort(c: Config, s3: State)
    requires c.handlesAbort && s3.loop == Stopping && s3.task == Unwinding && s3.started == [] && s3.returned == []
    requires !s3.outcomeDispatched
    ensures var s4 := s3.(torn := true, outcomeStarted := true, started := [OnAbort], task := InAbort(Fault));
            && Next(c, s3, Raises(Fault)) == Some(s4)
            && Next(c, s4, HookReturns) == Some(s4.(returned := [OnAbort], task := Done(Some(Fault))))
  {
    assert s3.started + [OnAbort] == [OnAbort] && s3.returned + [OnAbort] == [OnAbort];
  }

  lemma StepsToEnd(c: Config, s5: State)
    requires s5.loop == Stopping && s5.task.Done? && s5.started == s5.returned == [OnAbort] && !s5.outcomeDispatched
    ensures var s6 := s5.(loop := InCancel, started := [OnAbort, OnCancelled]);
            && Next(c, s5, Collect) == Some(s6)
            && Next(c, s6, CancelReturns) == Some(s6.(returned := [OnAbort, OnCancelled], loop := Ended(Some(Stop))))
  {
    assert [OnAbort] + [OnCancelled] == [OnAbort, OnCancelled];
  }

  lemma RunNone(c: Config, s: State)
    ensures RunFrom(c, s, []) == Some(s)
  {
  }
}
