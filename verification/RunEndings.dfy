/** How a run ends, from wherever it is: what a stop, an exception and a verdict each lead to. */
module RunEndings {
  import opened Text
  import opened Executor
  import opened RunProtocol

  /** These events can follow, and end the run so, closed by these hooks. */
  predicate Ends(c: Config, s: State, events: seq<Event>, result: Option<Exc>, hooks: seq<Hook>) {
    && RunFrom(c, s, events).Some?
    && var last := RunFrom(c, s, events).value;
       last.loop == Ended(result) && last.returned == hooks
  }

  lemma EndsStep(c: Config, s: State, e: Event, next: State, rest: seq<Event>, result: Option<Exc>, hooks: seq<Hook>)
    requires Next(c, s, e) == Some(next) && Ends(c, next, rest, result, hooks)
    ensures Ends(c, s, [e] + rest, result, hooks)
  {
    hide Next;
    RunStep(c, s, e, rest);
  }

  lemma EndsNow(c: Config, s: State, e: Event, next: State, result: Option<Exc>, hooks: seq<Hook>)
    requires Next(c, s, e) == Some(next) && next.loop == Ended(result) && next.returned == hooks
    ensures Ends(c, s, [e], result, hooks)
  {
    hide Next;
    RunStep(c, s, e, []);
    assert [e] + [] == [e];
  }

  lemma OneHook()
    ensures forall hook: Hook :: [] + [hook] == [hook]
  {
  }

  /* ---- A person's stop ---- */

  lemma StopFrom(c: Config, s: State)
    requires Kept(c, s) && s.loop.Polling? && s.stopAsked && !s.outcomeStarted && !TaskOver(s)
    ensures Ends(c, s, [Poll, Left, Collect, CancelReturns], Some(Stop), [OnCancelled])
  {
    hide Stops, Ends;
    assert s.returned == [] && !s.outcomeDispatched;
    OneHook();
    var s1 := s.(loop := Stopping, task := Unwinding);
    var s2 := s1.(task := Cancelled);
    var s3 := s2.(loop := InCancel, started := s2.started + [OnCancelled]);
    var s4 := s3.(returned := s3.returned + [OnCancelled], loop := Ended(Some(Stop)));
    EndsNow(c, s3, CancelReturns, s4, Some(Stop), [OnCancelled]);
    EndsStep(c, s2, Collect, s3, [CancelReturns], Some(Stop), [OnCancelled]);
    EndsStep(c, s1, Left, s2, [Collect] + [CancelReturns], Some(Stop), [OnCancelled]);
    EndsStep(c, s, Poll, s1, [Left] + ([Collect] + [CancelReturns]), Some(Stop), [OnCancelled]);
    assert [Poll] + ([Left] + ([Collect] + [CancelReturns])) == [Poll, Left, Collect, CancelReturns];
  }

  /** Wherever a run is before its outcome, the next poll reads a stop that was asked
      for: the task is cancelled, and `on_cancelled_running` closes the run, and nothing else. */
  lemma StopIsHonoured(c: Config, events: seq<Event>)
    requires Run(c, events).Some?
    requires var s := Run(c, events).value; s.loop.Polling? && s.stopAsked && !s.outcomeStarted && !TaskOver(s)
    ensures Ends(c, Run(c, events).value, [Poll, Left, Collect, CancelReturns], Some(Stop), [OnCancelled])
  {
    hide RunFrom, Kept, Ends;
    InitKept(c);
    RunKeeps(c, INIT, events);
    StopFrom(c, Run(c, events).value);
  }

  /** Once an outcome hook or `on_abort` has started, or if nobody asked, a poll changes nothing;
      asking sets the flag, and no more, as long as the loop polls. */
  lemma PollElse(c: Config, s: State)
    requires s.loop.Polling?
    ensures !TaskOver(s) && (s.outcomeStarted || !s.stopAsked) ==> Next(c, s, Poll) == Some(s)
    ensures Next(c, s, AskStop) == Some(s.(stopAsked := true))
  {
  }

  /* ---- An exception before the outcome ---- */

  predicate Early(task: Task) {
    task.Opening? || task.Preparing? || task.Stepping? || task.Judging? || task.AfterCommands?
  }

  /** The exception on its way out, past the transport if it was open. */
  function Out(s: State, exc: Exc): seq<Event> {
    if s.task.Opening? then [Raises(exc)] else [Raises(exc), Left]
  }

  lemma RaisesOut(c: Config, s: State, exc: Exc, rest: seq<Event>, result: Option<Exc>, hooks: seq<Hook>)
    requires Kept(c, s) && s.loop.Polling? && Early(s.task)
    requires Ends(c, Caught(c, s, exc), rest, result, hooks)
    ensures Ends(c, s, Out(s, exc) + rest, result, hooks)
  {
    hide Stops, Ends, Kept, Caught;
    if s.task.Opening? {
      EndsStep(c, s, Raises(exc), Caught(c, s, exc), rest, result, hooks);
    } else {
      var leaving := s.(task := Leaving(Some(exc)));
      CaughtAnyTask(c, s, exc, leaving.task);
      EndsStep(c, leaving, Left, Caught(c, s, exc), rest, result, hooks);
      EndsStep(c, s, Raises(exc), leaving, [Left] + rest, result, hooks);
      assert [Raises(exc), Left] + rest == [Raises(exc)] + ([Left] + rest);
    }
  }

  lemma CaughtAnyTask(c: Config, s: State, e: Exc, task: Task)
    ensures Caught(c, s.(task := task), e) == Caught(c, s, e)
  {
  }

  lemma EarlyIsUnclosed(c: Config, s: State)
    requires Kept(c, s) && s.loop.Polling? && Early(s.task)
    ensures s.started == [] && s.returned == [] && !s.outcomeDispatched && !s.outcomeStarted
  {
    hide Stops;
  }

  /** Any exception but a stop or one that is retried: `on_abort` closes the run, if
      the executor has one, and a stop asked for meanwhile does not cut it off. */
  lemma FaultIsAborted(c: Config, s: State)
    requires Kept(c, s) && s.loop.Polling? && Early(s.task)
    ensures Ends(c, s, Out(s, Fault) + if c.handlesAbort then [HookReturns, Collect] else [Collect], Some(Fault), [OnAbort])
    ensures c.handlesAbort ==> Caught(c, s, Fault).task == InAbort(Fault) && Caught(c, s, Fault).outcomeStarted
  {
    hide Stops, Ends, Kept;
    EarlyIsUnclosed(c, s);
    OneHook();
    var s1 := Caught(c, s, Fault);
    if c.handlesAbort {
      var s2 := s1.(returned := s1.returned + [OnAbort], task := Done(Some(Fault)));
      EndsNow(c, s2, Collect, s2.(loop := Ended(Some(Fault))), Some(Fault), [OnAbort]);
      EndsStep(c, s1, HookReturns, s2, [Collect], Some(Fault), [OnAbort]);
      assert [HookReturns, Collect] == [HookReturns] + [Collect];
      RaisesOut(c, s, Fault, [HookReturns, Collect], Some(Fault), [OnAbort]);
    } else {
      EndsNow(c, s1, Collect, s1.(loop := Ended(Some(Fault))), Some(Fault), [OnAbort]);
      RaisesOut(c, s, Fault, [Collect], Some(Fault), [OnAbort]);
    }
  }

  /** An exception that is retried: no hook. */
  lemma RetryClosesNothing(c: Config, s: State)
    requires Kept(c, s) && s.loop.Polling? && Early(s.task)
    ensures Ends(c, s, Out(s, Retry) + [Collect], Some(Retry), [])
  {
    hide Stops, Ends, Kept;
    EarlyIsUnclosed(c, s);
    OneHook();
    var s1 := Caught(c, s, Retry);
    EndsNow(c, s1, Collect, s1.(loop := Ended(Some(Retry))), Some(Retry), []);
    RaisesOut(c, s, Retry, [Collect], Some(Retry), []);
  }

  /** A stop the task raises itself is closed as one the loop reads. */
  lemma RaisedStopIsClosed(c: Config, s: State)
    requires Kept(c, s) && s.loop.Polling? && Early(s.task)
    ensures Ends(c, s, Out(s, Stop) + [Collect, CancelReturns], Some(Stop), [OnCancelled])
  {
    hide Stops, Ends, Kept;
    EarlyIsUnclosed(c, s);
    OneHook();
    var s1 := Caught(c, s, Stop);
    var s2 := s1.(loop := InCancel, started := s1.started + [OnCancelled]);
    EndsNow(c, s2, CancelReturns, s2.(returned := s2.returned + [OnCancelled], loop := Ended(Some(Stop))), Some(Stop), [OnCancelled]);
    EndsStep(c, s1, Collect, s2, [CancelReturns], Some(Stop), [OnCancelled]);
    assert [Collect, CancelReturns] == [Collect] + [CancelReturns];
    RaisesOut(c, s, Stop, [Collect, CancelReturns], Some(Stop), [OnCancelled]);
  }

  /* ---- The steps and the verdict ---- */

  /** One step after another, up to the last, or to one that failed, was not to be
      tolerated, and stops the run. */
  lemma StepsGoOn(c: Config, s: State, status: int)
    requires Kept(c, s) && s.loop.Polling? && s.task == Stepping
    ensures s.stepResults.Some? && |s.stepResults.value| < |c.steps|
    ensures var ran := s.stepResults.value; var step := c.steps[|ran|];
            Next(c, s, StepExit(status)) ==
            Some(s.(stepResults := Some(ran + [status]),
                    task := if |ran| + 1 == |c.steps| then Judging(false)
                            else if status != 0 && status !in step.continueOn && step.stopOnFailure then Judging(true)
                            else Stepping))
  {
  }

  lemma StepsBegin(c: Config, s: State)
    requires s.loop.Polling?
    ensures s.task == Opening ==> Next(c, s, Opened) == Some(s.(task := Preparing))
    ensures s.task == Preparing ==>
              Next(c, s, Prepared) ==
              Some(s.(stepResults := Some([]), task := if c.steps == [] then Judging(false) else Stepping))
  {
  }

  /** Errors, or steps cut off: `on_failure` closes the run, which fails. */
  lemma FailureCloses(c: Config, s: State, skipped: bool, errors: bool)
    requires Kept(c, s) && s.loop.Polling? && s.task == Judging(skipped) && (errors || skipped)
    ensures Ends(c, s, [Judged(errors), HookReturns, Left, Collect], Some(Fault), [OnFailure])
  {
    hide Stops, Ends, Kept;
    EarlyIsUnclosed(c, s);
    OneHook();
    var s1 := StartHook(s, OnFailure);
    var s2 := s1.(outcomeDispatched := true, returned := s1.returned + [OnFailure], task := Leaving(Some(Fault)));
    var s3 := s2.(task := Done(Some(Fault)));
    EndsNow(c, s3, Collect, s3.(loop := Ended(Some(Fault))), Some(Fault), [OnFailure]);
    EndsStep(c, s2, Left, s3, [Collect], Some(Fault), [OnFailure]);
    EndsStep(c, s1, HookReturns, s2, [Left] + [Collect], Some(Fault), [OnFailure]);
    EndsStep(c, s, Judged(errors), s1, [HookReturns] + ([Left] + [Collect]), Some(Fault), [OnFailure]);
    assert [Judged(errors)] + ([HookReturns] + ([Left] + [Collect])) == [Judged(errors), HookReturns, Left, Collect];
  }

  /** No errors and every step run: `on_success` closes the run, which succeeds. */
  lemma SuccessCloses(c: Config, s: State)
    requires Kept(c, s) && s.loop.Polling? && s.task == Judging(false)
    ensures Ends(c, s, [Judged(false), AfterDone, HookReturns, Left, Collect], None, [OnSuccess])
  {
    hide Stops, Ends, Kept;
    EarlyIsUnclosed(c, s);
    OneHook();
    var s1 := s.(task := AfterCommands);
    var s2 := StartHook(s1, OnSuccess);
    var s3 := s2.(outcomeDispatched := true, returned := s2.returned + [OnSuccess], task := Leaving(None));
    var s4 := s3.(task := Done(None));
    EndsNow(c, s4, Collect, s4.(loop := Ended(None)), None, [OnSuccess]);
    EndsStep(c, s3, Left, s4, [Collect], None, [OnSuccess]);
    EndsStep(c, s2, HookReturns, s3, [Left] + [Collect], None, [OnSuccess]);
    EndsStep(c, s1, AfterDone, s2, [HookReturns] + ([Left] + [Collect]), None, [OnSuccess]);
    EndsStep(c, s, Judged(false), s1, [AfterDone] + ([HookReturns] + ([Left] + [Collect])), None, [OnSuccess]);
    assert [Judged(false)] + ([AfterDone] + ([HookReturns] + ([Left] + [Collect]))) ==
           [Judged(false), AfterDone, HookReturns, Left, Collect];
  }

  /* ---- A hook that raises ---- */

  /** An outcome hook that raises has not dealt with the outcome: `on_abort` closes the
      run, unless it is retried; then no hook does. */
  lemma RaisingHookIsAborted(c: Config, s: State)
    requires Kept(c, s) && s.loop.Polling? && s.task.InHook?
    ensures Ends(c, s, [Raises(Fault), Left] + if c.handlesAbort then [HookReturns, Collect] else [Collect], Some(Fault), [OnAbort])
    ensures Ends(c, s, [Raises(Retry), Left, Collect], Some(Retry), [])
  {
    hide Stops, Ends;
    assert s.returned == [] && !s.outcomeDispatched;
    OneHook();
    hide Kept;
    HookFaults(c, s);
    var s1 := s.(raised := s.raised + 1, task := Leaving(Some(Retry)));
    var s2 := s1.(task := Done(Some(Retry)));
    EndsNow(c, s2, Collect, s2.(loop := Ended(Some(Retry))), Some(Retry), []);
    EndsStep(c, s1, Left, s2, [Collect], Some(Retry), []);
    EndsStep(c, s, Raises(Retry), s1, [Left] + [Collect], Some(Retry), []);
    assert [Raises(Retry)] + ([Left] + [Collect]) == [Raises(Retry), Left, Collect];
  }

  lemma HookFaults(c: Config, s: State)
    requires s.loop.Polling? && s.task.InHook? && s.returned == [] && !s.outcomeDispatched
    ensures Ends(c, s, [Raises(Fault), Left] + if c.handlesAbort then [HookReturns, Collect] else [Collect], Some(Fault), [OnAbort])
  {
    hide Stops, Ends;
    OneHook();
    var s1 := s.(raised := s.raised + 1, task := Leaving(Some(Fault)));
    var s2 := Caught(c, s1, Fault);
    var end := if c.handlesAbort then [HookReturns, Collect] else [Collect];
    if c.handlesAbort {
      var s3 := s2.(returned := s2.returned + [OnAbort], task := Done(Some(Fault)));
      EndsNow(c, s3, Collect, s3.(loop := Ended(Some(Fault))), Some(Fault), [OnAbort]);
      EndsStep(c, s2, HookReturns, s3, [Collect], Some(Fault), [OnAbort]);
      assert [HookReturns, Collect] == [HookReturns] + [Collect];
    } else {
      EndsNow(c, s2, Collect, s2.(loop := Ended(Some(Fault))), Some(Fault), [OnAbort]);
    }
    EndsStep(c, s1, Left, s2, end, Some(Fault), [OnAbort]);
    EndsStep(c, s, Raises(Fault), s1, [Left] + end, Some(Fault), [OnAbort]);
    assert [Raises(Fault)] + ([Left] + end) == [Raises(Fault), Left] + end;
  }

  /** What `on_abort` or `on_cancelled_running` raises does not take the place of what ended the run. */
  lemma RaisingCloserIsLogged(c: Config, s: State, exc: Exc)
    requires Kept(c, s)
    ensures s.loop.Polling? && s.task.InAbort? ==> Ends(c, s, [Raises(exc), Collect], Some(s.task.exc), [])
    ensures s.loop.InCancel? ==> Ends(c, s, [CancelRaises], Some(Stop), s.returned)
  {
    hide Stops, Ends;
    if s.loop.Polling? && s.task.InAbort? {
      assert s.returned == [] && s.task.exc == Fault;
      var s1 := s.(raised := s.raised + 1, task := Done(Some(s.task.exc)));
      EndsNow(c, s1, Collect, s1.(loop := Ended(Some(s.task.exc))), Some(s.task.exc), []);
      EndsStep(c, s, Raises(exc), s1, [Collect], Some(s.task.exc), []);
      assert [Raises(exc)] + [Collect] == [Raises(exc), Collect];
    }
    if s.loop.InCancel? {
      EndsNow(c, s, CancelRaises, s.(raised := s.raised + 1, loop := Ended(Some(Stop))), Some(Stop), s.returned);
    }
  }

  /* ---- A teardown that raises ---- */

  /** What a teardown raises takes the place of what was on its way out: the run ends with
      it, closed by `on_abort` unless a hook closed it before. */
  lemma TeardownTakesOver(c: Config, s: State)
    requires Kept(c, s) && s.loop.Polling? && s.task.Leaving?
    ensures s.outcomeDispatched ==> Ends(c, s, [Raises(Fault), Collect], Some(Fault), s.returned)
    ensures !s.outcomeDispatched ==>
              Ends(c, s, [Raises(Fault)] + if c.handlesAbort then [HookReturns, Collect] else [Collect], Some(Fault), [OnAbort])
    ensures Ends(c, s, [Raises(Retry), Collect], Some(Retry), s.returned)
  {
    hide Stops, Ends;
    assert !s.outcomeDispatched ==> s.returned == [];
    hide Kept;
    OneHook();
    var r1 := s.(task := Done(Some(Retry)));
    EndsNow(c, r1, Collect, r1.(loop := Ended(Some(Retry))), Some(Retry), s.returned);
    EndsStep(c, s, Raises(Retry), r1, [Collect], Some(Retry), s.returned);
    assert [Raises(Retry)] + [Collect] == [Raises(Retry), Collect];
    var s1 := Caught(c, s, Fault);
    if s.outcomeDispatched {
      EndsNow(c, s1, Collect, s1.(loop := Ended(Some(Fault))), Some(Fault), s.returned);
      EndsStep(c, s, Raises(Fault), s1, [Collect], Some(Fault), s.returned);
      assert [Raises(Fault)] + [Collect] == [Raises(Fault), Collect];
    } else if c.handlesAbort {
      var s2 := s1.(returned := s1.returned + [OnAbort], task := Done(Some(Fault)));
      EndsNow(c, s2, Collect, s2.(loop := Ended(Some(Fault))), Some(Fault), [OnAbort]);
      EndsStep(c, s1, HookReturns, s2, [Collect], Some(Fault), [OnAbort]);
      assert [HookReturns, Collect] == [HookReturns] + [Collect];
      EndsStep(c, s, Raises(Fault), s1, [HookReturns, Collect], Some(Fault), [OnAbort]);
    } else {
      EndsNow(c, s1, Collect, s1.(loop := Ended(Some(Fault))), Some(Fault), [OnAbort]);
      EndsStep(c, s, Raises(Fault), s1, [Collect], Some(Fault), [OnAbort]);
    }
  }

  /** A stopped run stays stopped, if its teardown raises what would be retried, or another stop. */
  lemma StopOutlastsTeardown(c: Config, s: State, exc: Exc)
    requires Kept(c, s) && s.loop.Stopping? && s.task.Unwinding? && exc != Fault
    ensures Ends(c, s, [Raises(exc), Collect, CancelReturns], Some(Stop), [OnCancelled])
  {
    hide Stops, Ends;
    assert s.returned == [] && !s.outcomeDispatched;
    hide Kept;
    OneHook();
    var s1 := Caught(c, s.(torn := false), exc);
    var s2 := s1.(loop := InCancel, started := s1.started + [OnCancelled]);
    EndsNow(c, s2, CancelReturns, s2.(returned := s2.returned + [OnCancelled], loop := Ended(Some(Stop))), Some(Stop), [OnCancelled]);
    EndsStep(c, s1, Collect, s2, [CancelReturns], Some(Stop), [OnCancelled]);
    EndsStep(c, s, Raises(exc), s1, [Collect] + [CancelReturns], Some(Stop), [OnCancelled]);
    assert [Raises(exc)] + ([Collect] + [CancelReturns]) == [Raises(exc), Collect, CancelReturns];
  }
}
