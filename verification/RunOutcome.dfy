/** Which of the outcome hooks closes a run, against what its steps and its judge said. */
module RunOutcome {
  import opened Executor
  import opened RunProtocol

  /** A step stopped the run, and others were skipped. */
  predicate Stopped(c: Config, s: State) {
    && s.stepResults.Some?
    && var ran := s.stepResults.value;
       0 < |ran| < |c.steps| && Stops(c.steps[|ran| - 1], ran[|ran| - 1])
  }

  /** The run is not judged yet. */
  predicate Early(task: Task) {
    task.Opening? || task.Preparing? || task.Stepping? || task.Judging?
  }

  /** What the hooks started so far say of the events so far. */
  predicate Judgment(c: Config, s: State, past: seq<Event>) {
    && (Early(s.task) ==> s.started == [] && forall b :: Judged(b) !in past)
    && (s.task.Judging? && s.task.skipped ==> Stopped(c, s))
    && (s.task.AfterCommands? ==> s.started == [])
    && (s.task.AfterCommands? || OnSuccess in s.started ==> Judged(false) in past && Judged(true) !in past)
    && (OnFailure in s.started ==> OnSuccess !in s.started && (Judged(true) in past || Stopped(c, s)))
  }

  lemma NotAVerdict(past: seq<Event>, e: Event)
    requires !e.Judged?
    ensures forall b :: Judged(b) in past + [e] <==> Judged(b) in past
  {
  }

  lemma LoopJudges(c: Config, s: State, past: seq<Event>, e: Event)
    requires Judgment(c, s, past) && LoopMove(s, e).Some?
    ensures Judgment(c, LoopMove(s, e).value, past + [e])
  {
    hide Stops;
    NotAVerdict(past, e);
  }

  lemma HookJudges(c: Config, s: State, past: seq<Event>, e: Event)
    requires Judgment(c, s, past) && HookMove(s, e).Some?
    ensures Judgment(c, HookMove(s, e).value, past + [e])
  {
    hide Stops;
    NotAVerdict(past, e);
  }

  /** An exception on its way out starts `on_abort` and nothing else. */
  lemma CaughtStarts(c: Config, s: State, e: Exc)
    ensures var next := Caught(c, s, e);
            && (next.task.InAbort? || next.task.Done?)
            && next.stepResults == s.stepResults
            && (next.started == s.started || next.started == s.started + [OnAbort])
  {
  }

  lemma LeaveJudges(c: Config, s: State, past: seq<Event>, e: Event)
    requires Judgment(c, s, past) && LeaveMove(c, s, e).Some?
    ensures Judgment(c, LeaveMove(c, s, e).value, past + [e])
  {
    hide Stops, Caught;
    NotAVerdict(past, e);
    if e.Raises? {
      CaughtStarts(c, s, e.exc);
      CaughtStarts(c, s.(torn := e.exc == Fault), e.exc);
    } else if s.task.Leaving? && s.task.pending.Some? {
      CaughtStarts(c, s, s.task.pending.value);
    }
  }

  lemma StepJudges(c: Config, s: State, past: seq<Event>, e: Event)
    requires Judgment(c, s, past) && StepMove(c, s, e).Some? && (Early(s.task) || s.task.AfterCommands?)
    ensures Judgment(c, StepMove(c, s, e).value, past + [e])
  {
    hide Stops, StepMove, Caught;
    StepMoveIs(c, s, e);
    if e.Judged? {
      VerdictJudges(c, s, past, e);
    } else {
      NotAVerdict(past, e);
      if e.Raises? {
        CaughtStarts(c, s, e.exc);
      }
    }
  }

  lemma VerdictJudges(c: Config, s: State, past: seq<Event>, e: Event)
    requires Judgment(c, s, past) && StepMove(c, s, e).Some? && e.Judged?
    requires Early(s.task) || s.task.AfterCommands?
    ensures Judgment(c, StepMove(c, s, e).value, past + [e])
  {
    hide Stops;
    assert forall b :: Judged(b) in past + [e] <==> b == e.errors;
  }

  lemma NextJudges(c: Config, s: State, past: seq<Event>, e: Event)
    requires Judgment(c, s, past) && Next(c, s, e).Some?
    ensures Judgment(c, Next(c, s, e).value, past + [e])
  {
    hide Judgment, StepMove, HookMove, LeaveMove, LoopMove;
    if LoopMove(s, e).Some? {
      LoopJudges(c, s, past, e);
    } else if s.task.InHook? || s.task.InAbort? {
      HookJudges(c, s, past, e);
    } else if s.task.Leaving? || s.task.Unwinding? {
      LeaveJudges(c, s, past, e);
    } else {
      StepJudges(c, s, past, e);
    }
  }

  lemma {:induction false} RunJudges(c: Config, s: State, past: seq<Event>, events: seq<Event>)
    requires Judgment(c, s, past) && RunFrom(c, s, events).Some?
    ensures Judgment(c, RunFrom(c, s, events).value, past + events)
    decreases events
  {
    hide Judgment, Next;
    if events == [] {
      assert past + events == past;
    } else {
      NextJudges(c, s, past, events[0]);
      RunJudges(c, Next(c, s, events[0]).value, past + [events[0]], events[1..]);
      assert past + [events[0]] + events[1..] == past + events;
    }
  }

  /** `on_success` starts only in a run judged once, and without errors;
      `on_failure` only in one judged to have errors, or cut off by a step with
      others left; and never both. */
  lemma OutcomeIsTheVerdict(c: Config, events: seq<Event>)
    requires Run(c, events).Some?
    ensures var s := Run(c, events).value;
            && (OnSuccess in s.started ==> Judged(false) in events && Judged(true) !in events)
            && (OnFailure in s.started ==> OnSuccess !in s.started && (Judged(true) in events || Stopped(c, s)))
  {
    hide RunFrom;
    RunJudges(c, INIT, [], events);
    assert [] + events == events;
  }

  /** The judge says of a restore what its failed steps say. */
  predicate JudgedByItsSteps(s: State, events: seq<Event>) {
    s.stepResults.Some? && |s.stepResults.value| <= |RESTORE| && Judged(false) in events ==>
      var ran := s.stepResults.value;
      FailedSteps(Recorded(RESTORE[..|ran|], ran)) == []
  }

  /** A restore is closed as a success, in any interleaving, only when every one of
      its steps ran and succeeded, an unchecked start apart. */
  lemma RestoreClosesWell(c: Config, events: seq<Event>)
    requires c.steps == RESTORE && Run(c, events).Some? && JudgedByItsSteps(Run(c, events).value, events)
    ensures var s := Run(c, events).value;
            OnSuccess in s.started ==>
              && s.stepResults.Some? && |s.stepResults.value| == |RESTORE|
              && (forall j :: 0 <= j < 5 ==> s.stepResults.value[j] == 0)
              && s.stepResults.value[5] in {0, 24}
  {
    hide Run, Stops, Recorded;
    HooksMeanWhatTheySay(c, events);
    OutcomeIsTheVerdict(c, events);
    var s := Run(c, events).value;
    if OnSuccess in s.started {
      var ran := s.stepResults.value;
      assert RESTORE[..|ran|] == RESTORE;
      RestoreTitles();
      RecordedIs(RESTORE, ran);
      FailedNone(Recorded(RESTORE, ran));
      forall j | 0 <= j < 6 ensures ran[j] == 0 || (j == 5 && ran[j] == EXIT_UNCHECKED) {
        StartIsLast(j);
        assert Recorded(RESTORE, ran)[j] == StepResult(RESTORE[j].title, ran[j]);
      }
    }
  }
}
