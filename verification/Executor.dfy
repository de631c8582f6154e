/** The parts of `AbstractExecutor` that run alone: the step loop, the errors it
    leads to, and the capped log. */
module Executor {
  import opened Text
  import opened Numbers

  /* ---- Steps ---- */

  /** A step as `get_commands` lists it, without the command itself. */
  datatype Step = Step(title: string, stopOnFailure: bool, continueOn: set<int>)

  datatype StepResult = StepResult(title: string, status: int)

  /** `results`, a dict: insertion order, one entry a title. */
  type Results = seq<StepResult>

  function Put(results: Results, title: string, status: int): Results {
    if results == [] then [StepResult(title, status)]
    else if results[0].title == title then [StepResult(title, status)] + results[1..]
    else [results[0]] + Put(results[1..], title, status)
  }

  /** The step's exit cuts the rest of the run off. */
  predicate Stops(step: Step, status: int) {
    status != 0 && status !in step.continueOn && step.stopOnFailure
  }

  /** How many steps run when the host would answer `exits`. */
  function RanCount(steps: seq<Step>, exits: seq<int>): nat
    requires |exits| == |steps|
  {
    if steps == [] then 0
    else if Stops(steps[0], exits[0]) then 1
    else 1 + RanCount(steps[1..], exits[1..])
  }

  function Recorded(steps: seq<Step>, exits: seq<int>): Results
    requires |exits| == |steps|
  {
    if steps == [] then []
    else
      var n := |steps| - 1;
      Put(Recorded(steps[..n], exits[..n]), steps[n].title, exits[n])
  }

  function Titles(steps: seq<Step>): seq<string> {
    seq(|steps|, i requires 0 <= i < |steps| => steps[i].title)
  }

  /** None of the first `i` steps stops the run. */
  predicate Passes(steps: seq<Step>, exits: seq<int>, i: int)
    requires |exits| == |steps| && i <= |steps|
  {
    forall j :: 0 <= j < i ==> !Stops(steps[j], exits[j])
  }

  /** A step runs exactly when no earlier one stopped the run. */
  lemma {:induction false} RanIff(steps: seq<Step>, exits: seq<int>)
    requires |exits| == |steps|
    ensures RanCount(steps, exits) <= |steps|
    ensures forall i :: 0 <= i < |steps| ==> (i < RanCount(steps, exits) <==> Passes(steps, exits, i))
  {
    hide Stops;
    if steps != [] {
      RanIff(steps[1..], exits[1..]);
      if !Stops(steps[0], exits[0]) {
        forall i | 1 <= i < |steps| ensures i < RanCount(steps, exits) <==> Passes(steps, exits, i) {
          assert Passes(steps, exits, i) <==> Passes(steps[1..], exits[1..], i - 1) by {
            if Passes(steps, exits, i) {
              forall j | 0 <= j < i - 1 ensures !Stops(steps[1..][j], exits[1..][j]) {
                assert !Stops(steps[j + 1], exits[j + 1]);
              }
            }
            if Passes(steps[1..], exits[1..], i - 1) {
              forall j | 1 <= j < i ensures !Stops(steps[j], exits[j]) {
                assert !Stops(steps[1..][j - 1], exits[1..][j - 1]);
              }
            }
          }
        }
      }
    }
  }

  predicate DistinctTitles(steps: seq<Step>) {
    forall i, j :: 0 <= i < j < |steps| ==> steps[i].title != steps[j].title
  }

  lemma {:induction false} PutNew(results: Results, title: string, status: int)
    requires forall i :: 0 <= i < |results| ==> results[i].title != title
    ensures Put(results, title, status) == results + [StepResult(title, status)]
  {
    if results != [] {
      PutNew(results[1..], title, status);
    }
  }

  /** A step runs exactly when every earlier one succeeded, exited in a way it
      accepts, or is not one to stop the run. */
  lemma RunsIff(steps: seq<Step>, exits: seq<int>, i: nat)
    requires |exits| == |steps| && i < |steps|
    ensures i < RanCount(steps, exits) <==>
            forall j :: 0 <= j < i ==> exits[j] == 0 || exits[j] in steps[j].continueOn || !steps[j].stopOnFailure
  {
    hide RanCount;
    RanIff(steps, exits);
    assert i < RanCount(steps, exits) <==> Passes(steps, exits, i);
  }

  /** A title's entry takes the last exit and keeps its place; a new one goes to the end. */
  lemma {:induction false} PutSays(results: Results, title: string, status: int)
    requires forall i, j :: 0 <= i < j < |results| ==> results[i].title != results[j].title
    ensures var next := Put(results, title, status);
            && |next| == |results| + (if forall i :: 0 <= i < |results| ==> results[i].title != title then 1 else 0)
            && (forall i :: 0 <= i < |results| ==>
                  next[i] == if results[i].title == title then StepResult(title, status) else results[i])
            && (|next| > |results| ==> next[|results|] == StepResult(title, status))
  {
    if results != [] && results[0].title != title {
      PutSays(results[1..], title, status);
      assert forall i :: 0 <= i < |results[1..]| ==> results[1..][i] == results[i + 1];
    }
  }

  /** With distinct titles, the results are the exits of the steps that ran, in order. */
  lemma {:induction false} RecordedIs(steps: seq<Step>, exits: seq<int>)
    requires |exits| == |steps| && DistinctTitles(steps)
    ensures Recorded(steps, exits) ==
            seq(|steps|, i requires 0 <= i < |steps| => StepResult(steps[i].title, exits[i]))
  {
    if steps != [] {
      var n := |steps| - 1;
      RecordedIs(steps[..n], exits[..n]);
      PutNew(Recorded(steps[..n], exits[..n]), steps[n].title, exits[n]);
    }
  }

  /** What ran followed by what was skipped is the whole list, in order. */
  lemma RanThenSkipped(steps: seq<Step>, exits: seq<int>)
    requires |exits| == |steps| && DistinctTitles(steps)
    ensures RanCount(steps, exits) <= |steps|
    ensures var n := RanCount(steps, exits);
            var results := Recorded(steps[..n], exits[..n]);
            && seq(|results|, i requires 0 <= i < |results| => results[i].title) + Titles(steps[n..]) == Titles(steps)
            && forall i :: 0 <= i < n ==> results[i].status == exits[i]
  {
    RanIff(steps, exits);
    var n := RanCount(steps, exits);
    RecordedIs(steps[..n], exits[..n]);
  }

  /* ---- The errors of a run ---- */

  /** What `parse_results` answers: the run's errors, or an exception of its own. */
  datatype Parsed = Errors(errors: seq<string>) | Raised

  /** `_outcome_errors`: a run that skipped steps never succeeds. */
  function OutcomeErrors(parsed: Parsed, results: Results, skipped: seq<string>): Parsed {
    if parsed.Errors? && parsed.errors == [] && skipped != [] then
      Errors([(if results == [] then "a step" else results[|results| - 1].title) + " stopped the run"])
    else parsed
  }

  /** Only a run without errors that skipped nothing has none; the judge's own errors, and its exceptions, stand. */
  lemma OutcomeErrorsAre(parsed: Parsed, results: Results, skipped: seq<string>)
    ensures var outcome := OutcomeErrors(parsed, results, skipped);
            && (outcome == Errors([]) <==> parsed == Errors([]) && skipped == [])
            && (parsed != Errors([]) ==> outcome == parsed)
            && (parsed == Errors([]) && skipped != [] ==>
                  && outcome.Errors? && |outcome.errors| == 1
                  && (results != [] ==> results[|results| - 1].title <= outcome.errors[0]))
  {
  }

  /* ---- The restore's plan ---- */

  const EXIT_UNCHECKED := 24

  const RESTORE: seq<Step> := [
    Step("Stop Odoo", false, {}),
    Step("Restore from backup", true, {}),
    Step("Drop database", true, {}),
    Step("Create database", true, {}),
    Step("Import SQL", true, {}),
    Step("Start instance", false, {EXIT_UNCHECKED})]

  /** The titles of the steps that failed; an unchecked start is left out. */
  function FailedSteps(results: Results): seq<string> {
    if results == [] then []
    else
      var last := results[|results| - 1];
      FailedSteps(results[..|results| - 1])
      + if last.status != 0 && !(last.title == "Start instance" && last.status == EXIT_UNCHECKED)
        then [last.title] else []
  }

  lemma {:induction false} FailedNone(results: Results)
    ensures FailedSteps(results) == [] <==>
            forall i :: 0 <= i < |results| ==>
              results[i].status == 0 || (results[i].title == "Start instance" && results[i].status == EXIT_UNCHECKED)
  {
    if results != [] {
      var front := results[..|results| - 1];
      FailedNone(front);
      assert forall i :: 0 <= i < |front| ==> front[i] == results[i];
    }
  }

  /** What is done, in this order. */
  lemma RestorePlan()
    ensures Titles(RESTORE) ==
            ["Stop Odoo", "Restore from backup", "Drop database", "Create database", "Import SQL", "Start instance"]
  {
  }

  /** The failed steps, in order, each by its title. */
  lemma {:induction false} FailedStepsAre(results: Results, title: string)
    ensures title in FailedSteps(results) <==>
            exists i :: 0 <= i < |results| && results[i].title == title && results[i].status != 0
              && !(title == "Start instance" && results[i].status == 24)
  {
    if results != [] {
      var front := results[..|results| - 1];
      FailedStepsAre(front, title);
      assert forall i :: 0 <= i < |front| ==> front[i] == results[i];
    }
  }

  lemma {:induction false} FailedStepsConcat(a: Results, b: Results)
    ensures FailedSteps(a + b) == FailedSteps(a) + FailedSteps(b)
  {
    if b == [] {
      assert a + b == a;
    } else {
      assert (a + b)[..|a + b| - 1] == a + b[..|b| - 1];
      FailedStepsConcat(a, b[..|b| - 1]);
    }
  }

  lemma RestoreTitles()
    ensures DistinctTitles(RESTORE)
  {
    assert RESTORE[0].title[0] == 'S' && RESTORE[0].title[2] == 'o' && RESTORE[5].title[2] == 'a';
    assert RESTORE[1].title[0] == 'R' && RESTORE[2].title[0] == 'D' && RESTORE[3].title[0] == 'C';
    assert RESTORE[4].title[0] == 'I' && RESTORE[5].title[0] == 'S';
  }

  /** Every step from the restore to before step `i` succeeded. */
  predicate RestoredUpTo(exits: seq<int>, i: int)
    requires i <= |exits|
  {
    forall j :: 1 <= j < i ==> exits[j] == 0
  }

  lemma RestoreStops(exits: seq<int>, j: nat)
    requires |exits| == |RESTORE| && j < 6
    ensures Stops(RESTORE[j], exits[j]) <==> 1 <= j < 5 && exits[j] != 0
  {
  }

  /** The database is dropped, created or imported exactly when every step from the restore up to it succeeded. */
  lemma RestoreNeverDestroysUnrestored(exits: seq<int>)
    requires |exits| == |RESTORE|
    ensures RanCount(RESTORE, exits) <= |RESTORE|
    ensures forall i :: 1 <= i < 6 ==> (i < RanCount(RESTORE, exits) <==> RestoredUpTo(exits, i))
  {
    RanIff(RESTORE, exits);
    forall i | 1 <= i < 6 ensures Passes(RESTORE, exits, i) <==> RestoredUpTo(exits, i) {
      forall j | 0 <= j < i ensures Stops(RESTORE[j], exits[j]) <==> 1 <= j && exits[j] != 0 {
        RestoreStops(exits, j);
      }
    }
  }

  function RestoreErrors(exits: seq<int>): Parsed
    requires |exits| == |RESTORE| && RanCount(RESTORE, exits) <= |RESTORE|
  {
    var n := RanCount(RESTORE, exits);
    var results := Recorded(RESTORE[..n], exits[..n]);
    OutcomeErrors(Errors(FailedSteps(results)), results, Titles(RESTORE[n..]))
  }

  lemma StartIsLast(j: nat)
    requires j < 6
    ensures RESTORE[j].title == "Start instance" <==> j == 5
  {
    RestoreTitles();
  }

  /** The restore succeeds exactly when every step did, an unchecked start apart. */
  lemma RestoreSucceedsIff(exits: seq<int>)
    requires |exits| == |RESTORE|
    ensures RanCount(RESTORE, exits) <= |RESTORE|
    ensures RestoreErrors(exits) == Errors([]) <==>
            (forall j :: 0 <= j < 5 ==> exits[j] == 0) && exits[5] in {0, 24}
  {
    hide RanCount;
    RestoreTitles();
    RestoreNeverDestroysUnrestored(exits);
    var n := RanCount(RESTORE, exits);
    RecordedIs(RESTORE[..n], exits[..n]);
    var results := Recorded(RESTORE[..n], exits[..n]);
    FailedNone(results);
    forall j | 0 <= j < n
      ensures results[j].status == exits[j] && (results[j].title == "Start instance" <==> j == 5)
    {
      StartIsLast(j);
    }
    if n == 6 {
      assert Titles(RESTORE[n..]) == [];
      assert RestoredUpTo(exits, 5);
    } else {
      assert |Titles(RESTORE[n..])| > 0;
      assert !RestoredUpTo(exits, 5);
    }
  }

  /* ---- The log ---- */

  const MAX_CHUNKS_PER_JOB := 20_000

  datatype Source = System | Stdout | Stderr

  datatype Entry = Entry(line: string, source: Source)

  /** A row of the job's log: a line, its tokens redacted, or the marker that says the rest is discarded. */
  datatype Row = Chunk(content: string, source: Source) | CapMarker

  datatype Log = Log(rows: seq<Row>, persisted: nat, marked: bool, system: bool)

  function Chunks(redact: string -> string, entries: seq<Entry>): seq<Row> {
    seq(|entries|, i requires 0 <= i < |entries| => Chunk(redact(entries[i].line), entries[i].source))
  }

  predicate HasSystem(entries: seq<Entry>) {
    exists i :: 0 <= i < |entries| && entries[i].source == System
  }

  /** The log once a buffer was flushed: what there is room for, then the marker if there was more. */
  function Flushed(redact: string -> string, log: Log, entries: seq<Entry>): Log
    requires log.persisted <= MAX_CHUNKS_PER_JOB
  {
    if entries == [] || log.marked then log
    else
      var room := MAX_CHUNKS_PER_JOB - log.persisted;
      var kept := entries[..Min(room, |entries|)];
      var over := |entries| > room;
      Log(log.rows + Chunks(redact, kept) + (if over then [CapMarker] else []),
          log.persisted + |kept|, over, log.system || HasSystem(kept) || over)
  }

  /** What the log of a whole stream of lines holds. */
  function Stored(redact: string -> string, stream: seq<Entry>): seq<Row> {
    Chunks(redact, stream[..Min(|stream|, MAX_CHUNKS_PER_JOB)])
    + if |stream| > MAX_CHUNKS_PER_JOB then [CapMarker] else []
  }

  predicate Holds(redact: string -> string, log: Log, stream: seq<Entry>) {
    && log.rows == Stored(redact, stream)
    && log.persisted == Min(|stream|, MAX_CHUNKS_PER_JOB)
    && log.marked == (|stream| > MAX_CHUNKS_PER_JOB)
  }

  lemma FlushExtends(redact: string -> string, log: Log, stream: seq<Entry>, entries: seq<Entry>)
    requires Holds(redact, log, stream)
    ensures Holds(redact, Flushed(redact, log, entries), stream + entries)
  {
    var all := stream + entries;
    if entries == [] {
      assert all == stream;
    } else if log.marked {
      assert all[..MAX_CHUNKS_PER_JOB] == stream[..MAX_CHUNKS_PER_JOB];
    } else {
      var kept := entries[..Min(MAX_CHUNKS_PER_JOB - log.persisted, |entries|)];
      assert all[..Min(|all|, MAX_CHUNKS_PER_JOB)] == stream + kept;
      assert Chunks(redact, stream + kept) == Chunks(redact, stream) + Chunks(redact, kept);
      assert stream[..|stream|] == stream;
    }
  }

  function Joined(batches: seq<seq<Entry>>): seq<Entry> {
    if batches == [] then [] else Joined(batches[..|batches| - 1]) + batches[|batches| - 1]
  }

  const NEW_LOG := Log([], 0, false, false)

  function FlushedAll(redact: string -> string, batches: seq<seq<Entry>>): (log: Log)
    ensures log.persisted <= MAX_CHUNKS_PER_JOB
  {
    if batches == [] then NEW_LOG
    else Flushed(redact, FlushedAll(redact, batches[..|batches| - 1]), batches[|batches| - 1])
  }

  /** What the flushes return, summed. */
  function WrittenAll(redact: string -> string, batches: seq<seq<Entry>>): int {
    if batches == [] then 0
    else
      var before := FlushedAll(redact, batches[..|batches| - 1]);
      WrittenAll(redact, batches[..|batches| - 1])
      + |Flushed(redact, before, batches[|batches| - 1]).rows| - |before.rows|
  }

  /** However the stream is cut into flushes, the log is the stream's, and the counts returned are its rows. */
  lemma {:induction false} CapIgnoresBatches(redact: string -> string, batches: seq<seq<Entry>>)
    ensures Holds(redact, FlushedAll(redact, batches), Joined(batches))
    ensures WrittenAll(redact, batches) == |FlushedAll(redact, batches).rows|
  {
    if batches == [] {
      assert Stored(redact, []) == [];
    } else {
      var front := batches[..|batches| - 1];
      CapIgnoresBatches(redact, front);
      FlushExtends(redact, FlushedAll(redact, front), Joined(front), batches[|batches| - 1]);
    }
  }

  /** Row by row: the first twenty thousand lines, redacted, each with its source, and
      one marker after them if there were more. */
  lemma LogIs(redact: string -> string, batches: seq<seq<Entry>>)
    ensures var stream, rows := Joined(batches), FlushedAll(redact, batches).rows;
            && |rows| == (if |stream| > 20_000 then 20_001 else |stream|)
            && (forall i :: 0 <= i < |stream| && i < 20_000 ==> rows[i] == Chunk(redact(stream[i].line), stream[i].source))
            && (|stream| > 20_000 ==> rows[20_000] == CapMarker)
  {
    CapIgnoresBatches(redact, batches);
  }

  /** The log holds a message of the executor's own. */
  predicate HasOwnMessage(stream: seq<Entry>) {
    |stream| > 20_000 || HasSystem(stream)
  }

  lemma SystemConcat(a: seq<Entry>, b: seq<Entry>)
    ensures HasSystem(a + b) <==> HasSystem(a) || HasSystem(b)
  {
    var all := a + b;
    if i :| 0 <= i < |a| && a[i].source == System {
      assert all[i].source == System;
    }
    if i :| 0 <= i < |b| && b[i].source == System {
      assert all[|a| + i].source == System;
    }
    if i :| 0 <= i < |all| && all[i].source == System {
      assert if i < |a| then a[i].source == System else b[i - |a|].source == System;
    }
  }

  lemma SystemFollows(redact: string -> string, log: Log, stream: seq<Entry>, entries: seq<Entry>)
    requires Holds(redact, log, stream) && (log.system <==> HasOwnMessage(stream))
    ensures Flushed(redact, log, entries).system <==> HasOwnMessage(stream + entries)
  {
    hide Chunks, HasSystem, Stored;
    SystemConcat(stream, entries);
    if entries == [] {
      assert stream + entries == stream;
    } else if !log.marked && |entries| <= MAX_CHUNKS_PER_JOB - log.persisted {
      assert entries[..|entries|] == entries;
    }
  }

  /** Watchers are told of a message of the executor's own exactly when the flushes since held one, or the cap's. */
  lemma {:induction false} SystemIsOwnMessage(redact: string -> string, batches: seq<seq<Entry>>)
    ensures FlushedAll(redact, batches).system <==> HasOwnMessage(Joined(batches))
  {
    hide Chunks, Stored, Flushed;
    if batches == [] {
      assert !HasSystem([]);
    } else {
      var front := batches[..|batches| - 1];
      CapIgnoresBatches(redact, front);
      SystemIsOwnMessage(redact, front);
      SystemFollows(redact, FlushedAll(redact, front), Joined(front), batches[|batches| - 1]);
    }
  }

  /* ---- The executor's state ---- */

  lemma RecordedSnoc(steps: seq<Step>, exits: seq<int>, i: nat)
    requires |exits| == |steps| && i < |steps|
    ensures Recorded(steps[..i + 1], exits[..i + 1]) == Put(Recorded(steps[..i], exits[..i]), steps[i].title, exits[i])
  {
    hide Put;
    assert steps[..i + 1][..i] == steps[..i] && exits[..i + 1][..i] == exits[..i];
  }

  lemma StopsIs(step: Step, status: int)
    ensures Stops(step, status) <==> !(status == 0 || status in step.continueOn) && step.stopOnFailure
  {
  }

  /** `n` steps ran: nothing stopped before the last of them, and it stopped the run or was the last of all. */
  lemma RanUpTo(steps: seq<Step>, exits: seq<int>, n: nat)
    requires |exits| == |steps| && n <= |steps|
    requires n > 0 ==> Passes(steps, exits, n - 1)
    requires n == |steps| || (n > 0 && Stops(steps[n - 1], exits[n - 1]))
    ensures RanCount(steps, exits) == n
  {
    hide RanCount, Stops;
    RanIff(steps, exits);
    if n > 0 {
      assert n - 1 < RanCount(steps, exits);
    }
    if n < |steps| {
      assert !Passes(steps, exits, n);
    }
  }

  lemma ChunksSnoc(redact: string -> string, entries: seq<Entry>, i: nat)
    requires i < |entries|
    ensures Chunks(redact, entries[..i + 1]) ==
            Chunks(redact, entries[..i]) + [Chunk(redact(entries[i].line), entries[i].source)]
  {
  }

  lemma ChunksNone(redact: string -> string, entries: seq<Entry>)
    ensures Chunks(redact, entries[..0]) == [] && !HasSystem(entries[..0])
  {
  }

  lemma HasSystemSnoc(entries: seq<Entry>, i: nat)
    requires i < |entries|
    ensures HasSystem(entries[..i + 1]) <==> HasSystem(entries[..i]) || entries[i].source == System
  {
    assert entries[..i + 1] == entries[..i] + [entries[i]];
    if entries[i].source == System {
      assert entries[..i + 1][i].source == System;
    } else if HasSystem(entries[..i]) {
      var j :| 0 <= j < |entries[..i]| && entries[..i][j].source == System;
      assert entries[..i + 1][j].source == System;
    }
  }

  class Executor {
    const redact: string -> string
    var logBuffer: seq<Entry>
    var rows: seq<Row>
    var chunksPersisted: nat
    var capMarkerEmitted: bool
    var flushedSystem: bool
    var stepResults: Option<Results>

    constructor (redact: string -> string)
      ensures this.redact == redact && logBuffer == [] && stepResults == None
      ensures LogState() == NEW_LOG
    {
      this.redact := redact;
      logBuffer, rows, chunksPersisted, capMarkerEmitted, flushedSystem, stepResults := [], [], 0, false, false, None;
    }

    function LogState(): Log
      reads this
    {
      Log(rows, chunksPersisted, capMarkerEmitted, flushedSystem)
    }

    method Sys(msg: string)
      modifies this`logBuffer
      ensures logBuffer == old(logBuffer) + [Entry(msg, System)]
    {
      logBuffer := logBuffer + [Entry(msg, System)];
    }

    /** Write the buffered lines to the job's log; return how many rows were created. */
    method FlushLogs() returns (written: nat)
      requires chunksPersisted <= MAX_CHUNKS_PER_JOB
      modifies this`logBuffer, this`rows, this`chunksPersisted, this`capMarkerEmitted, this`flushedSystem
      ensures logBuffer == []
      ensures LogState() == Flushed(redact, old(LogState()), old(logBuffer))
      ensures written == |rows| - |old(rows)|
    {
      hide Chunks, HasSystem;
      if logBuffer == [] {
        return 0;
      }
      var entries := logBuffer;
      logBuffer := [];
      if capMarkerEmitted {
        return 0;
      }
      written := 0;
      var i := 0;
      ChunksNone(redact, entries);
      while i < |entries|
        invariant logBuffer == [] && 0 <= i <= |entries| && written == i == |rows| - |old(rows)|
        invariant chunksPersisted == old(chunksPersisted) + i <= MAX_CHUNKS_PER_JOB
        invariant rows == old(rows) + Chunks(redact, entries[..i]) && !capMarkerEmitted
        invariant flushedSystem == (old(flushedSystem) || HasSystem(entries[..i]))
      {
        var Entry(line, source) := entries[i];
        if source == System {
          flushedSystem := true;
        }
        if chunksPersisted >= MAX_CHUNKS_PER_JOB {
          rows := rows + [CapMarker];
          capMarkerEmitted := true;
          flushedSystem := true;
          written := written + 1;
          break;
        }
        rows := rows + [Chunk(redact(line), source)];
        chunksPersisted := chunksPersisted + 1;
        written := written + 1;
        ChunksSnoc(redact, entries, i);
        HasSystemSnoc(entries, i);
        i := i + 1;
      }
      assert entries[..|entries|] == entries;
    }

    /** Run the steps; `exits` are what the host answers to each that runs. */
    method RunSteps(commands: seq<Step>, exits: seq<int>) returns (results: Results, skipped: seq<string>)
      requires |exits| == |commands|
      modifies this`stepResults
      ensures RanCount(commands, exits) <= |commands|
      ensures var n := RanCount(commands, exits);
              results == Recorded(commands[..n], exits[..n]) && skipped == Titles(commands[n..])
      ensures stepResults == Some(results)
    {
      hide RanCount, Stops, Put;
      results := [];
      stepResults := Some(results);
      RanIff(commands, exits);
      for index := 0 to |commands|
        invariant Passes(commands, exits, index)
        invariant results == Recorded(commands[..index], exits[..index]) && stepResults == Some(results)
      {
        var item, status := commands[index], exits[index];
        RecordedSnoc(commands, exits, index);
        StopsIs(item, status);
        results := Put(results, item.title, status);
        stepResults := Some(results);
        if status == 0 {
          continue;
        }
        if status in item.continueOn {
          continue;
        }
        if item.stopOnFailure {
          RanUpTo(commands, exits, index + 1);
          return results, Titles(commands[index + 1..]);
        }
      }
      RanUpTo(commands, exits, |commands|);
      assert commands[..|commands|] == commands && exits[..|commands|] == exits;
      skipped := [];
    }
  }
}
