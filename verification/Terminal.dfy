/** The terminal's output buffer: a trimmed list that pollers read by sequence number. */
module Terminal {
  type Bytes = seq<bv8>

  const CAP := 10_000
  const KEEP := 5_000

  datatype Chunk = Chunk(number: nat, data: Bytes)

  /** A buffer of the last chunks of a stream, numbered from one. */
  ghost predicate TailOf(buffer: seq<Chunk>, stream: seq<Bytes>) {
    && |buffer| <= |stream|
    && forall i :: 0 <= i < |buffer| ==>
         buffer[i] == Chunk(|stream| - |buffer| + i + 1, stream[|stream| - |buffer| + i])
  }

  /** At most ten thousand chunks, and the last five thousand of them, or all, at least. */
  ghost predicate Buffers(buffer: seq<Chunk>, stream: seq<Bytes>) {
    && TailOf(buffer, stream)
    && |buffer| <= 10_000
    && (|buffer| >= 5_000 || |buffer| == |stream|)
  }

  function Appended(buffer: seq<Chunk>, number: nat, data: Bytes): seq<Chunk> {
    var grown := buffer + [Chunk(number, data)];
    if |grown| > CAP then grown[|grown| - KEEP..] else grown
  }

  /** `[(s, d) for s, d in buffer if s > after]` */
  function ReadFrom(buffer: seq<Chunk>, after: int): seq<Chunk> {
    if buffer == [] then []
    else (if buffer[0].number > after then [buffer[0]] else []) + ReadFrom(buffer[1..], after)
  }

  function Data(chunks: seq<Chunk>): seq<Bytes> {
    seq(|chunks|, i requires 0 <= i < |chunks| => chunks[i].data)
  }

  lemma ReadTakes(buffer: seq<Chunk>, i: nat, after: int)
    requires i <= |buffer|
    ensures ReadFrom(buffer[i..], after) ==
            if i == |buffer| then []
            else (if buffer[i].number > after then [buffer[i]] else []) + ReadFrom(buffer[i + 1..], after)
  {
    assert i < |buffer| ==> buffer[i..][1..] == buffer[i + 1..];
  }

  class Session {
    var outputBuffer: seq<Chunk>
    var outputSeq: nat
    ghost var stream: seq<Bytes>

    ghost predicate Valid()
      reads this
    {
      outputSeq == |stream| && Buffers(outputBuffer, stream)
    }

    constructor ()
      ensures Valid() && stream == [] && outputBuffer == []
    {
      outputBuffer, outputSeq, stream := [], 0, [];
    }

    method AppendOutput(data: Bytes)
      requires Valid()
      modifies this
      ensures Valid() && stream == old(stream) + [data]
      ensures outputBuffer == Appended(old(outputBuffer), |stream|, data)
    {
      outputSeq := outputSeq + 1;
      outputBuffer := outputBuffer + [Chunk(outputSeq, data)];
      if |outputBuffer| > CAP {
        outputBuffer := outputBuffer[|outputBuffer| - KEEP..];
      }
      stream := stream + [data];
    }

    /** The chunks after a number: all of the stream's, when the reader is no further behind than the buffer. */
    method ReadOutput(after: nat) returns (chunks: seq<Chunk>)
      requires Valid()
      ensures chunks == ReadFrom(outputBuffer, after)
      ensures after <= |stream| ==>
                (Data(chunks) == stream[after..] <==> |stream| - after <= |outputBuffer|)
    {
      hide TailOf, Data, ReadFrom;
      chunks := [];
      for i := 0 to |outputBuffer|
        invariant chunks + ReadFrom(outputBuffer[i..], after) == ReadFrom(outputBuffer, after)
      {
        ReadTakes(outputBuffer, i, after);
        if outputBuffer[i].number > after {
          chunks := chunks + [outputBuffer[i]];
        }
      }
      ReadTakes(outputBuffer, |outputBuffer|, after);
      if after <= |stream| {
        ReadIsSuffix(outputBuffer, stream, after);
      }
    }
  }

  lemma {:induction false} ReadDrops(buffer: seq<Chunk>, stream: seq<Bytes>, after: nat)
    requires TailOf(buffer, stream)
    ensures var first := |stream| - |buffer|;
            ReadFrom(buffer, after) ==
            if after <= first then buffer else if after <= |stream| then buffer[after - first..] else []
  {
    if buffer != [] {
      ReadDrops(buffer[1..], stream, after);
    }
  }

  /** A poll sees every chunk after its number exactly when the buffer still holds them all. */
  lemma ReadIsSuffix(buffer: seq<Chunk>, stream: seq<Bytes>, after: nat)
    requires TailOf(buffer, stream) && after <= |stream|
    ensures Data(ReadFrom(buffer, after)) == stream[after..] <==> |stream| - after <= |buffer|
    ensures |stream| - after <= |buffer| ==>
              var chunks := ReadFrom(buffer, after);
              |chunks| == |stream| - after && (chunks != [] ==> chunks[|chunks| - 1].number == |stream|)
  {
    ReadDrops(buffer, stream, after);
    var chunks := ReadFrom(buffer, after);
    if |stream| - after <= |buffer| {
      assert Data(chunks) == stream[after..];
    } else {
      assert |Data(chunks)| < |stream[after..]|;
    }
  }

  /* ---- A poller ---- */

  datatype Event = Append(data: Bytes) | Poll

  /** The buffer, and what one poller has: the number it asks after and the chunks it was given. */
  datatype System = System(buffer: seq<Chunk>, stream: seq<Bytes>, after: nat, got: seq<Bytes>)

  const QUIET := System([], [], 0, [])

  function Step(s: System, e: Event): System {
    match e
    case Append(data) => s.(buffer := Appended(s.buffer, |s.stream| + 1, data), stream := s.stream + [data])
    case Poll =>
      var chunks := ReadFrom(s.buffer, s.after);
      s.(after := if chunks == [] then s.after else chunks[|chunks| - 1].number, got := s.got + Data(chunks))
  }

  function Play(s: System, events: seq<Event>): System
    decreases events
  {
    if events == [] then s else Play(Step(s, events[0]), events[1..])
  }

  /** At every poll the reader is at most five thousand chunks behind. */
  predicate KeepsUp(s: System, events: seq<Event>)
    decreases events
  {
    events != [] ==>
      && (events[0].Poll? ==> |s.stream| - s.after <= 5_000)
      && KeepsUp(Step(s, events[0]), events[1..])
  }

  ghost predicate InStep(s: System) {
    Buffers(s.buffer, s.stream) && s.after <= |s.stream| && s.got == s.stream[..s.after]
  }

  lemma AppendBuffers(buffer: seq<Chunk>, stream: seq<Bytes>, data: Bytes)
    requires Buffers(buffer, stream)
    ensures Buffers(Appended(buffer, |stream| + 1, data), stream + [data])
  {
    var grown, longer := buffer + [Chunk(|stream| + 1, data)], stream + [data];
    assert TailOf(grown, longer);
    var next := Appended(buffer, |stream| + 1, data);
    if |grown| > CAP {
      assert forall i :: 0 <= i < |next| ==> next[i] == grown[|grown| - KEEP + i];
    }
  }

  lemma StepKeeps(s: System, e: Event)
    requires InStep(s) && (e.Poll? ==> |s.stream| - s.after <= 5_000)
    ensures InStep(Step(s, e))
    ensures e.Poll? ==> Step(s, e).after == |s.stream|
  {
    hide TailOf, Appended, ReadFrom, Data;
    match e
    case Append(data) =>
      AppendBuffers(s.buffer, s.stream, data);
      assert (s.stream + [data])[..s.after] == s.stream[..s.after];
    case Poll =>
      ReadIsSuffix(s.buffer, s.stream, s.after);
      assert s.stream[..s.after] + s.stream[s.after..] == s.stream;
      assert s.stream[..|s.stream|] == s.stream;
  }

  /** However appends and polls interleave, a reader that keeps up has the stream,
      without a gap or a repetition, up to the number it asks after. */
  lemma {:induction false} PollingLosesNothing(s: System, events: seq<Event>)
    requires InStep(s) && KeepsUp(s, events)
    ensures InStep(Play(s, events))
    decreases events
  {
    if events != [] {
      StepKeeps(s, events[0]);
      PollingLosesNothing(Step(s, events[0]), events[1..]);
    }
  }

  /** From the start of a session. */
  lemma PollerHasTheStream(events: seq<Event>)
    requires KeepsUp(QUIET, events)
    ensures var s := Play(QUIET, events); s.after <= |s.stream| && s.got == s.stream[..s.after] && Buffers(s.buffer, s.stream)
  {
    PollingLosesNothing(QUIET, events);
  }
}
