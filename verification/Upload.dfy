/** The chunked restore upload: parts that name the offset they continue from. */
module Upload {
  import opened Text

  type Bytes = seq<bv8>

  const BLOCK_BYTES := 65_536

  datatype Reply =
    | Size(size: nat)          // 200: the part was appended
    | Resent(size: nat)        // 200: it was there already
    | OutOfOrder(size: nat)    // 409
    | TooLarge                 // 413
    | UnknownUpload            // 404
    | NoChunk                  // 400
    | InvalidOffset            // 400
    | ServerError              // 500
    | NoFile                   // 400, on finish
    | Incomplete               // 400, on finish
    | Accepted                 // 200, on finish: the restore is enqueued

  /** What the disk does while a part is written: nothing wrong, an error once
      `n` bytes of the part reached the file, or an error as an oversize is undone. */
  datatype Disk = Sound | FailsAfter(n: nat) | FailsTruncating

  /** One part, as a request brings it: no offset when it is not a number. */
  datatype Part = Part(offset: Option<int>, chunk: Option<Bytes>, disk: Disk)

  /** What a part may leave of a staged file, and what it is answered. */
  ghost predicate PartLeaves(file: Option<Bytes>, p: Part, limit: nat, next: Option<Bytes>, reply: Reply) {
    if file.None? then next == None && reply == UnknownUpload
    else
      var size := |file.value|;
      if p.chunk.None? then next == file && reply == NoChunk
      else if p.offset.None? then next == file && reply == InvalidOffset
      else if p.offset.value < size then next == file && reply == Resent(size)
      else if p.offset.value > size then next == file && reply == OutOfOrder(size)
      else
        var whole := file.value + p.chunk.value;
        && next.Some?
        && file.value <= next.value <= whole
        && (|next.value| <= limit || next == file)
        && match reply
           case Size(n) => next.value == whole && n == |whole| && (|whole| <= limit || p.chunk.value == [])
           case TooLarge => next == file && |whole| > limit
           case ServerError => p.disk != Sound
           case _ => false
  }

  class Staged {
    var file: Option<Bytes>

    /** `restore_upload_begin` */
    constructor ()
      ensures file == Some([])
    {
      file := Some([]);
    }

    /** `restore_upload_part` */
    method AppendPart(p: Part, limit: nat) returns (reply: Reply)
      modifies this
      ensures PartLeaves(old(file), p, limit, file, reply)
      ensures p.disk == Sound ==> reply != ServerError
    {
      if file.None? {
        return UnknownUpload;
      }
      if p.chunk.None? {
        return NoChunk;
      }
      if p.offset.None? {
        return InvalidOffset;
      }
      var size := |file.value|;
      var offset := p.offset.value;
      if offset < size {
        return Resent(size);
      }
      if offset > size {
        return OutOfOrder(size);
      }
      var chunk := p.chunk.value;
      var at := 0;
      ghost var staged := file.value;
      assert staged + chunk[..0] == staged;
      while at < |chunk|
        invariant 0 <= at <= |chunk| && size == |staged| + at
        invariant file == Some(staged + chunk[..at])
        invariant at > 0 ==> size <= limit
      {
        var end := if at + BLOCK_BYTES < |chunk| then at + BLOCK_BYTES else |chunk|;
        size := size + end - at;
        if size > limit {
          if p.disk == FailsTruncating {
            return ServerError;
          }
          file := Some(file.value[..offset]);
          assert file.value == staged;
          return TooLarge;
        }
        if p.disk.FailsAfter? && p.disk.n < end {
          var reached := if p.disk.n < at then at else p.disk.n;
          file := Some(file.value + chunk[at..reached]);
          assert file.value == staged + chunk[..reached];
          return ServerError;
        }
        file := Some(file.value + chunk[at..end]);
        assert file.value == staged + chunk[..end];
        at := end;
      }
      assert chunk[..|chunk|] == chunk;
      reply := Size(size);
    }

    /** `restore_upload_finish`: no total when it is not a number; `enqueued` is
        whether the restore could be asked for. */
    method Finish(total: Option<int>, enqueued: bool) returns (reply: Reply)
      modifies this
      ensures reply == Finished(old(file), total, enqueued)
      ensures file == if reply == Accepted then old(file) else None
    {
      if file.None? {
        return UnknownUpload;
      }
      var size := |file.value|;
      if size == 0 {
        file := None;
        return NoFile;
      }
      if total.Some? && total.value != size {
        file := None;
        return Incomplete;
      }
      if !enqueued {
        file := None;
        return ServerError;
      }
      reply := Accepted;
    }
  }

  function Finished(file: Option<Bytes>, total: Option<int>, enqueued: bool): Reply {
    if file.None? then UnknownUpload
    else if file.value == [] then NoFile
    else if total.Some? && total.value != |file.value| then Incomplete
    else if !enqueued then ServerError
    else Accepted
  }

  /** What finishing is answered, of any staged file: the restore is asked for exactly
      when the file is not empty and no total was given, or it is the file's size. */
  lemma FinishSays(file: Option<Bytes>, total: Option<int>, enqueued: bool)
    ensures var reply := Finished(file, total, enqueued);
            var complete := file.Some? && file.value != [] && (total == None || total == Some(|file.value|));
            && (reply == Accepted <==> complete && enqueued)
            && (reply == ServerError <==> complete && !enqueued)
            && (reply == UnknownUpload <==> file == None)
            && (reply == NoFile <==> file == Some([]))
            && (reply == Incomplete <==> file.Some? && file.value != [] && total.Some? && total != Some(|file.value|))
  {
  }

  /* ---- A client that sends an archive ---- */

  /** The part carries the archive's bytes from the offset it names. */
  predicate Carries(p: Part, archive: Bytes) {
    p.offset.Some? && p.chunk.Some? ==>
      var at := p.offset.value;
      0 <= at ==> at + |p.chunk.value| <= |archive| && p.chunk.value == archive[at..at + |p.chunk.value|]
  }

  /** The states of a staged file, part after part, whatever is lost, repeated, reordered or interrupted. */
  ghost predicate Trace(files: seq<Option<Bytes>>, parts: seq<Part>, replies: seq<Reply>, limit: nat) {
    && |files| == |parts| + 1 && |replies| == |parts|
    && files[0] == Some([])
    && forall i :: 0 <= i < |parts| ==> PartLeaves(files[i], parts[i], limit, files[i + 1], replies[i])
  }

  ghost predicate Holds(file: Option<Bytes>, archive: Bytes, limit: nat) {
    file.Some? && file.value <= archive && |file.value| <= limit
  }

  lemma PartKeeps(file: Option<Bytes>, p: Part, archive: Bytes, limit: nat, next: Option<Bytes>, reply: Reply)
    requires Holds(file, archive, limit) && Carries(p, archive) && PartLeaves(file, p, limit, next, reply)
    ensures Holds(next, archive, limit) && |file.value| <= |next.value|
    ensures reply.Size? || reply.Resent? || reply.OutOfOrder? ==> reply.size == |next.value|
  {
    if p.offset == Some(|file.value|) && p.chunk.Some? {
      var size := |file.value|;
      assert archive[..size] + archive[size..size + |p.chunk.value|] == archive[..size + |p.chunk.value|];
      assert file.value == archive[..size];
    }
  }

  /** The staged file is always a prefix of the archive within the limit, it never
      shrinks, and every size answered is its own. */
  lemma {:induction false} StagedIsPrefix(
    files: seq<Option<Bytes>>, parts: seq<Part>, replies: seq<Reply>, archive: Bytes, limit: nat, i: nat)
    requires Trace(files, parts, replies, limit) && i <= |parts|
    requires forall j :: 0 <= j < |parts| ==> Carries(parts[j], archive)
    ensures Holds(files[i], archive, limit)
    ensures i > 0 ==> files[i - 1].Some? && |files[i - 1].value| <= |files[i].value|
    ensures i > 0 && (replies[i - 1].Size? || replies[i - 1].Resent? || replies[i - 1].OutOfOrder?) ==>
              replies[i - 1].size == |files[i].value|
  {
    if i > 0 {
      StagedIsPrefix(files, parts, replies, archive, limit, i - 1);
      PartKeeps(files[i - 1], parts[i - 1], archive, limit, files[i], replies[i - 1]);
    }
  }

  /** With the archive's size as the total, finish accepts the whole archive and nothing else. */
  lemma FinishTakesTheWhole(file: Option<Bytes>, archive: Bytes, limit: nat, enqueued: bool)
    requires Holds(file, archive, limit)
    ensures Finished(file, Some(|archive|), enqueued) == Accepted <==> enqueued && archive != [] && file == Some(archive)
  {
    if |file.value| == |archive| {
      assert file.value == archive;
    }
  }

  /** Without a total it accepts any part of it that is not empty. */
  lemma FinishWithoutTotalTakesAnyPrefix(archive: Bytes, n: nat)
    requires 0 < n < |archive|
    ensures Finished(Some(archive[..n]), None, true) == Accepted && archive[..n] != archive
  {
    assert |archive[..n]| == n;
  }

  /** The next part from the size last answered, on a sound disk and within the
      limit, moves the file on: a client that resumes from what it is told gets through. */
  lemma ResumingProgresses(file: Bytes, archive: Bytes, n: nat, limit: nat, next: Option<Bytes>, reply: Reply)
    requires file <= archive && |archive| <= limit && |file| + n <= |archive|
    requires var p := Part(Some(|file|), Some(archive[|file|..|file| + n]), Sound);
             PartLeaves(Some(file), p, limit, next, reply)
    ensures next == Some(archive[..|file| + n]) && reply == Size(|file| + n)
  {
    assert file + archive[|file|..|file| + n] == archive[..|file| + n];
  }
}
