/** `restore_space.py`: the bound on an archive about to be fetched, and the check
    of one that is there, as arithmetic on the bytes two disks have free. */
module RestoreSpace {
  import opened Numbers

  const GIB := 1_073_741_824
  const RESERVE_BYTES := 5 * GIB
  const UNPACK_FACTOR := 2

  /** Bytes free where the job works and where Docker keeps the instances, and whether both are one disk. */
  datatype Disks = Disks(job: int, docker: int, shared: bool) {
    function Free(): int {
      if job < docker then job else docker
    }
  }

  /** The floor of a division by a positive number, as Python's `//`. */
  function FloorDiv(a: int, b: int): int
    requires b > 0
  {
    a / b
  }

  function RoomNeeded(archive: int, copies: int): int {
    RESERVE_BYTES + archive * (copies + UNPACK_FACTOR)
  }

  function LargestArchive(disks: Disks, onJobDisk: int): int
    requires onJobDisk >= 1
  {
    if disks.shared then Max(0, FloorDiv(disks.Free() - RESERVE_BYTES, onJobDisk + UNPACK_FACTOR))
    else Max(0, Min(FloorDiv(disks.job, onJobDisk), FloorDiv(disks.docker - RESERVE_BYTES, UNPACK_FACTOR)))
  }

  /** Which check refuses the archive, if any does: the messages are not kept. */
  datatype Refusal = Fits | NoRoom | NoRoomForCopy | NoRoomToUnpack

  function RoomRefusal(disks: Disks, archive: int, copies: int): Refusal {
    if disks.shared then
      if disks.Free() < RoomNeeded(archive, copies) then NoRoom else Fits
    else if disks.job < archive * copies then NoRoomForCopy
    else if disks.docker < RESERVE_BYTES + archive * UNPACK_FACTOR then NoRoomToUnpack
    else Fits
  }

  /** A number is at most a floor exactly when its product fits. */
  lemma FloorBounds(a: int, x: int, k: int)
    requires k > 0
    ensures x <= FloorDiv(a, k) <==> x * k <= a
  {
    var q := a / k;
    assert a == q * k + a % k && 0 <= a % k < k;
    if x <= q {
      assert x * k <= q * k;
    } else {
      assert x * k >= (q + 1) * k == q * k + k;
    }
  }

  /** What a download may bring, and what the check of an archive accepts, are one rule. */
  lemma AdmissionIsOneRule(disks: Disks, archive: int, copies: int)
    requires archive >= 1 && copies >= 1
    ensures archive <= LargestArchive(disks, copies) <==> RoomRefusal(disks, archive, copies) == Fits
  {
    FloorBounds(disks.Free() - RESERVE_BYTES, archive, copies + UNPACK_FACTOR);
    FloorBounds(disks.job, archive, copies);
    FloorBounds(disks.docker - RESERVE_BYTES, archive, UNPACK_FACTOR);
  }

  /** The disks once an upload of `archive` bytes landed on the job's. */
  function Landed(disks: Disks, archive: int): Disks {
    if disks.shared then disks.(job := disks.job - archive, docker := disks.docker - archive)
    else disks.(job := disks.job - archive)
  }

  /** An upload admitted before it lands is accepted after, and no other: it was
      to take its own room and that of a copy. */
  lemma LandingChangesNoAnswer(disks: Disks, archive: int)
    requires archive >= 1
    ensures archive <= LargestArchive(disks, 2) <==> RoomRefusal(Landed(disks, archive), archive, 1) == Fits
  {
    AdmissionIsOneRule(disks, archive, 2);
  }

  /** An empty archive is always within the bound; the check agrees exactly when
      the reserve alone fits, and no disk is reported below empty. */
  lemma EmptyArchiveAgreesIff(disks: Disks, copies: int)
    requires copies >= 1
    ensures (0 <= LargestArchive(disks, copies) <==> RoomRefusal(disks, 0, copies) == Fits) <==>
            if disks.shared then disks.Free() >= RESERVE_BYTES else disks.job >= 0 && disks.docker >= RESERVE_BYTES
  {
  }

  /** In bytes: five gibibytes stay free, and an archive takes twice its size where
      it is unpacked, and its size for each copy where those land. */
  lemma RoomIs(disks: Disks, archive: int, copies: int)
    ensures RoomRefusal(disks, archive, copies) == Fits <==>
            if disks.shared then
              && disks.job >= 5_368_709_120 + archive * copies + 2 * archive
              && disks.docker >= 5_368_709_120 + archive * copies + 2 * archive
            else disks.job >= archive * copies && disks.docker >= 5_368_709_120 + 2 * archive
    ensures RoomRefusal(disks, archive, copies) == NoRoomForCopy <==> !disks.shared && disks.job < archive * copies
  {
    assert archive * (copies + 2) == archive * copies + archive * 2;
  }
}
