/**
 The checkpoint slots of a journal file: how a process reads them, and how it writes soft and hard
 checkpoints. Slots 0 and 1 are one pair, 2 and 3 the other. One pair holds the last hard
 checkpoint twice, the other holds alternating soft checkpoints, negated.
 */
module Checkpoint {
  import opened Bytes
  import opened Disk

  const INT64_MIN: int := -0x8000_0000_0000_0000

  /** Negation of an `int64_t` that wraps instead of overflowing. */
  function Neg(x: int): int {
    if x == INT64_MIN then INT64_MIN else -x
  }

  /** A pair or slot number. */
  type Index = i: int | 0 <= i < 2

  /** What one process remembers of the checkpoints. */
  datatype Local = Local(
    hardIndex: Index,
    softIndex: Index,
    checkpoint: int,
    hardCheckpoint: int
  )

  const FRESH := Local(0, 0, HEADER_SIZE, HEADER_SIZE)

  // ---------- reading ----------

  function ReadHard(j: Local, slots: seq<int>, i: Index): Local
    requires |slots| == 4
  {
    if slots[2 * i] == slots[2 * i + 1] && slots[2 * i] >= j.hardCheckpoint
    then j.(hardCheckpoint := slots[2 * i], hardIndex := i)
    else j
  }

  /** `fileSize` is negative when the size does not limit the soft checkpoints. */
  function ReadSoft(j: Local, slots: seq<int>, fileSize: int, i: Index, k: Index): Local
    requires |slots| == 4
  {
    var soft := Neg(slots[2 * i + k]);
    if soft >= j.checkpoint && (fileSize < 0 || soft <= fileSize)
    then j.(checkpoint := soft, hardIndex := 1 - i, softIndex := k)
    else j
  }

  function ReadPair(j: Local, slots: seq<int>, fileSize: int, i: Index): Local
    requires |slots| == 4
  {
    ReadSoft(ReadSoft(ReadHard(j, slots, i), slots, fileSize, i, 0), slots, fileSize, i, 1)
  }

  function ReadCheckpoint(j: Local, slots: seq<int>, fileSize: int): Local
    requires |slots| == 4
  {
    var r := ReadPair(ReadPair(j, slots, fileSize, 0), slots, fileSize, 1);
    if r.hardCheckpoint > r.checkpoint then r.(checkpoint := r.hardCheckpoint) else r
  }

  // ---------- writing ----------

  function SoftSlot(j: Local): (k: nat)
    ensures k < 4
  {
    2 * (1 - j.hardIndex) + (1 - j.softIndex)
  }

  function SoftOps(j: Local, position: int): (ops: seq<Op>)
  {
    if j.checkpoint >= position then []
    else [WriteSlot(SoftSlot(j), Neg(position))]
  }

  function SoftLocal(j: Local, position: int): Local {
    if j.checkpoint >= position then j
    else j.(softIndex := 1 - j.softIndex, checkpoint := position)
  }

  function HardOps(j: Local, position: int): (ops: seq<Op>)
  {
    if j.hardCheckpoint >= position then []
    else
      [ WriteSlot(2 * (1 - j.hardIndex), position),
        Sync,
        WriteSlot(2 * (1 - j.hardIndex) + 1, position),
        DataSync ]
  }

  function HardLocal(j: Local, position: int): Local {
    if j.hardCheckpoint >= position then j
    else j.(hardIndex := 1 - j.hardIndex, checkpoint := position, hardCheckpoint := position)
  }

  function FlushOps(offset: nat, buffer: seq<byte>): (ops: seq<Op>)
    requires HEADER_SIZE <= offset
  {
    if buffer == [] then [] else [WriteData(offset, buffer)]
  }

  /** Repair by a writer opening the file: a soft checkpoint beyond the end of the file is replaced by the recovered one. */
  function RepairOps(slots: seq<int>, size: nat, checkpoint: int, k: nat): (ops: seq<Op>)
    requires |slots| == 4 && k <= 4
  {
    if k == 0 then []
    else
      RepairOps(slots, size, checkpoint, k - 1) +
      (if Neg(slots[k - 1]) > size then [WriteSlot(k - 1, Neg(checkpoint)), DataSync] else [])
  }

  datatype Recovery = NoRecovery | Overwrite

  datatype OpenError = CheckpointBiggerThanFile | AbortedTransaction

  datatype OpenResult = Opened(local: Local) | Refused(error: OpenError)

  /** What opening a file for writing decides, before it repairs anything. */
  function OpenLocal(slots: seq<int>, size: nat, recovery: Recovery): OpenResult
    requires |slots| == 4
  {
    var j := ReadCheckpoint(FRESH, slots, size);
    if size < j.checkpoint then Refused(CheckpointBiggerThanFile)
    else if size > j.checkpoint && recovery != Overwrite then Refused(AbortedTransaction)
    else Opened(j)
  }

  // ---------- what reading finds ----------

  /** A hard checkpoint is a value that both slots of a pair hold. */
  predicate HardIn(slots: seq<int>, v: int)
    requires |slots| == 4
  {
    v == slots[0] == slots[1] || v == slots[2] == slots[3]
  }

  /** A soft checkpoint is a value that some slot holds negated; it must fit in a file of known size. */
  predicate SoftIn(slots: seq<int>, fileSize: int, v: int)
    requires |slots| == 4
  {
    && (v == Neg(slots[0]) || v == Neg(slots[1]) || v == Neg(slots[2]) || v == Neg(slots[3]))
    && (fileSize < 0 || v <= fileSize)
  }

  /** The largest of what is known already and the hard checkpoints. */
  ghost predicate NewestHard(slots: seq<int>, known: int, h: int)
    requires |slots| == 4
  {
    known <= h && (h == known || HardIn(slots, h)) && forall v :: HardIn(slots, v) ==> v <= h
  }

  /** The largest of what is known already, the hard checkpoint and the soft checkpoints that fit. */
  ghost predicate NewestOf(slots: seq<int>, fileSize: int, known: int, h: int, c: int)
    requires |slots| == 4
  {
    && known <= c && h <= c && (c == known || c == h || SoftIn(slots, fileSize, c))
    && forall v :: SoftIn(slots, fileSize, v) ==> v <= c
  }

  /** Reading the slots finds the newest hard checkpoint, and the newest checkpoint of all. */
  lemma ReadsNewest(j: Local, slots: seq<int>, fileSize: int)
    requires |slots| == 4
    ensures var r := ReadCheckpoint(j, slots, fileSize);
            && NewestHard(slots, j.hardCheckpoint, r.hardCheckpoint)
            && NewestOf(slots, fileSize, j.checkpoint, r.hardCheckpoint, r.checkpoint)
  {
  }

  /** The checkpoint that opening a file finds in its slots. */
  ghost predicate Recovered(slots: seq<int>, size: nat, c: int)
    requires |slots| == 4
  {
    exists h :: NewestHard(slots, HEADER_SIZE, h) && NewestOf(slots, size, HEADER_SIZE, h, c)
  }

  lemma RecoveredOnce(slots: seq<int>, size: nat, c: int)
    requires |slots| == 4 && Recovered(slots, size, c)
    ensures c == ReadCheckpoint(FRESH, slots, size).checkpoint
  {
    ReadsNewest(FRESH, slots, size);
  }

  /**
   Opening recovers one checkpoint `c`. A file shorter than that is refused; a longer one holds an
   aborted transaction and is refused unless the caller asked to overwrite it.
   */
  ghost predicate OpensAt(slots: seq<int>, size: nat, recovery: Recovery, r: OpenResult, c: int)
    requires |slots| == 4
  {
    && (r == Refused(CheckpointBiggerThanFile) <==> size < c)
    && (r == Refused(AbortedTransaction) <==> size > c && recovery != Overwrite)
    && (r.Opened? ==> r.local.checkpoint == c)
  }

  lemma OpensAtRecovered(slots: seq<int>, size: nat, recovery: Recovery)
    requires |slots| == 4
    ensures forall c :: Recovered(slots, size, c) ==> OpensAt(slots, size, recovery, OpenLocal(slots, size, recovery), c)
    ensures Recovered(slots, size, ReadCheckpoint(FRESH, slots, size).checkpoint)
  {
    ReadsNewest(FRESH, slots, size);
    forall c | Recovered(slots, size, c) ensures c == ReadCheckpoint(FRESH, slots, size).checkpoint {
      RecoveredOnce(slots, size, c);
    }
  }

  // ---------- the journal object ----------

  class WritableJournal {
    const file: File
    var hardIndex: Index
    var softIndex: Index
    var checkpoint: int
    var hardCheckpoint: int
    /** Bytes written but not yet handed to the file, and where they go. */
    var buffer: seq<byte>
    var offset: nat

    ghost predicate Valid()
      reads this, file
    {
      file.Valid() && HEADER_SIZE <= offset
    }

    function Memory(): Local
      reads this
    {
      Local(hardIndex, softIndex, checkpoint, hardCheckpoint)
    }

    constructor Unread(f: File)
      requires f.Valid()
      ensures Valid() && file == f && Memory() == FRESH && buffer == [] && offset == HEADER_SIZE
    {
      file := f;
      hardIndex, softIndex := 0, 0;
      checkpoint, hardCheckpoint := HEADER_SIZE, HEADER_SIZE;
      buffer, offset := [], HEADER_SIZE;
    }

    method ReadSlots(slots: seq<int>, fileSize: int)
      requires |slots| == 4
      modifies `hardIndex, `softIndex, `checkpoint, `hardCheckpoint
      ensures Memory() == ReadCheckpoint(old(Memory()), slots, fileSize)
    {
      ghost var m0 := Memory();
      var i: int := 0;
      while i < 2
        modifies `hardIndex, `softIndex, `checkpoint, `hardCheckpoint
        invariant 0 <= i <= 2
        invariant i == 0 ==> Memory() == m0
        invariant i == 1 ==> Memory() == ReadPair(m0, slots, fileSize, 0)
        invariant i == 2 ==> Memory() == ReadPair(ReadPair(m0, slots, fileSize, 0), slots, fileSize, 1)
      {
        ghost var m := Memory();
        if slots[2 * i] == slots[2 * i + 1] && slots[2 * i] >= hardCheckpoint {
          hardCheckpoint := slots[2 * i];
          hardIndex := i;
        }
        ghost var h := ReadHard(m, slots, i);
        assert Memory() == h;
        var k: int := 0;
        while k < 2
          modifies `hardIndex, `softIndex, `checkpoint
          invariant 0 <= k <= 2
          invariant k == 0 ==> Memory() == h
          invariant k == 1 ==> Memory() == ReadSoft(h, slots, fileSize, i, 0)
          invariant k == 2 ==> Memory() == ReadSoft(ReadSoft(h, slots, fileSize, i, 0), slots, fileSize, i, 1)
        {
          var soft := Neg(slots[2 * i + k]);
          if soft >= checkpoint && (fileSize < 0 || soft <= fileSize) {
            checkpoint := soft;
            hardIndex := 1 - i;
            softIndex := k;
          }
          k := k + 1;
        }
        i := i + 1;
      }
      if hardCheckpoint > checkpoint {
        checkpoint := hardCheckpoint;
      }
    }

    /** Pull: how far the checkpoint moved. */
    method Pull() returns (moved: int)
      requires Valid()
      modifies `hardIndex, `softIndex, `checkpoint, `hardCheckpoint
      ensures Valid()
      ensures Memory() == ReadCheckpoint(old(Memory()), file.disk.slots, -1)
      ensures NewestHard(file.disk.slots, old(hardCheckpoint), hardCheckpoint)
      ensures NewestOf(file.disk.slots, -1, old(checkpoint), hardCheckpoint, checkpoint)
      ensures moved == checkpoint - old(checkpoint)
    {
      var before := checkpoint;
      ReadsNewest(Memory(), file.disk.slots, -1);
      ReadSlots(file.disk.slots, -1);
      moved := checkpoint - before;
    }

    method Write(bytes: seq<byte>)
      requires Valid()
      modifies `buffer
      ensures Valid()
      ensures buffer == old(buffer) + bytes
    {
      buffer := buffer + bytes;
    }

    method Flush()
      requires Valid()
      modifies file, `buffer, `offset
      ensures Valid()
      ensures file.trail == old(file.trail) + FlushOps(old(offset), old(buffer))
      ensures buffer == [] && offset == old(offset) + |old(buffer)|
    {
      if buffer != [] {
        file.Do(WriteData(offset, buffer));
        offset := offset + |buffer|;
        buffer := [];
      }
    }

    method SoftCheckpointAt(position: int)
      requires Valid()
      modifies this, file
      ensures Valid()
      ensures Memory() == SoftLocal(old(Memory()), position)
      ensures old(checkpoint) >= position ==>
                file.trail == old(file.trail) && buffer == old(buffer) && offset == old(offset)
      ensures old(checkpoint) < position ==>
                && file.trail == old(file.trail) + FlushOps(old(offset), old(buffer)) + SoftOps(old(Memory()), position)
                && buffer == []
                && offset == old(offset) + |old(buffer)|
    {
      if checkpoint >= position {
        return;
      }
      Flush();
      softIndex := 1 - softIndex;
      checkpoint := position;
      file.Do(WriteSlot(2 * (1 - hardIndex) + softIndex, Neg(checkpoint)));
    }

    method HardCheckpointAt(position: int)
      requires Valid()
      modifies this, file
      ensures Valid()
      ensures Memory() == HardLocal(old(Memory()), position)
      ensures old(hardCheckpoint) >= position ==>
                file.trail == old(file.trail) && buffer == old(buffer) && offset == old(offset)
      ensures old(hardCheckpoint) < position ==>
                && file.trail == old(file.trail) + FlushOps(old(offset), old(buffer)) + HardOps(old(Memory()), position)
                && buffer == []
                && offset == old(offset) + |old(buffer)|
    {
      if hardCheckpoint >= position {
        return;
      }
      Flush();
      WriteHard(position);
    }

    /** The new hard checkpoint goes to the other pair, twice. */
    method WriteHard(position: int)
      requires Valid() && hardCheckpoint < position
      modifies `hardIndex, `checkpoint, `hardCheckpoint, file
      ensures Valid()
      ensures Memory() == HardLocal(old(Memory()), position)
      ensures file.trail == old(file.trail) + HardOps(old(Memory()), position)
    {
      ghost var t, m0 := file.trail, Memory();
      hardIndex := 1 - hardIndex;
      checkpoint := position;
      hardCheckpoint := position;
      file.DoThenSync(WriteSlot(2 * hardIndex, checkpoint), Sync);
      file.DoThenSync(WriteSlot(2 * hardIndex + 1, checkpoint), DataSync);
      assert file.trail == t + HardOps(m0, position);
    }

    /** Soft checkpoints beyond the end of the file are replaced, each with a sync. */
    method Repair(slots: seq<int>, size: nat)
      requires Valid() && |slots| == 4
      modifies file
      ensures Valid()
      ensures file.trail == old(file.trail) + RepairOps(slots, size, checkpoint, 4)
    {
      var k := 0;
      while k < 4
        modifies file
        invariant 0 <= k <= 4
        invariant Valid()
        invariant file.trail == old(file.trail) + RepairOps(slots, size, checkpoint, k)
      {
        ghost var t := file.trail;
        if Neg(slots[k]) > size {
          file.DoThenSync(WriteSlot(k, Neg(checkpoint)), DataSync);
        }
        k := k + 1;
      }
    }

    /** The whole life of opening an existing file for writing. */
    static method Open(f: File, recovery: Recovery) returns (r: OpenResult, journal: WritableJournal)
      requires f.Valid()
      modifies f
      ensures f.Valid()
      ensures r == OpenLocal(old(f.disk.slots), |old(f.disk.data)|, recovery)
      ensures forall c :: Recovered(old(f.disk.slots), |old(f.disk.data)|, c) ==>
                OpensAt(old(f.disk.slots), |old(f.disk.data)|, recovery, r, c)
      ensures r.Opened? ==> Recovered(old(f.disk.slots), |old(f.disk.data)|, journal.checkpoint)
      ensures r.Opened? && recovery == NoRecovery ==> |old(f.disk.data)| == journal.checkpoint
      ensures r.Refused? ==> f.trail == old(f.trail)
      ensures r.Opened? ==>
                && journal.Valid() && journal.file == f && fresh(journal)
                && journal.Memory() == r.local && journal.buffer == []
                && f.trail == old(f.trail) + RepairOps(old(f.disk.slots), |old(f.disk.data)|, r.local.checkpoint, 4)
    {
      journal := new WritableJournal.Unread(f);
      var slots, size := f.disk.slots, |f.disk.data|;
      journal.ReadSlots(slots, size);
      OpensAtRecovered(slots, size, recovery);
      if size < journal.checkpoint {
        r := Refused(CheckpointBiggerThanFile);
        return;
      }
      if size > journal.checkpoint && recovery != Overwrite {
        r := Refused(AbortedTransaction);
        return;
      }
      journal.Repair(slots, size);
      r := Opened(journal.Memory());
    }
  }
}
