/**
 Many writing processes checkpointing one journal file, on a machine that may crash between any two file
 operations. Slot reads and writes of a live process are atomic with respect to the others (the
 head lock); only the holder of the tail lock appends and checkpoints.
 */
module CheckpointProtocol {
  import opened Bytes
  import opened Disk
  import opened Checkpoint

  datatype Action =
    | Idle
    | Append(p: nat, offset: nat, bytes: seq<byte>)
    | Soft(p: nat, position: int)
    | Hard(p: nat, position: int)
    | Pull(p: nat)
    | LockPull(p: nat)
    | Unlock(p: nat)
    | OpenWriter(p: nat, recovery: Recovery, keepLock: bool)

  datatype Step =
    | Done(action: Action)
    /** The machine stops after the first `k` file operations of an action; `found` is what is on the disk afterwards. */
    | Crash(action: Action, k: nat, found: Disk)

  datatype System = System(
    disk: Disk,
    procs: map<nat, Local>,
    holder: Option<nat>,
    up: bool,               // false after a crash, until a writer reopens the file
    // history variables
    cur: Index,             // pair holding the newest hard checkpoint
    newest: int,            // newest checkpoint that completed
    committed: seq<byte>,   // file contents below the last hard checkpoint that returned
    published: seq<byte>,   // file contents below the newest checkpoint
    found: int,             // checkpoint recovered by the writer that reopened the file
    since: set<int>         // checkpoints attempted since then
  )

  function Ops(s: System, a: Action): (ops: seq<Op>)
    requires Enabled(s, a)
  {
    match a
    case Append(_, offset, bytes) => [WriteData(offset, bytes)]
    case Soft(p, position) => SoftOps(s.procs[p], position)
    case Hard(p, position) => HardOps(s.procs[p], position)
    case OpenWriter(_, recovery, _) =>
      RepairOps(s.disk.slots, |s.disk.data|, OpenLocal(s.disk.slots, |s.disk.data|, recovery).local.checkpoint, 4)
    case _ => []
  }

  predicate Holds(s: System, p: nat) {
    s.up && p in s.procs && s.holder == Some(p)
  }

  /** What the callers respect: only the tail lock's holder writes, from its checkpoint on, and checkpoints what is in the file. */
  predicate Enabled(s: System, a: Action) {
    s.disk.Valid() &&
    match a
    case Idle => true
    case Append(p, offset, _) => Holds(s, p) && HEADER_SIZE <= offset && s.procs[p].checkpoint <= offset
    case Soft(p, position) => Holds(s, p) && position <= |s.disk.data| && position < -INT64_MIN
    case Hard(p, position) =>
      Holds(s, p) && s.procs[p].checkpoint <= position <= |s.disk.data| && position < -INT64_MIN
    case Pull(p) => s.up && p in s.procs
    case LockPull(p) => s.up && p in s.procs && s.holder == None
    case Unlock(p) => Holds(s, p)
    case OpenWriter(p, recovery, _) =>
      && p !in s.procs && s.holder == None
      && OpenLocal(s.disk.slots, |s.disk.data|, recovery).Opened?
  }

  /** The state after an action that is not interrupted. */
  function Result(s: System, a: Action): System
    requires Enabled(s, a)
  {
    var d := ApplyAll(s.disk, Ops(s, a));
    match a
    case Idle => s
    case Append(_, _, _) => s.(disk := d)
    case Soft(p, position) =>
      var j := s.procs[p];
      if j.checkpoint >= position then s
      else SoftDone(s, d, p, position)
    case Hard(p, position) =>
      var j := s.procs[p];
      if j.hardCheckpoint >= position then s
      else HardDone(s, d, p, position)
    case Pull(p) => s.(procs := s.procs[p := ReadCheckpoint(s.procs[p], s.disk.slots, -1)])
    case LockPull(p) =>
      s.(procs := s.procs[p := ReadCheckpoint(s.procs[p], s.disk.slots, -1)], holder := Some(p))
    case Unlock(_) => s.(holder := None)
    case OpenWriter(p, recovery, keepLock) =>
      var j := OpenLocal(s.disk.slots, |s.disk.data|, recovery).local;
      if s.up then s.(procs := s.procs[p := j], holder := if keepLock then Some(p) else None)
      else Reopened(s, d, p, j, keepLock)
  }

  function SoftDone(s: System, d: Disk, p: nat, position: int): System
    requires p in s.procs
  {
    var j := s.procs[p];
    s.(disk := d, procs := s.procs[p := SoftLocal(j, position)], cur := j.hardIndex,
       newest := position, published := Take(s.disk.data, position), since := s.since + {position})
  }

  function HardDone(s: System, d: Disk, p: nat, position: int): System
    requires p in s.procs
  {
    var j := s.procs[p];
    s.(disk := d, procs := s.procs[p := HardLocal(j, position)], cur := 1 - j.hardIndex,
       newest := position, published := Take(s.disk.data, position),
       committed := Take(s.disk.data, position), since := s.since + {position})
  }

  /** A writer has opened the file after a crash, and has left the disk as `d`. */
  function Reopened(s: System, d: Disk, p: nat, j: Local, keepLock: bool): System {
    System(d, s.procs[p := j], if keepLock then Some(p) else None, true, j.hardIndex, j.checkpoint,
           Take(s.disk.data, j.hardCheckpoint), Take(s.disk.data, j.checkpoint), j.checkpoint, {})
  }

  function Take(data: seq<byte>, n: int): seq<byte> {
    if 0 <= n <= |data| then data[..n] else data
  }

  function Attempted(a: Action): set<int> {
    if a.Soft? || a.Hard? then {a.position} else {}
  }

  ghost predicate Next(s: System, step: Step, s': System) {
    Enabled(s, step.action) &&
    match step
    case Done(a) => s' == Result(s, a)
    case Crash(a, k, after) =>
      && k <= |Ops(s, a)|
      && CrashOutcome(ApplyAll(s.disk, Ops(s, a)[..k]), after)
      && s' == s.(disk := after, procs := map[], holder := None, up := false, since := s.since + Attempted(a))
  }

  /** A file whose creation is durable: every slot holds the header size. */
  ghost predicate Init(s: System) {
    && s.disk.Valid()
    && s.disk.slots == [HEADER_SIZE, HEADER_SIZE, HEADER_SIZE, HEADER_SIZE]
    && s.disk.held == Singletons(s.disk.slots)
    && s.disk.clean == s.disk.durableSize == |s.disk.data| == HEADER_SIZE
    && s.procs == map[] && s.holder == None && !s.up
    && s.committed == s.disk.data
    && s.found == HEADER_SIZE && s.since == {}
  }

  ghost predicate Run(states: seq<System>, steps: seq<Step>) {
    && |states| == |steps| + 1
    && Init(states[0])
    && forall i :: 0 <= i < |steps| ==> Next(states[i], steps[i], states[i + 1])
  }

  // ---------- the invariant ----------

  predicate Known(x: int, found: int, since: set<int>) {
    x <= found || x in since
  }

  /** A value that a slot of the soft pair may hold, now or after a crash. */
  predicate SoftPairValue(v: int, hard: int, found: int, since: set<int>) {
    && INT64_MIN < v
    && (v >= HEADER_SIZE || (v < 0 && hard <= -v && Known(-v, found, since)))
  }

  ghost predicate SoftPairValues(values: set<int>, hard: int, found: int, since: set<int>) {
    forall v <- values :: SoftPairValue(v, hard, found, since)
  }

  ghost predicate NoneAbove(values: set<int>, bound: int) {
    forall v <- values :: v <= bound
  }

  /**
   Pair `c` holds the hard checkpoint, durably and twice; every byte below it is durable; and no
   crash can make the other pair look like a newer hard checkpoint.
   */
  ghost predicate Core(d: Disk, c: Index, found: int, since: set<int>) {
    d.Valid() &&
    var hard := d.slots[2 * c];
    var o := 1 - c;
    && HEADER_SIZE <= hard <= d.clean && hard < -INT64_MIN
    && d.held[2 * c] == {hard} && d.held[2 * c + 1] == {hard}
    && Known(hard, found, since)
    && SoftPairValues(d.held[2 * o], hard, found, since)
    && SoftPairValues(d.held[2 * o + 1], hard, found, since)
    && NoneAbove(d.held[2 * o + 1], hard)
  }

  ghost predicate DownInv(s: System) {
    && !s.up && s.procs == map[] && s.holder == None
    && s.disk.Valid()
    && s.disk.held == Singletons(s.disk.slots)
    && s.disk.clean == s.disk.durableSize == |s.disk.data|
    && exists c: Index :: Core(s.disk, c, s.found, s.since) && Kept(s, c)
  }

  ghost predicate Kept(s: System, c: Index)
    requires s.disk.Valid()
  {
    |s.committed| <= s.disk.slots[2 * c] && s.committed <= s.disk.data
  }

  /** The other pair holds nothing newer than the newest checkpoint, and holds it if it is soft. */
  predicate SlotsUpTo(slots: seq<int>, c: Index, newest: int)
    requires |slots| == 4
  {
    var o := 1 - c;
    var hard := slots[2 * c];
    && hard <= newest
    && (slots[2 * o] < 0 ==> -slots[2 * o] <= newest)
    && (slots[2 * o + 1] < 0 ==> -slots[2 * o + 1] <= newest)
    && (hard < newest ==> slots[2 * o] == -newest || slots[2 * o + 1] == -newest)
  }

  /** All four slots hold the same hard checkpoint, as in a new file: the pairs are interchangeable. */
  predicate Tie(slots: seq<int>)
    requires |slots| == 4
  {
    slots[0] == slots[1] == slots[2] == slots[3]
  }

  /** `j` knows the newest checkpoints, and its next checkpoint will not overwrite them. */
  predicate UpToDate(j: Local, slots: seq<int>, c: Index, newest: int)
    requires |slots| == 4
  {
    && j.checkpoint == newest
    && j.hardCheckpoint == slots[2 * c]
    && (j.hardIndex == c || Tie(slots))
    && (slots[2 * c] < newest ==> slots[2 * (1 - j.hardIndex) + j.softIndex] == -newest)
  }

  ghost predicate UpInv(s: System) {
    && s.up
    && Core(s.disk, s.cur, s.found, s.since)
    && SlotsUpTo(s.disk.slots, s.cur, s.newest)
    && (Tie(s.disk.slots) ==> s.disk.held == Singletons(s.disk.slots))
    && s.newest <= |s.disk.data|
    && (s.newest == s.found || s.newest in s.since)
    && (forall x <- s.since :: s.found <= x)
    && s.committed == s.disk.data[..s.disk.slots[2 * s.cur]]
    && s.published == s.disk.data[..s.newest]
    && (forall p <- s.procs :: Stale(s.procs[p], s))
    && (s.holder.Some? ==>
          s.holder.value in s.procs && UpToDate(s.procs[s.holder.value], s.disk.slots, s.cur, s.newest))
  }

  /** Any memory that is not ahead of the file. */
  predicate Stale(j: Local, s: System)
    requires |s.disk.slots| == 4
  {
    HEADER_SIZE <= j.checkpoint <= s.newest && HEADER_SIZE <= j.hardCheckpoint <= s.disk.slots[2 * s.cur]
  }

  ghost predicate Inv(s: System) {
    DownInv(s) || UpInv(s)
  }

  // ---------- reading slots ----------

  predicate Readable(slots: seq<int>, c: Index)
    requires |slots| == 4
  {
    var o := 1 - c;
    var hard := slots[2 * c];
    && slots[2 * c + 1] == hard && HEADER_SIZE <= hard
    && INT64_MIN < slots[2 * o] && INT64_MIN < slots[2 * o + 1]
    && (slots[2 * o] < 0 ==> hard <= -slots[2 * o])
    && (slots[2 * o + 1] < 0 ==> hard <= -slots[2 * o + 1])
    && slots[2 * o + 1] <= hard
  }

  lemma PullIsUpToDate(j: Local, slots: seq<int>, c: Index, newest: int, fileSize: int)
    requires |slots| == 4 && Readable(slots, c) && SlotsUpTo(slots, c, newest)
    requires HEADER_SIZE <= j.checkpoint <= newest && HEADER_SIZE <= j.hardCheckpoint <= slots[2 * c]
    requires fileSize < 0 || newest <= fileSize
    ensures UpToDate(ReadCheckpoint(j, slots, fileSize), slots, c, newest)
  {
    var r := ReadCheckpoint(j, slots, fileSize);
    if c == 0 {
      var j1 := ReadPair(j, slots, fileSize, 0);
      assert j1 == j.(hardCheckpoint := slots[0], hardIndex := 0);
      assert slots[2] < 0 || slots[3] < 0 || slots[2] != slots[3] || slots[2] <= slots[0];
    } else {
      var j1 := ReadPair(j, slots, fileSize, 0);
      assert j1.hardCheckpoint <= slots[2];
      assert ReadHard(j1, slots, 1) == j1.(hardCheckpoint := slots[2], hardIndex := 1);
    }
  }

  /** A writer opening a file recovers the hard checkpoint and the newest soft one that fits in the file. */
  lemma OpenRecovers(slots: seq<int>, c: Index, size: nat)
    requires |slots| == 4 && Readable(slots, c) && slots[2 * c] <= size
    ensures
      var r := ReadCheckpoint(FRESH, slots, size);
      var o := 1 - c;
      var hard := slots[2 * c];
      && r.hardCheckpoint == hard
      && hard <= r.checkpoint <= size
      && (r.hardIndex == c || Tie(slots))
      && (hard < r.checkpoint ==> slots[2 * (1 - r.hardIndex) + r.softIndex] == -r.checkpoint && r.hardIndex == c)
      && (forall k :: 2 * o <= k <= 2 * o + 1 && slots[k] < 0 ==> -slots[k] <= r.checkpoint || -slots[k] > size)
  {
    var j1 := ReadPair(FRESH, slots, size, 0);
    if c == 0 {
      assert j1 == FRESH.(hardCheckpoint := slots[0], hardIndex := 0);
    } else {
      assert j1.hardCheckpoint <= slots[2];
      assert ReadHard(j1, slots, 1) == j1.(hardCheckpoint := slots[2], hardIndex := 1);
    }
  }

  lemma CoreReadable(d: Disk, c: Index, found: int, since: set<int>)
    requires Core(d, c, found, since)
    ensures Readable(d.slots, c)
  {
    var o: Index := 1 - c;
    assert 2 * o == 0 || 2 * o == 2;
    assert d.slots[2 * o] in d.held[2 * o];
    assert d.slots[2 * o + 1] in d.held[2 * o + 1];
    assert d.slots[2 * c + 1] in d.held[2 * c + 1];
  }

  // ---------- what each file operation keeps ----------

  /** The disk still carries the committed contents below the hard checkpoint in pair `c`. */
  ghost predicate Carries(d: Disk, c: Index, committed: seq<byte>)
    requires d.Valid()
  {
    |committed| <= d.slots[2 * c] && committed <= d.data
  }

  /** Whatever a crash leaves, some pair holds a hard checkpoint at or above the committed contents. */
  ghost predicate CrashSafe(d: Disk, committed: seq<byte>, found: int, since: set<int>)
    requires d.Valid()
  {
    forall after: Disk :: CrashOutcome(d, after) ==>
      exists c: Index :: Core(after, c, found, since) && Carries(after, c, committed) && after.slots[2 * c] <= d.clean
  }

  lemma CoreIsCrashSafe(d: Disk, c: Index, committed: seq<byte>, found: int, since: set<int>)
    requires Core(d, c, found, since) && Carries(d, c, committed)
    ensures CrashSafe(d, committed, found, since)
  {
    forall after: Disk | CrashOutcome(d, after)
      ensures Core(after, c, found, since) && Carries(after, c, committed) && after.slots[2 * c] <= d.clean
    {
      OutcomeKeepsCore(d, after, c, found, since);
      assert committed == d.data[..d.clean][..|committed|];
      assert committed == after.data[..d.clean][..|committed|];
    }
  }

  lemma OutcomeKeepsCore(d: Disk, after: Disk, c: Index, found: int, since: set<int>)
    requires Core(d, c, found, since) && CrashOutcome(d, after)
    ensures Core(after, c, found, since) && after.slots[2 * c] == d.slots[2 * c]
  {
    var o: Index := 1 - c;
    assert after.slots[2 * c] in d.held[2 * c];
    assert after.slots[2 * c + 1] in d.held[2 * c + 1];
    assert after.slots[2 * o] in d.held[2 * o];
    assert after.slots[2 * o + 1] in d.held[2 * o + 1];
  }

  lemma DataKeepsCore(d: Disk, c: Index, offset: nat, bytes: seq<byte>, found: int, since: set<int>)
    requires Core(d, c, found, since) && HEADER_SIZE <= offset && d.slots[2 * c] <= offset
    ensures Core(Apply(d, WriteData(offset, bytes)), c, found, since)
  {
  }

  /** A write at or above `n` leaves the first `n` bytes alone. */
  lemma DataKeepsPrefix(d: Disk, offset: nat, bytes: seq<byte>, n: nat)
    requires d.Valid() && HEADER_SIZE <= offset && n <= offset && n <= |d.data|
    ensures var r := Apply(d, WriteData(offset, bytes)); n <= |r.data| && r.data[..n] == d.data[..n]
  {
  }

  lemma SoftKeepsCore(d: Disk, c: Index, k: nat, value: int, found: int, since: set<int>)
    requires Core(d, c, found, since)
    requires 2 * (1 - c) <= k <= 2 * (1 - c) + 1
    requires value < 0 && SoftPairValue(value, d.slots[2 * c], found, since)
    ensures Core(Apply(d, WriteSlot(k, value)), c, found, since)
  {
  }

  lemma SyncKeepsCore(d: Disk, c: Index, op: Op, found: int, since: set<int>)
    requires Core(d, c, found, since) && (op == Sync || op == DataSync)
    ensures Core(Apply(d, op), c, found, since)
  {
    CoreReadable(d, c, found, since);
    var o: Index := 1 - c;
    assert d.slots[2 * o] in d.held[2 * o];
    assert d.slots[2 * o + 1] in d.held[2 * o + 1];
  }

  lemma MoreKnown(d: Disk, c: Index, found: int, since: set<int>, more: set<int>)
    requires Core(d, c, found, since)
    ensures Core(d, c, found, since + more)
  {
  }

  // ---------- hard checkpoints ----------

  function AfterHard(d: Disk, o: Index, position: int, k: nat): Disk
    requires d.Valid() && k <= 4
  {
    if k == 0 then d
    else if k == 1 then Apply(d, WriteSlot(2 * o, position))
    else if k == 2 then Apply(AfterHard(d, o, position, 1), Sync)
    else if k == 3 then Apply(AfterHard(d, o, position, 2), WriteSlot(2 * o + 1, position))
    else Apply(AfterHard(d, o, position, 3), DataSync)
  }

  lemma AfterHardIsPrefix(d: Disk, j: Local, position: int, k: nat)
    requires d.Valid() && k <= 4 && j.hardCheckpoint < position
    ensures ApplyAll(d, HardOps(j, position)[..k]) == AfterHard(d, 1 - j.hardIndex, position, k)
  {
    var ops := HardOps(j, position);
    if k > 0 {
      AfterHardIsPrefix(d, j, position, k - 1);
      OneMoreOp(d, ops, k);
    }
  }

  lemma OneMoreOp(d: Disk, ops: seq<Op>, k: nat)
    requires d.Valid() && 0 < k <= |ops|
    ensures ApplyAll(d, ops[..k]) == Apply(ApplyAll(d, ops[..k - 1]), ops[k - 1])
  {
    assert ops[..k][..k - 1] == ops[..k - 1];
  }

  /** Until the second slot is written, the old hard checkpoint is the only one a crash can leave. */
  lemma FirstHalfKeepsCore(d: Disk, c: Index, position: int, found: int, since: set<int>, k: nat)
    requires Core(d, c, found, since) && d.slots[2 * c] < position && k <= 2
    requires position <= |d.data|
    ensures var r := AfterHard(d, 1 - c, position, k);
            && Core(r, c, found, since)
            && r.data == d.data && r.slots[2 * c] == d.slots[2 * c]
            && (k == 2 ==> r.clean == |d.data| && r.held[2 * (1 - c)] == {position})
  {
    if k == 2 {
      FirstHalfKeepsCore(d, c, position, found, since, 1);
      SyncKeepsCore(AfterHard(d, 1 - c, position, 1), c, Sync, found, since);
    }
  }

  /** Between the two slot writes a crash leaves either the old hard checkpoint or the new one, both durable. */
  lemma SecondWriteIsCrashSafe(d: Disk, c: Index, position: int, committed: seq<byte>, found: int, since: set<int>)
    requires Core(d, c, found, since) && d.slots[2 * c] < position <= |d.data|
    requires Carries(d, c, committed) && position in since && position < -INT64_MIN
    ensures CrashSafe(AfterHard(d, 1 - c, position, 3), committed, found, since)
  {
    var o: Index := 1 - c;
    var d2 := AfterHard(d, o, position, 2);
    var d3 := AfterHard(d, o, position, 3);
    FirstHalfKeepsCore(d, c, position, found, since, 2);
    forall after: Disk | CrashOutcome(d3, after)
      ensures exists e: Index ::
                Core(after, e, found, since) && Carries(after, e, committed) && after.slots[2 * e] <= d3.clean
    {
      assert committed == d3.data[..d3.clean][..|committed|];
      assert committed == after.data[..d3.clean][..|committed|];
      assert after.slots[2 * o] == position;
      assert after.slots[2 * c] in d3.held[2 * c] && after.slots[2 * c + 1] in d3.held[2 * c + 1];
      if after.slots[2 * o + 1] == position {
        assert Core(after, o, found, since) && Carries(after, o, committed) && after.slots[2 * o] <= d3.clean;
      } else {
        assert after.slots[2 * o + 1] in d2.held[2 * o + 1];
        assert CrashOutcome(d2, after);
        OutcomeKeepsCore(d2, after, c, found, since);
        assert Core(after, c, found, since) && Carries(after, c, committed) && after.slots[2 * c] <= d3.clean;
      }
    }
  }

  lemma HardMovesCore(d: Disk, c: Index, position: int, found: int, since: set<int>)
    requires Core(d, c, found, since) && d.slots[2 * c] < position <= |d.data| && position in since
    requires position < -INT64_MIN
    ensures var r := AfterHard(d, 1 - c, position, 4);
            && Core(r, 1 - c, found, since)
            && r.data == d.data && r.slots[2 * (1 - c)] == position
            && r.slots[2 * c] == d.slots[2 * c] && r.slots[2 * c + 1] == d.slots[2 * c]
  {
    CoreReadable(d, c, found, since);
    FirstHalfKeepsCore(d, c, position, found, since, 2);
    var d2 := AfterHard(d, 1 - c, position, 2);
    assert d2.durableSize == |d.data|;
  }

  // ---------- reopening after a crash ----------

  ghost predicate AtRest(d: Disk) {
    && d.Valid()
    && d.held == Singletons(d.slots)
    && d.clean == d.durableSize == |d.data|
  }

  function Repaired(slots: seq<int>, size: nat, checkpoint: int, m: nat): (r: seq<int>)
    requires |slots| == 4 && m <= 4
    ensures |r| == 4
  {
    seq(4, k requires 0 <= k < 4 => if k < m && Neg(slots[k]) > size then Neg(checkpoint) else slots[k])
  }

  predicate Dangling(d: Disk, k: nat)
    requires d.Valid() && k < 4
  {
    Neg(d.slots[k]) > |d.data|
  }

  /** The disk once the repairing writer is done with the first `m` slots. */
  function AfterRepair(d: Disk, checkpoint: int, m: nat): (r: Disk)
    requires d.Valid() && m <= 4
    ensures r.Valid()
  {
    if m == 0 then d
    else if Dangling(d, m - 1) then
      Apply(Apply(AfterRepair(d, checkpoint, m - 1), WriteSlot(m - 1, Neg(checkpoint))), DataSync)
    else AfterRepair(d, checkpoint, m - 1)
  }

  lemma RepairKeepsCore(d: Disk, c: Index, checkpoint: int, m: nat, found: int, since: set<int>)
    requires AtRest(d) && Core(d, c, found, since) && m <= 4
    requires d.slots[2 * c] <= checkpoint && -checkpoint > INT64_MIN && Known(checkpoint, found, since)
    ensures
      var r := AfterRepair(d, checkpoint, m);
      && Core(r, c, found, since) && AtRest(r)
      && r.data == d.data && r.slots[2 * c] == d.slots[2 * c]
      && r.slots == Repaired(d.slots, |d.data|, checkpoint, m)
  {
    if m > 0 {
      RepairKeepsCore(d, c, checkpoint, m - 1, found, since);
      CoreReadable(d, c, found, since);
      if Dangling(d, m - 1) {
        RepairOneSlot(d, AfterRepair(d, checkpoint, m - 1), c, checkpoint, m, found, since);
      } else {
        NothingToRepair(d.slots, |d.data|, checkpoint, m);
      }
    } else {
      NothingRepaired(d.slots, |d.data|, checkpoint);
    }
  }

  lemma NothingToRepair(slots: seq<int>, size: nat, checkpoint: int, m: nat)
    requires |slots| == 4 && 0 < m <= 4 && Neg(slots[m - 1]) <= size
    ensures Repaired(slots, size, checkpoint, m) == Repaired(slots, size, checkpoint, m - 1)
  {
  }

  lemma NothingRepaired(slots: seq<int>, size: nat, checkpoint: int)
    requires |slots| == 4
    ensures Repaired(slots, size, checkpoint, 0) == slots
  {
  }

  /** After any number of operations the writer is either between two slots, or between a write and its sync. */
  lemma RepairPrefix(d: Disk, checkpoint: int, m: nat, n: nat) returns (k: nat, half: bool)
    requires d.Valid() && m <= 4 && n <= |RepairOps(d.slots, |d.data|, checkpoint, m)|
    ensures k <= m && (half ==> k < m && Dangling(d, k))
    ensures n == |RepairOps(d.slots, |d.data|, checkpoint, m)| ==> k == m && !half
    ensures ApplyAll(d, RepairOps(d.slots, |d.data|, checkpoint, m)[..n]) ==
            if half then Apply(AfterRepair(d, checkpoint, k), WriteSlot(k, Neg(checkpoint)))
            else AfterRepair(d, checkpoint, k)
  {
    var ops := RepairOps(d.slots, |d.data|, checkpoint, m);
    if m == 0 {
      k, half := 0, false;
    } else {
      var before := RepairOps(d.slots, |d.data|, checkpoint, m - 1);
      if n <= |before| {
        assert ops[..n] == before[..n];
        k, half := RepairPrefix(d, checkpoint, m - 1, n);
        if n == |ops| {
          k := m;
        }
      } else {
        var k0, half0 := RepairPrefix(d, checkpoint, m - 1, |before|);
        assert before[..|before|] == before;
        var w := WriteSlot(m - 1, Neg(checkpoint));
        assert ops == before + [w, DataSync];
        TwoMoreOps(d, before, w, DataSync);
        if n == |before| + 1 {
          assert ops[..n] == before + [w];
          k, half := m - 1, true;
        } else {
          assert ops[..n] == before + [w, DataSync];
          k, half := m, false;
        }
      }
    }
  }

  lemma TwoMoreOps(d: Disk, ops: seq<Op>, a: Op, b: Op)
    requires d.Valid()
    ensures ApplyAll(d, ops + [a]) == Apply(ApplyAll(d, ops), a)
    ensures ApplyAll(d, ops + [a, b]) == Apply(Apply(ApplyAll(d, ops), a), b)
  {
    assert (ops + [a])[..|ops|] == ops;
    assert (ops + [a, b])[..|ops| + 1] == ops + [a];
  }

  lemma RepairOneSlot(d: Disk, r0: Disk, c: Index, checkpoint: int, m: nat, found: int, since: set<int>)
    requires AtRest(d) && AtRest(r0) && Core(r0, c, found, since) && 0 < m <= 4
    requires r0.data == d.data && r0.slots[2 * c] == d.slots[2 * c] && d.slots[2 * c] == d.slots[2 * c + 1]
    requires d.slots[2 * c] <= checkpoint && -checkpoint > INT64_MIN && Known(checkpoint, found, since)
    requires HEADER_SIZE <= d.slots[2 * c]
    requires r0.slots == Repaired(d.slots, |d.data|, checkpoint, m - 1) && Neg(d.slots[m - 1]) > |d.data|
    ensures
      var r1 := Apply(r0, WriteSlot(m - 1, Neg(checkpoint)));
      var r2 := Apply(r1, DataSync);
      && Core(r1, c, found, since) && Core(r2, c, found, since)
      && r1.data == d.data && r1.clean == r0.clean && r1.durableSize == r0.durableSize
      && r1.slots[2 * c] == d.slots[2 * c] && r2.slots[2 * c] == d.slots[2 * c]
      && r2.data == d.data && AtRest(r2) && r2.slots == Repaired(d.slots, |d.data|, checkpoint, m)
  {
    var r1 := Apply(r0, WriteSlot(m - 1, Neg(checkpoint)));
    assert m - 1 != 2 * c && m - 1 != 2 * c + 1;
    SoftKeepsCore(r0, c, m - 1, Neg(checkpoint), found, since);
    SyncKeepsCore(r1, c, DataSync, found, since);
    assert r1.slots == Repaired(d.slots, |d.data|, checkpoint, m);
  }

  // ---------- every step keeps the invariant ----------

  lemma InitInv(s: System)
    requires Init(s)
    ensures DownInv(s)
  {
    assert Core(s.disk, 0, s.found, s.since) && Kept(s, 0);
  }

  lemma ApplyOne(d: Disk, op: Op)
    requires d.Valid()
    ensures ApplyAll(d, [op]) == Apply(d, op)
  {
    assert [op][..0] == [];
  }

  lemma CrashInv(s: System, a: Action, k: nat, after: Disk, s': System)
    requires s.disk.Valid() && Next(s, Crash(a, k, after), s')
    requires CrashSafe(ApplyAll(s.disk, Ops(s, a)[..k]), s.committed, s.found, s.since + Attempted(a))
    ensures DownInv(s')
  {
    var c: Index :| Core(after, c, s.found, s.since + Attempted(a)) && Carries(after, c, s.committed);
    assert Kept(s', c);
  }

  /** When the pairs are interchangeable, either may be taken for the hard one. */
  lemma Recenter(s: System, c: Index)
    requires UpInv(s) && (c == s.cur || Tie(s.disk.slots))
    ensures UpInv(s.(cur := c))
  {
  }

  lemma HolderCenters(s: System, p: nat) returns (t: System)
    requires UpInv(s) && Holds(s, p)
    ensures t == s.(cur := s.procs[p].hardIndex) && UpInv(t) && Holds(t, p)
  {
    t := s.(cur := s.procs[p].hardIndex);
    Recenter(s, t.cur);
  }

  lemma AppendInv(s: System, a: Action)
    requires UpInv(s) && a.Append? && Enabled(s, a)
    ensures UpInv(Result(s, a)) && s.published == Result(s, a).published
  {
    var op := WriteData(a.offset, a.bytes);
    ApplyOne(s.disk, op);
    DataKeepsCore(s.disk, s.cur, a.offset, a.bytes, s.found, s.since);
    DataKeepsPrefix(s.disk, a.offset, a.bytes, s.disk.slots[2 * s.cur]);
    DataKeepsPrefix(s.disk, a.offset, a.bytes, s.newest);
  }

  lemma SoftSlots(j: Local, slots: seq<int>, newest: int, position: int)
    requires |slots| == 4 && Readable(slots, j.hardIndex) && SlotsUpTo(slots, j.hardIndex, newest)
    requires UpToDate(j, slots, j.hardIndex, newest) && newest < position < -INT64_MIN
    ensures
      var r := slots[SoftSlot(j) := Neg(position)];
      && r[2 * j.hardIndex] == slots[2 * j.hardIndex]
      && SlotsUpTo(r, j.hardIndex, position)
      && UpToDate(SoftLocal(j, position), r, j.hardIndex, position)
      && !Tie(r)
  {
    assert j.hardIndex == 0 || j.hardIndex == 1;
  }

  lemma SoftDoneInv(t: System, d: Disk, p: nat, position: int)
    requires UpInv(t) && Holds(t, p) && t.procs[p].hardIndex == t.cur
    requires t.newest < position <= |t.disk.data|
    requires Core(d, t.cur, t.found, t.since + {position}) && d.data == t.disk.data
    requires d.slots[2 * t.cur] == t.disk.slots[2 * t.cur] && SlotsUpTo(d.slots, t.cur, position)
    requires UpToDate(SoftLocal(t.procs[p], position), d.slots, t.cur, position) && !Tie(d.slots)
    ensures UpInv(SoftDone(t, d, p, position))
  {
  }

  lemma SoftInv(s: System, a: Action)
    requires UpInv(s) && a.Soft? && Enabled(s, a)
    ensures UpInv(Result(s, a))
  {
    var j := s.procs[a.p];
    if j.checkpoint < a.position {
      var t := HolderCenters(s, a.p);
      CoreReadable(t.disk, t.cur, t.found, t.since);
      var w := WriteSlot(SoftSlot(j), Neg(a.position));
      ApplyOne(s.disk, w);
      MoreKnown(t.disk, t.cur, t.found, t.since, {a.position});
      SoftKeepsCore(t.disk, t.cur, SoftSlot(j), Neg(a.position), t.found, t.since + {a.position});
      SoftSlots(j, t.disk.slots, t.newest, a.position);
      SoftDoneInv(t, Apply(s.disk, w), a.p, a.position);
    }
  }

  lemma HardDoneInv(t: System, d: Disk, p: nat, position: int)
    requires UpInv(t) && Holds(t, p) && t.procs[p].hardIndex == t.cur
    requires t.procs[p].hardCheckpoint < position && t.procs[p].checkpoint <= position <= |t.disk.data|
    requires Core(d, 1 - t.cur, t.found, t.since + {position}) && d.data == t.disk.data
    requires d.slots[2 * (1 - t.cur)] == position
    requires d.slots[2 * t.cur] == t.disk.slots[2 * t.cur] && d.slots[2 * t.cur + 1] == t.disk.slots[2 * t.cur]
    ensures UpInv(HardDone(t, d, p, position))
  {
    var s' := HardDone(t, d, p, position);
    assert SlotsUpTo(s'.disk.slots, s'.cur, s'.newest);
    assert s'.disk.slots[2 * s'.cur] != s'.disk.slots[2 * t.cur];
  }

  lemma HardInv(s: System, a: Action)
    requires UpInv(s) && a.Hard? && Enabled(s, a)
    ensures UpInv(Result(s, a))
  {
    var j := s.procs[a.p];
    if j.hardCheckpoint < a.position {
      var t := HolderCenters(s, a.p);
      HardFrom(t, a.p, a.position);
      HardResult(s, a, t);
    }
  }

  lemma HardResult(s: System, a: Action, t: System)
    requires a.Hard? && Enabled(s, a) && s.procs[a.p].hardCheckpoint < a.position && t == s.(cur := s.procs[a.p].hardIndex)
    ensures Result(s, a) == HardDone(t, AfterHard(t.disk, 1 - t.cur, a.position, 4), a.p, a.position)
  {
    HardDisk(s.disk, s.procs[a.p], a.position);
  }

  lemma HardDisk(d: Disk, j: Local, position: int)
    requires d.Valid() && j.hardCheckpoint < position
    ensures ApplyAll(d, HardOps(j, position)) == AfterHard(d, 1 - j.hardIndex, position, 4)
  {
    var ops := HardOps(j, position);
    assert ops[..4] == ops;
    AfterHardIsPrefix(d, j, position, 4);
  }

  lemma HardFrom(t: System, p: nat, position: int)
    requires UpInv(t) && Holds(t, p) && t.procs[p].hardIndex == t.cur && t.procs[p].hardCheckpoint < position
    requires t.procs[p].checkpoint <= position <= |t.disk.data| && position < -INT64_MIN
    ensures UpInv(HardDone(t, AfterHard(t.disk, 1 - t.cur, position, 4), p, position))
  {
    MoreKnown(t.disk, t.cur, t.found, t.since, {position});
    HardMovesCore(t.disk, t.cur, position, t.found, t.since + {position});
    HardDoneInv(t, AfterHard(t.disk, 1 - t.cur, position, 4), p, position);
  }

  lemma PullInv(s: System, a: Action)
    requires UpInv(s) && (a.Pull? || a.LockPull? || a.Unlock? || a.Idle?) && Enabled(s, a)
    ensures UpInv(Result(s, a))
  {
    CoreReadable(s.disk, s.cur, s.found, s.since);
    if a.Pull? || a.LockPull? {
      PullIsUpToDate(s.procs[a.p], s.disk.slots, s.cur, s.newest, -1);
    }
  }

  lemma NothingDangles(slots: seq<int>, size: nat, checkpoint: int, m: nat)
    requires |slots| == 4 && m <= 4 && forall k :: 0 <= k < 4 ==> Neg(slots[k]) <= size
    ensures RepairOps(slots, size, checkpoint, m) == []
  {
  }

  lemma LiveSlotsFit(s: System)
    requires UpInv(s)
    ensures forall k :: 0 <= k < 4 ==> Neg(s.disk.slots[k]) <= |s.disk.data|
  {
    CoreReadable(s.disk, s.cur, s.found, s.since);
    assert s.cur == 0 || s.cur == 1;
  }

  lemma OpenUpInv(s: System, a: Action)
    requires UpInv(s) && a.OpenWriter? && Enabled(s, a)
    ensures UpInv(Result(s, a)) && Ops(s, a) == []
  {
    LiveSlotsFit(s);
    NothingDangles(s.disk.slots, |s.disk.data|, OpenLocal(s.disk.slots, |s.disk.data|, a.recovery).local.checkpoint, 4);
    CoreReadable(s.disk, s.cur, s.found, s.since);
    PullIsUpToDate(FRESH, s.disk.slots, s.cur, s.newest, |s.disk.data|);
  }

  /** What is recovered was recovered before, or attempted since. */
  lemma RecoveredIsKnown(d: Disk, c: Index, found: int, since: set<int>)
    requires Core(d, c, found, since)
    ensures var j := ReadCheckpoint(FRESH, d.slots, |d.data|);
            && Known(j.checkpoint, found, since) && Known(j.hardCheckpoint, found, since)
            && -j.checkpoint > INT64_MIN
  {
    CoreReadable(d, c, found, since);
    OpenRecovers(d.slots, c, |d.data|);
    var o: Index := 1 - c;
    assert d.slots[2 * o] in d.held[2 * o];
    assert d.slots[2 * o + 1] in d.held[2 * o + 1];
  }

  lemma OpenDownDisk(s: System, a: Action, c: Index)
    requires DownInv(s) && a.OpenWriter? && Enabled(s, a)
    requires Core(s.disk, c, s.found, s.since)
    ensures
      var j := ReadCheckpoint(FRESH, s.disk.slots, |s.disk.data|);
      var d := Result(s, a).disk;
      && Core(d, c, j.checkpoint, {}) && AtRest(d) && d.data == s.disk.data
      && SlotsUpTo(d.slots, c, j.checkpoint) && UpToDate(j, d.slots, c, j.checkpoint)
      && d.slots[2 * c] == s.disk.slots[2 * c]
  {
    var j := ReadCheckpoint(FRESH, s.disk.slots, |s.disk.data|);
    CoreReadable(s.disk, c, s.found, s.since);
    OpenRecovers(s.disk.slots, c, |s.disk.data|);
    RecoveredIsKnown(s.disk, c, s.found, s.since);
    var ops := Ops(s, a);
    var k, half := RepairPrefix(s.disk, j.checkpoint, 4, |ops|);
    assert ops[..|ops|] == ops;
    RepairKeepsCore(s.disk, c, j.checkpoint, 4, s.found, s.since);
    ReopenedSlots(s.disk.slots, c, |s.disk.data|);
    ReopenedCore(AfterRepair(s.disk, j.checkpoint, 4), c, j.checkpoint, s.found, s.since);
  }

  lemma ReopenedInv(s: System, d: Disk, p: nat, j: Local, keepLock: bool, c: Index)
    requires s.procs == map[] && s.disk.Valid() && Kept(s, c)
    requires Core(d, c, j.checkpoint, {}) && AtRest(d) && d.data == s.disk.data
    requires SlotsUpTo(d.slots, c, j.checkpoint) && UpToDate(j, d.slots, c, j.checkpoint)
    requires d.slots[2 * c] == s.disk.slots[2 * c] && j.checkpoint <= |d.data|
    ensures UpInv(Reopened(s, d, p, j, keepLock))
    ensures s.committed <= Reopened(s, d, p, j, keepLock).committed
  {
    var s' := Reopened(s, d, p, j, keepLock);
    assert UpInv(s'.(cur := c));
    Recenter(s'.(cur := c), s'.cur);
  }

  lemma OpenDownInv(s: System, a: Action)
    requires DownInv(s) && a.OpenWriter? && Enabled(s, a)
    ensures UpInv(Result(s, a)) && s.committed <= Result(s, a).committed
  {
    var c: Index :| Core(s.disk, c, s.found, s.since) && Kept(s, c);
    OpenDownFrom(s, a, c);
  }

  lemma OpenDownFrom(s: System, a: Action, c: Index)
    requires DownInv(s) && a.OpenWriter? && Enabled(s, a) && Core(s.disk, c, s.found, s.since) && Kept(s, c)
    ensures UpInv(Result(s, a)) && s.committed <= Result(s, a).committed
  {
    OpenDownDisk(s, a, c);
    CoreReadable(s.disk, c, s.found, s.since);
    OpenRecovers(s.disk.slots, c, |s.disk.data|);
    var j := ReadCheckpoint(FRESH, s.disk.slots, |s.disk.data|);
    ReopenedInv(s, Result(s, a).disk, a.p, j, a.keepLock, c);
  }

  lemma ReopenedSlots(slots: seq<int>, c: Index, size: nat)
    requires |slots| == 4 && Readable(slots, c) && slots[2 * c] <= size && slots[2 * c] < -INT64_MIN
    ensures
      var j := ReadCheckpoint(FRESH, slots, size);
      var r := Repaired(slots, size, j.checkpoint, 4);
      && r[2 * c] == slots[2 * c]
      && SlotsUpTo(r, c, j.checkpoint)
      && UpToDate(j, r, c, j.checkpoint)
  {
    OpenRecovers(slots, c, size);
    var j := ReadCheckpoint(FRESH, slots, size);
    var r := Repaired(slots, size, j.checkpoint, 4);
    var o: Index := 1 - c;
    assert r[2 * c] == slots[2 * c] && r[2 * c + 1] == slots[2 * c];
    assert r[2 * o] < 0 ==> -r[2 * o] <= j.checkpoint;
    assert r[2 * o + 1] < 0 ==> -r[2 * o + 1] <= j.checkpoint;
    if Tie(slots) {
      assert Tie(r);
    }
  }

  /** After the repair only the recovered checkpoint and older ones are left. */
  lemma ReopenedCore(r: Disk, c: Index, checkpoint: int, found: int, since: set<int>)
    requires Core(r, c, found, since) && AtRest(r) && SlotsUpTo(r.slots, c, checkpoint)
    ensures Core(r, c, checkpoint, {})
  {
    CoreReadable(r, c, found, since);
    assert c == 0 || c == 1;
  }

  // ---------- crashes ----------

  lemma AppendCrashSafe(s: System, a: Action, k: nat)
    requires UpInv(s) && a.Append? && Enabled(s, a) && k <= |Ops(s, a)|
    ensures CrashSafe(ApplyAll(s.disk, Ops(s, a)[..k]), s.committed, s.found, s.since)
  {
    if k == 0 {
      CoreIsCrashSafe(s.disk, s.cur, s.committed, s.found, s.since);
    } else {
      assert Ops(s, a)[..1] == Ops(s, a);
      AppendInv(s, a);
      CoreIsCrashSafe(Result(s, a).disk, s.cur, s.committed, s.found, s.since);
    }
  }

  lemma SoftCrashSafe(s: System, a: Action, k: nat)
    requires UpInv(s) && a.Soft? && Enabled(s, a) && k <= |Ops(s, a)|
    ensures CrashSafe(ApplyAll(s.disk, Ops(s, a)[..k]), s.committed, s.found, s.since + {a.position})
  {
    MoreKnown(s.disk, s.cur, s.found, s.since, {a.position});
    if k == 0 {
      CoreIsCrashSafe(s.disk, s.cur, s.committed, s.found, s.since + {a.position});
    } else {
      assert Ops(s, a)[..1] == Ops(s, a);
      SoftInv(s, a);
      var s' := Result(s, a);
      CoreIsCrashSafe(s'.disk, s'.cur, s.committed, s.found, s.since + {a.position});
    }
  }

  lemma HardPrefixCrashSafe(d: Disk, j: Local, position: int, k: nat, committed: seq<byte>, found: int, since: set<int>)
    requires Core(d, j.hardIndex, found, since) && Carries(d, j.hardIndex, committed) && k <= 4
    requires j.hardCheckpoint == d.slots[2 * j.hardIndex] < position <= |d.data| && position < -INT64_MIN
    requires position in since
    ensures CrashSafe(ApplyAll(d, HardOps(j, position)[..k]), committed, found, since)
  {
    var c := j.hardIndex;
    AfterHardIsPrefix(d, j, position, k);
    if k <= 2 {
      FirstHalfKeepsCore(d, c, position, found, since, k);
      CoreIsCrashSafe(AfterHard(d, 1 - c, position, k), c, committed, found, since);
    } else if k == 3 {
      SecondWriteIsCrashSafe(d, c, position, committed, found, since);
    } else {
      HardMovesCore(d, c, position, found, since);
      CoreIsCrashSafe(AfterHard(d, 1 - c, position, 4), 1 - c, committed, found, since);
    }
  }

  lemma HardCrashSafe(s: System, a: Action, k: nat)
    requires UpInv(s) && a.Hard? && Enabled(s, a) && k <= |Ops(s, a)|
    ensures CrashSafe(ApplyAll(s.disk, Ops(s, a)[..k]), s.committed, s.found, s.since + {a.position})
  {
    var j := s.procs[a.p];
    var t := HolderCenters(s, a.p);
    MoreKnown(t.disk, t.cur, t.found, t.since, {a.position});
    if j.hardCheckpoint >= a.position {
      CoreIsCrashSafe(t.disk, t.cur, t.committed, t.found, t.since + {a.position});
    } else {
      HardPrefixCrashSafe(t.disk, j, a.position, k, t.committed, t.found, t.since + {a.position});
    }
  }

  lemma RepairPrefixCrashSafe(d: Disk, c: Index, checkpoint: int, k: nat, committed: seq<byte>, found: int, since: set<int>)
    requires AtRest(d) && Core(d, c, found, since) && Carries(d, c, committed)
    requires d.slots[2 * c] <= checkpoint && -checkpoint > INT64_MIN && Known(checkpoint, found, since)
    requires k <= |RepairOps(d.slots, |d.data|, checkpoint, 4)|
    ensures CrashSafe(ApplyAll(d, RepairOps(d.slots, |d.data|, checkpoint, 4)[..k]), committed, found, since)
  {
    var m, half := RepairPrefix(d, checkpoint, 4, k);
    RepairKeepsCore(d, c, checkpoint, m, found, since);
    var r := AfterRepair(d, checkpoint, m);
    if half {
      CoreReadable(d, c, found, since);
      RepairOneSlot(d, r, c, checkpoint, m + 1, found, since);
      CoreIsCrashSafe(Apply(r, WriteSlot(m, Neg(checkpoint))), c, committed, found, since);
    } else {
      CoreIsCrashSafe(r, c, committed, found, since);
    }
  }

  lemma ReopenCrashSafe(s: System, a: Action, k: nat)
    requires DownInv(s) && a.OpenWriter? && Enabled(s, a) && k <= |Ops(s, a)|
    ensures CrashSafe(ApplyAll(s.disk, Ops(s, a)[..k]), s.committed, s.found, s.since)
  {
    var c: Index :| Core(s.disk, c, s.found, s.since) && Kept(s, c);
    CoreReadable(s.disk, c, s.found, s.since);
    OpenRecovers(s.disk.slots, c, |s.disk.data|);
    RecoveredIsKnown(s.disk, c, s.found, s.since);
    var j := ReadCheckpoint(FRESH, s.disk.slots, |s.disk.data|);
    RepairPrefixCrashSafe(s.disk, c, j.checkpoint, k, s.committed, s.found, s.since);
  }

  lemma AnyCrashSafe(s: System, a: Action, k: nat)
    requires Inv(s) && Enabled(s, a) && k <= |Ops(s, a)|
    ensures CrashSafe(ApplyAll(s.disk, Ops(s, a)[..k]), s.committed, s.found, s.since + Attempted(a))
  {
    if a.Append? {
      AppendCrashSafe(s, a, k);
    } else if a.Soft? {
      SoftCrashSafe(s, a, k);
    } else if a.Hard? {
      HardCrashSafe(s, a, k);
    } else {
      assert s.since + Attempted(a) == s.since;
      if a.OpenWriter? && !s.up {
        ReopenCrashSafe(s, a, k);
      } else {
        if a.OpenWriter? {
          OpenUpInv(s, a);
        }
        assert Ops(s, a)[..k] == [];
        var c: Index :| Core(s.disk, c, s.found, s.since) && Carries(s.disk, c, s.committed);
        CoreIsCrashSafe(s.disk, c, s.committed, s.found, s.since);
      }
    }
  }

  // ---------- whole runs ----------

  /** One step keeps the invariant, never loses committed bytes, and while up never changes published ones. */
  lemma NextInv(s: System, step: Step, s': System)
    requires Inv(s) && Next(s, step, s')
    ensures Inv(s')
    ensures s.committed <= s'.committed
    ensures s.up && step.Done? ==> s.published <= s'.published
  {
    match step
    case Crash(a, k, after) =>
      AnyCrashSafe(s, a, k);
      CrashInv(s, a, k, after, s');
    case Done(a) =>
      if !s.up {
        if a.OpenWriter? {
          OpenDownInv(s, a);
        }
      } else {
        UpStep(s, a);
      }
  }

  lemma UpStep(s: System, a: Action)
    requires UpInv(s) && Enabled(s, a)
    ensures UpInv(Result(s, a))
    ensures s.committed <= Result(s, a).committed && s.published <= Result(s, a).published
  {
    match a {
      case Append(_, _, _) => AppendInv(s, a);
      case Soft(_, _) => SoftInv(s, a);
      case Hard(_, _) => HardInv(s, a);
      case OpenWriter(_, _, _) => OpenUpInv(s, a);
      case _ => PullInv(s, a);
    }
  }

  lemma {:induction false} RunInv(states: seq<System>, steps: seq<Step>, i: nat)
    requires Run(states, steps) && i <= |steps|
    ensures Inv(states[i])
  {
    if i == 0 {
      InitInv(states[0]);
    } else {
      RunInv(states, steps, i - 1);
      NextInv(states[i - 1], steps[i - 1], states[i]);
    }
  }

  lemma CommittedGrows(states: seq<System>, steps: seq<Step>, k: nat)
    requires Run(states, steps) && k < |steps|
    ensures states[k].committed <= states[k + 1].committed
  {
    RunInv(states, steps, k);
    NextInv(states[k], steps[k], states[k + 1]);
  }

  /** What was committed by a hard checkpoint that returned is never lost or changed afterwards. */
  lemma CommittedOnlyGrows(states: seq<System>, steps: seq<Step>, i: nat, j: nat)
    requires Run(states, steps) && i <= j <= |steps|
    ensures states[i].committed <= states[j].committed
  {
    var chain := seq(|states|, k requires 0 <= k < |states| => states[k].committed);
    forall k | 0 < k < |chain| ensures chain[k - 1] <= chain[k] {
      CommittedGrows(states, steps, k - 1);
    }
    PrefixChain(chain, i, j);
  }

  /** A process opening `after` recovers a hard checkpoint that covers `committed`, over bytes that `before` had. */
  ghost predicate HardSurvives(committed: seq<byte>, before: Disk, after: Disk)
    requires |after.slots| == 4
  {
    var r := ReadCheckpoint(FRESH, after.slots, |after.data|);
    && |committed| <= r.hardCheckpoint <= r.checkpoint <= |after.data|
    && r.hardCheckpoint <= |before.data|
    && committed <= after.data
    && after.data[..r.hardCheckpoint] == before.data[..r.hardCheckpoint]
  }

  lemma CrashSafeRecovers(before: Disk, after: Disk, committed: seq<byte>, found: int, since: set<int>)
    requires before.Valid() && CrashSafe(before, committed, found, since) && CrashOutcome(before, after)
    ensures HardSurvives(committed, before, after)
  {
    var c: Index :|
      Core(after, c, found, since) && Carries(after, c, committed) && after.slots[2 * c] <= before.clean;
    CoreReadable(after, c, found, since);
    OpenRecovers(after.slots, c, |after.data|);
    var n := after.slots[2 * c];
    assert after.data[..n] == after.data[..before.clean][..n];
    assert before.data[..n] == before.data[..before.clean][..n];
  }

  /**
   Durability of hard checkpoints. Wherever a crash interrupts a run, a process opening the file
   recovers a hard checkpoint no smaller than any that returned; the bytes committed by it are
   there, and every byte below the recovered one is as it was in the file just before the crash.
   */
  lemma HardCheckpointsSurviveCrashes(states: seq<System>, steps: seq<Step>, i: nat, j: nat)
    requires Run(states, steps) && i <= j < |steps| && steps[j].Crash?
    ensures Enabled(states[j], steps[j].action) && steps[j].k <= |Ops(states[j], steps[j].action)|
    ensures steps[j].found.Valid()
    ensures HardSurvives(states[i].committed,
                         ApplyAll(states[j].disk, Ops(states[j], steps[j].action)[..steps[j].k]), steps[j].found)
  {
    RunInv(states, steps, j);
    CommittedOnlyGrows(states, steps, i, j);
    assert Next(states[j], steps[j], states[j + 1]);
    var s, a, k := states[j], steps[j].action, steps[j].k;
    AnyCrashSafe(s, a, k);
    CrashSafeRecovers(ApplyAll(s.disk, Ops(s, a)[..k]), steps[j].found, s.committed, s.found, s.since + Attempted(a));
  }

  /** A hard checkpoint that returned has committed exactly the bytes below its position. */
  lemma HardCheckpointCommits(states: seq<System>, steps: seq<Step>, i: nat)
    requires Run(states, steps) && i < |steps| && steps[i].Done? && steps[i].action.Hard?
    ensures |states[i + 1].committed| >= steps[i].action.position
    ensures states[i + 1].committed == Take(states[i].disk.data, |states[i + 1].committed|)
  {
    RunInv(states, steps, i);
    assert Next(states[i], steps[i], states[i + 1]);
  }

  /** The newest checkpoint of a reachable state is found, exactly, by a pull from any stale memory; and what it
      makes the process write next spares the current hard pair and the newest soft checkpoint. */
  lemma StalePullFindsNewest(states: seq<System>, steps: seq<Step>, i: nat, j: Local)
    requires Run(states, steps) && i <= |steps| && states[i].up
    requires |states[i].disk.slots| == 4 && Stale(j, states[i])
    ensures
      var s := states[i];
      var hard := s.disk.slots[2 * s.cur];
      var r := ReadCheckpoint(j, s.disk.slots, -1);
      && r.checkpoint == s.newest && r.hardCheckpoint == hard
      && s.disk.slots[2 * r.hardIndex] == hard && s.disk.slots[2 * r.hardIndex + 1] == hard
      && SoftSlot(r) != 2 * r.hardIndex && SoftSlot(r) != 2 * r.hardIndex + 1
      && (hard < s.newest ==>
            var newestSlot := 2 * (1 - r.hardIndex) + r.softIndex;
            s.disk.slots[newestSlot] == -s.newest && SoftSlot(r) != newestSlot)
  {
    RunInv(states, steps, i);
    var s := states[i];
    CoreReadable(s.disk, s.cur, s.found, s.since);
    PullIsUpToDate(j, s.disk.slots, s.cur, s.newest, -1);
  }

  /** No writing process of a reachable state is ahead of the file, so the theorem above applies to every one of them. */
  lemma EveryProcessIsStale(states: seq<System>, steps: seq<Step>, i: nat, p: nat)
    requires Run(states, steps) && i <= |steps| && states[i].up && p in states[i].procs
    ensures |states[i].disk.slots| == 4 && Stale(states[i].procs[p], states[i])
  {
    RunInv(states, steps, i);
  }

  /** Between crashes, the bytes below a checkpoint never change once it is written. */
  lemma {:induction false} PublishedOnlyGrows(states: seq<System>, steps: seq<Step>, i: nat, j: nat)
    requires Run(states, steps) && i <= j <= |steps| && states[i].up
    requires forall m :: i <= m < j ==> steps[m].Done?
    ensures states[j].up && states[i].published <= states[j].published
  {
    if i < j {
      PublishedOnlyGrows(states, steps, i, j - 1);
      RunInv(states, steps, j - 1);
      NextInv(states[j - 1], steps[j - 1], states[j]);
      StaysUp(states[j - 1], steps[j - 1], states[j]);
    }
  }

  lemma StaysUp(s: System, step: Step, s': System)
    requires Inv(s) && s.up && step.Done? && Next(s, step, s')
    ensures s'.up
  {
    UpStep(s, step.action);
  }

  /** A checkpoint that returned is not above the newest, which every process then finds. */
  lemma CheckpointIsPublished(states: seq<System>, steps: seq<Step>, i: nat)
    requires Run(states, steps) && i < |steps| && steps[i].Done? && (steps[i].action.Soft? || steps[i].action.Hard?)
    ensures states[i + 1].up && steps[i].action.position <= states[i + 1].newest
    ensures states[i].newest <= states[i + 1].newest && states[i + 1].disk.data == states[i].disk.data
  {
    RunInv(states, steps, i);
    assert Next(states[i], steps[i], states[i + 1]);
    UpStep(states[i], steps[i].action);
    DataStays(states[i].disk, Ops(states[i], steps[i].action));
  }

  /** What is published is the file below the newest checkpoint. */
  lemma PublishedIsTheFile(states: seq<System>, steps: seq<Step>, i: nat)
    requires Run(states, steps) && i <= |steps| && states[i].up
    ensures states[i].published <= states[i].disk.data && |states[i].published| == states[i].newest
  {
    RunInv(states, steps, i);
  }

  // ---------- a soft checkpoint beyond the end of the file is not revived ----------

  predicate Reopens(s: System, step: Step) {
    step.Done? && step.action.OpenWriter? && !s.up
  }

  predicate Writes(step: Step, position: int) {
    (step.action.Soft? || step.action.Hard?) && step.action.position == position
  }

  lemma {:induction false} SinceIsWritten(states: seq<System>, steps: seq<Step>, i: nat, j: nat)
    requires Run(states, steps) && 0 < i <= j <= |steps|
    requires Reopens(states[i - 1], steps[i - 1])
    requires forall m :: i <= m < j ==> !Reopens(states[m], steps[m])
    ensures forall x <- states[j].since :: exists m :: i <= m < j && Writes(steps[m], x)
  {
    if i == j {
      assert Next(states[i - 1], steps[i - 1], states[i]);
    } else {
      SinceIsWritten(states, steps, i, j - 1);
      assert Next(states[j - 1], steps[j - 1], states[j]);
      forall x <- states[j].since
        ensures exists m :: i <= m < j && Writes(steps[m], x)
      {
        if x !in states[j - 1].since {
          assert Writes(steps[j - 1], x);
        }
      }
    }
  }

  lemma {:induction false} FoundIsKept(states: seq<System>, steps: seq<Step>, i: nat, j: nat)
    requires Run(states, steps) && 0 < i <= j <= |steps|
    requires Reopens(states[i - 1], steps[i - 1])
    requires forall m :: i <= m < j ==> !Reopens(states[m], steps[m])
    ensures states[j].found == states[i].newest
  {
    NextFound(states[i - 1], steps[i - 1], states[i]);
    if i < j {
      FoundIsKept(states, steps, i, j - 1);
      NextFound(states[j - 1], steps[j - 1], states[j]);
    }
  }

  lemma NextFound(s: System, step: Step, s': System)
    requires Next(s, step, s')
    ensures if Reopens(s, step) then s'.found == s'.newest else s'.found == s.found
  {
  }

  /**
   After a writer reopened the file, every checkpoint an opener can recover, whatever crashes
   happened in between, was written since, or is not above the one found at the reopening: in
   particular no soft checkpoint that was beyond the end of the file comes back.
   */
  lemma NoCheckpointIsRevived(states: seq<System>, steps: seq<Step>, i: nat, j: nat)
    requires Run(states, steps) && 0 < i <= j <= |steps|
    requires Reopens(states[i - 1], steps[i - 1])
    requires forall m :: i <= m < j ==> !Reopens(states[m], steps[m])
    ensures |states[j].disk.slots| == 4
    ensures
      var r := ReadCheckpoint(FRESH, states[j].disk.slots, |states[j].disk.data|);
      || r.checkpoint <= states[i].newest
      || exists m :: i <= m < j && Writes(steps[m], r.checkpoint)
  {
    RunInv(states, steps, j);
    var s := states[j];
    var c: Index :| Core(s.disk, c, s.found, s.since);
    RecoveredIsKnown(s.disk, c, s.found, s.since);
    FoundIsKept(states, steps, i, j);
    var r := ReadCheckpoint(FRESH, s.disk.slots, |s.disk.data|);
    if r.checkpoint > states[i].newest {
      SinceIsWritten(states, steps, i, j);
    }
  }

  /** While no crash intervenes, an opener recovers exactly the checkpoint found at the reopening or one written since. */
  lemma OpenerFindsFoundOrWritten(states: seq<System>, steps: seq<Step>, i: nat, j: nat)
    requires Run(states, steps) && 0 < i <= j <= |steps| && states[j].up
    requires Reopens(states[i - 1], steps[i - 1])
    requires forall m :: i <= m < j ==> !Reopens(states[m], steps[m])
    ensures |states[j].disk.slots| == 4
    ensures
      var r := ReadCheckpoint(FRESH, states[j].disk.slots, |states[j].disk.data|);
      && r.checkpoint == states[j].newest
      && (r.checkpoint == states[i].newest || exists m :: i <= m < j && Writes(steps[m], r.checkpoint))
  {
    RunInv(states, steps, j);
    var s := states[j];
    CoreReadable(s.disk, s.cur, s.found, s.since);
    PullIsUpToDate(FRESH, s.disk.slots, s.cur, s.newest, |s.disk.data|);
    FoundIsKept(states, steps, i, j);
    if s.newest != s.found {
      SinceIsWritten(states, steps, i, j);
    }
  }

  lemma RecoversCommitted(s: System)
    requires Inv(s)
    ensures |s.disk.slots| == 4
    ensures |s.committed| <= ReadCheckpoint(FRESH, s.disk.slots, |s.disk.data|).checkpoint
  {
    var c: Index :| Core(s.disk, c, s.found, s.since) && Carries(s.disk, c, s.committed);
    HardIsRecovered(s.disk, c, s.found, s.since);
  }

  lemma HardIsRecovered(d: Disk, c: Index, found: int, since: set<int>)
    requires Core(d, c, found, since)
    ensures d.slots[2 * c] <= ReadCheckpoint(FRESH, d.slots, |d.data|).checkpoint
  {
    CoreReadable(d, c, found, since);
    OpenRecovers(d.slots, c, |d.data|);
  }

  /** After a crash this may fail (see `SoftRollback`), unless the checkpoint found at the reopening has been made hard. */
  lemma HardenedReopenIsExact(states: seq<System>, steps: seq<Step>, i: nat, h: nat, j: nat)
    requires Run(states, steps) && 0 < i <= h < j <= |steps|
    requires Reopens(states[i - 1], steps[i - 1])
    requires forall m :: i <= m < j ==> !Reopens(states[m], steps[m])
    requires steps[h].Done? && steps[h].action.Hard? && steps[h].action.position >= states[i].newest
    ensures |states[j].disk.slots| == 4
    ensures
      var r := ReadCheckpoint(FRESH, states[j].disk.slots, |states[j].disk.data|);
      r.checkpoint == states[i].newest || exists m :: i <= m < j && Writes(steps[m], r.checkpoint)
  {
    NoCheckpointIsRevived(states, steps, i, j);
    HardCheckpointCommits(states, steps, h);
    CommittedOnlyGrows(states, steps, h + 1, j);
    RunInv(states, steps, j);
    RecoversCommitted(states[j]);
  }

  /**
   A read-only process does not repair: after opening a crashed file, its next pull ignores the
   file size. It stays inside the file exactly when no soft checkpoint is beyond the end.
   */
  lemma PullAfterOpenStaysInFile(slots: seq<int>, c: Index, size: nat)
    requires |slots| == 4 && Readable(slots, c) && slots[2 * c] <= size
    ensures
      var first := ReadCheckpoint(FRESH, slots, size);
      ReadCheckpoint(first, slots, -1).checkpoint <= size <==> forall k :: 0 <= k < 4 ==> Neg(slots[k]) <= size
  {
    OpenRecovers(slots, c, size);
    var j := ReadCheckpoint(FRESH, slots, size);
    var o: Index := 1 - c;
    var a, b := Neg(slots[2 * o]), Neg(slots[2 * o + 1]);
    if a <= size && b <= size {
      PullIsUpToDate(j, slots, c, j.checkpoint, -1);
    } else {
      var n := if a < b then b else a;
      PullIsUpToDate(j, slots, c, n, -1);
    }
  }
}
