/**
 Read-only processes beside the writers. They open and pull the journal at any time, also after a
 crash and before any writer has repaired the slots; they never write.
 */
module CheckpointReaders {
  import opened Bytes
  import opened Disk
  import opened Checkpoint
  import opened CheckpointProtocol
  import opened SoftRollback

  /** What a reader remembers; `strayed` is history: it has pulled a crashed file with a soft checkpoint beyond the end. */
  datatype Reader = Reader(local: Local, strayed: bool)

  datatype Shared = Shared(system: System, readers: map<nat, Reader>)

  datatype Move =
    | Write(step: Step)     // anything the writers or a crash do
    | OpenReader(p: nat)
    | PullReader(p: nat)

  /** A soft checkpoint lies beyond the end of the file. */
  predicate SoftBeyond(slots: seq<int>, size: nat)
    requires |slots| == 4
  {
    exists k :: 0 <= k < 4 && Neg(slots[k]) > size
  }

  ghost predicate NextShared(s: Shared, m: Move, t: Shared) {
    s.system.disk.Valid() &&
    var d := s.system.disk;
    match m
    case Write(step) =>
      Next(s.system, step, t.system) && t.readers == if step.Crash? then map[] else s.readers
    case OpenReader(p) =>
      p !in s.readers && t == s.(readers := s.readers[p := Reader(ReadCheckpoint(FRESH, d.slots, |d.data|), false)])
    case PullReader(p) =>
      p in s.readers && t == s.(readers := s.readers[p := PulledReader(s.readers[p], d, s.system.up)])
  }

  function PulledReader(x: Reader, d: Disk, up: bool): Reader
    requires |d.slots| == 4
  {
    Reader(ReadCheckpoint(x.local, d.slots, -1), x.strayed || (!up && SoftBeyond(d.slots, |d.data|)))
  }

  ghost predicate RunShared(states: seq<Shared>, moves: seq<Move>) {
    && |states| == |moves| + 1
    && Init(states[0].system) && states[0].readers == map[]
    && forall i :: 0 <= i < |moves| ==> NextShared(states[i], moves[i], states[i + 1])
  }

  // ---------- the invariant ----------

  /** While the system is up: a reader that has not strayed is not ahead of the newest checkpoints. */
  predicate UpReader(x: Reader, s: System)
    requires |s.disk.slots| == 4
  {
    && HEADER_SIZE <= x.local.checkpoint && x.local.hardCheckpoint <= x.local.checkpoint
    && (!x.strayed ==> Stale(x.local, s))
  }

  /** After a crash: a reader has the checkpoint that opening recovers or, if it has strayed, one beyond the end of the file. */
  predicate DownReader(x: Reader, d: Disk, c: Index)
    requires d.Valid()
  {
    var r := ReadCheckpoint(FRESH, d.slots, |d.data|);
    && x.local.hardCheckpoint == d.slots[2 * c] && HEADER_SIZE <= x.local.checkpoint && x.local.hardCheckpoint <= x.local.checkpoint
    && (if x.strayed then x.local.checkpoint > |d.data| && x.local.checkpoint == MaxSoft(d.slots, c) else x.local.checkpoint == r.checkpoint)
  }

  function MaxSoft(slots: seq<int>, c: Index): int
    requires |slots| == 4
  {
    var a, b := Neg(slots[2 * (1 - c)]), Neg(slots[2 * (1 - c) + 1]);
    if a < b then b else a
  }

  ghost predicate SharedInv(s: Shared) {
    Inv(s.system) &&
    if s.system.up then forall p <- s.readers :: UpReader(s.readers[p], s.system)
    else exists c: Index :: AllDown(s, c)
  }

  ghost predicate AllDown(s: Shared, c: Index) {
    && Core(s.system.disk, c, s.system.found, s.system.since)
    && forall p <- s.readers :: DownReader(s.readers[p], s.system.disk, c)
  }

  lemma OnlySoftDangles(slots: seq<int>, c: Index, size: nat)
    requires |slots| == 4 && Readable(slots, c) && slots[2 * c] <= size
    ensures SoftBeyond(slots, size) <==> MaxSoft(slots, c) > size
  {
    var o: Index := 1 - c;
    assert 2 * o == 0 || 2 * o == 2;
    if MaxSoft(slots, c) > size {
      assert Neg(slots[2 * o]) > size || Neg(slots[2 * o + 1]) > size;
    }
  }

  lemma OpenDown(d: Disk, c: Index, found: int, since: set<int>)
    requires Core(d, c, found, since)
    ensures DownReader(Reader(ReadCheckpoint(FRESH, d.slots, |d.data|), false), d, c)
  {
    CoreReadable(d, c, found, since);
    OpenRecovers(d.slots, c, |d.data|);
  }

  lemma PullDown(x: Reader, d: Disk, c: Index, found: int, since: set<int>)
    requires Core(d, c, found, since) && DownReader(x, d, c)
    ensures DownReader(PulledReader(x, d, false), d, c)
  {
    CoreReadable(d, c, found, since);
    OpenRecovers(d.slots, c, |d.data|);
    OnlySoftDangles(d.slots, c, |d.data|);
    var r := ReadCheckpoint(FRESH, d.slots, |d.data|);
    if SoftBeyond(d.slots, |d.data|) {
      PullIsUpToDate(x.local, d.slots, c, MaxSoft(d.slots, c), -1);
    } else {
      PullIsUpToDate(x.local, d.slots, c, r.checkpoint, -1);
    }
  }

  lemma PullUp(x: Reader, s: System)
    requires UpInv(s) && UpReader(x, s)
    ensures UpReader(PulledReader(x, s.disk, true), s)
  {
    CoreReadable(s.disk, s.cur, s.found, s.since);
    if !x.strayed {
      PullIsUpToDate(x.local, s.disk.slots, s.cur, s.newest, -1);
    }
  }

  lemma OpenUp(s: System)
    requires UpInv(s)
    ensures UpReader(Reader(ReadCheckpoint(FRESH, s.disk.slots, |s.disk.data|), false), s)
  {
    CoreReadable(s.disk, s.cur, s.found, s.since);
    PullIsUpToDate(FRESH, s.disk.slots, s.cur, s.newest, |s.disk.data|);
  }

  /** A reader keeps its standing while the writers go on. */
  lemma WritersGoOn(s: System, step: Step, t: System, x: Reader)
    requires Inv(s) && s.up && Next(s, step, t) && step.Done? && UpReader(x, s)
    ensures |t.disk.slots| == 4 && UpReader(x, t)
  {
    NextInv(s, step, t);
    StaysUp(s, step, t);
    assert |s.published| == s.newest && |t.published| == t.newest;
    assert |s.committed| == s.disk.slots[2 * s.cur] && |t.committed| == t.disk.slots[2 * t.cur];
  }

  /** The writer that reopens a crashed file recovers what the readers have recovered. */
  lemma WriterReopens(s: System, a: Action, x: Reader, c: Index)
    requires DownInv(s) && a.OpenWriter? && Enabled(s, a)
    requires Core(s.disk, c, s.found, s.since) && DownReader(x, s.disk, c)
    ensures |Result(s, a).disk.slots| == 4 && UpReader(x, Result(s, a))
  {
    OpenDownInv(s, a);
    CoreReadable(s.disk, c, s.found, s.since);
    OpenRecovers(s.disk.slots, c, |s.disk.data|);
    var t := Result(s, a);
    assert t.newest == ReadCheckpoint(FRESH, s.disk.slots, |s.disk.data|).checkpoint;
    assert |t.committed| == t.disk.slots[2 * t.cur];
    assert |t.committed| == s.disk.slots[2 * c];
  }

  lemma NoReaders(s: Shared)
    requires DownInv(s.system) && s.readers == map[]
    ensures SharedInv(s)
  {
    var c: Index :| Core(s.system.disk, c, s.system.found, s.system.since) && Kept(s.system, c);
    assert AllDown(s, c);
  }

  lemma WriteUp(s: Shared, step: Step, t: Shared)
    requires SharedInv(s) && NextShared(s, Write(step), t) && step.Done? && s.system.up
    ensures SharedInv(t)
  {
    NextInv(s.system, step, t.system);
    StaysUp(s.system, step, t.system);
    forall p <- t.readers ensures |t.system.disk.slots| == 4 && UpReader(t.readers[p], t.system) {
      WritersGoOn(s.system, step, t.system, s.readers[p]);
    }
  }

  lemma WriteDown(s: Shared, a: Action, t: Shared)
    requires SharedInv(s) && NextShared(s, Write(Done(a)), t) && !s.system.up
    ensures SharedInv(t)
  {
    var c: Index :| AllDown(s, c);
    if a.OpenWriter? {
      OpenDownInv(s.system, a);
      forall p <- t.readers ensures |t.system.disk.slots| == 4 && UpReader(t.readers[p], t.system) {
        WriterReopens(s.system, a, s.readers[p], c);
      }
    } else {
      assert t == s;
    }
  }

  lemma WriteShared(s: Shared, step: Step, t: Shared)
    requires SharedInv(s) && NextShared(s, Write(step), t)
    ensures SharedInv(t)
  {
    if step.Crash? {
      NextInv(s.system, step, t.system);
      NoReaders(t);
    } else if s.system.up {
      WriteUp(s, step, t);
    } else {
      WriteDown(s, step.action, t);
    }
  }

  lemma ReaderShared(s: Shared, m: Move, t: Shared, p: nat)
    requires SharedInv(s) && NextShared(s, m, t) && (m == OpenReader(p) || m == PullReader(p)) && s.system.up
    ensures SharedInv(t)
  {
    if m.OpenReader? {
      OpenUp(s.system);
    } else {
      PullUp(s.readers[p], s.system);
    }
  }

  lemma ReaderSharedDown(s: Shared, m: Move, t: Shared, p: nat)
    requires SharedInv(s) && NextShared(s, m, t) && (m == OpenReader(p) || m == PullReader(p)) && !s.system.up
    ensures SharedInv(t)
  {
    var d, found, since := s.system.disk, s.system.found, s.system.since;
    var c: Index :| AllDown(s, c);
    if m.OpenReader? {
      OpenDown(d, c, found, since);
    } else {
      PullDown(s.readers[p], d, c, found, since);
    }
    OneReaderDown(s, p, t.readers[p], c);
  }

  lemma OneReaderDown(s: Shared, p: nat, x: Reader, c: Index)
    requires AllDown(s, c) && DownReader(x, s.system.disk, c)
    ensures AllDown(s.(readers := s.readers[p := x]), c)
  {
  }

  /** Every move of writers, readers and crashes keeps the invariant. */
  lemma SharedStep(s: Shared, m: Move, t: Shared)
    requires SharedInv(s) && NextShared(s, m, t)
    ensures SharedInv(t)
  {
    if m.Write? {
      WriteShared(s, m.step, t);
    } else if s.system.up {
      ReaderShared(s, m, t, m.p);
    } else {
      ReaderSharedDown(s, m, t, m.p);
    }
  }

  lemma {:induction false} SharedRunInv(states: seq<Shared>, moves: seq<Move>, i: nat)
    requires RunShared(states, moves) && i <= |moves|
    ensures SharedInv(states[i])
  {
    if i == 0 {
      InitInv(states[0].system);
      NoReaders(states[0]);
    } else {
      SharedRunInv(states, moves, i - 1);
      SharedStep(states[i - 1], moves[i - 1], states[i]);
    }
  }

  // ---------- what readers see ----------

  /** While the system is up, a reader that has not strayed is at or below the newest checkpoints. */
  lemma ReadersAreStale(states: seq<Shared>, moves: seq<Move>, i: nat, p: nat)
    requires RunShared(states, moves) && i <= |moves| && states[i].system.up && p in states[i].readers
    ensures |states[i].system.disk.slots| == 4
    ensures !states[i].readers[p].strayed ==> Stale(states[i].readers[p].local, states[i].system)
  {
    SharedRunInv(states, moves, i);
  }

  /**
   After a crash and before a writer reopens the file, a reader is beyond the end of the file if
   and only if it has pulled since, while a soft checkpoint was beyond the end.
   */
  lemma StrayedExactly(states: seq<Shared>, moves: seq<Move>, i: nat, p: nat)
    requires RunShared(states, moves) && i <= |moves| && !states[i].system.up && p in states[i].readers
    ensures states[i].readers[p].local.checkpoint > |states[i].system.disk.data| <==> states[i].readers[p].strayed
  {
    SharedRunInv(states, moves, i);
    var s := states[i];
    var c: Index :| AllDown(s, c);
    CoreReadable(s.system.disk, c, s.system.found, s.system.since);
    OpenRecovers(s.system.disk.slots, c, |s.system.disk.data|);
  }

  /** The moves by which a reader strays: it pulls a crashed file while a soft checkpoint is beyond the end. */
  lemma StraysExactly(s: Shared, m: Move, t: Shared, p: nat)
    requires s.system.disk.Valid() && NextShared(s, m, t) && p in s.readers && p in t.readers && !s.readers[p].strayed
    ensures t.readers[p].strayed <==>
            m == PullReader(p) && !s.system.up && SoftBeyond(s.system.disk.slots, |s.system.disk.data|)
  {
  }

  /** A reader that is ahead of the newest checkpoint stays where it is, whatever it pulls, until that checkpoint catches up. */
  lemma AheadStaysAhead(states: seq<Shared>, moves: seq<Move>, i: nat, p: nat)
    requires RunShared(states, moves) && i < |moves| && states[i].system.up && moves[i] == PullReader(p)
    requires p in states[i].readers && states[i].readers[p].local.checkpoint > states[i].system.newest
    ensures p in states[i + 1].readers && states[i + 1].readers[p].local.checkpoint == states[i].readers[p].local.checkpoint
  {
    SharedRunInv(states, moves, i);
    assert NextShared(states[i], moves[i], states[i + 1]);
    PullAhead(states[i].system, states[i].readers[p].local);
  }

  lemma PullAhead(s: System, j: Local)
    requires UpInv(s) && HEADER_SIZE <= j.checkpoint && j.hardCheckpoint <= j.checkpoint && j.checkpoint > s.newest
    ensures ReadCheckpoint(j, s.disk.slots, -1).checkpoint == j.checkpoint
  {
    CoreReadable(s.disk, s.cur, s.found, s.since);
    var o: Index := 1 - s.cur;
    assert 2 * o == 0 || 2 * o == 2;
  }

  // ---------- a reader that strays ----------

  const LAST: seq<int> := [-81, -50, 41, 41]
  const REOPEN := OpenWriter(2, Overwrite, true)

  /** What the reader remembers after opening the file of the story's second crash, and after pulling it. */
  lemma StrayLocals()
    ensures ReadCheckpoint(FRESH, LAST, 61) == Local(1, 1, 50, 41)
    ensures ReadCheckpoint(Local(1, 1, 50, 41), LAST, -1) == Local(1, 0, 81, 41)
    ensures SoftBeyond(LAST, 61)
  {
    assert Neg(LAST[0]) > 61;
  }

  /** After the second crash a reader opens and pulls the file, and then a writer reopens it. */
  function StrayStory(k: nat): Shared
    requires k <= 13
  {
    if k <= 10 then Shared(Story(k), map[])
    else if k == 11 then Shared(Story(10), map[1 := Reader(Local(1, 1, 50, 41), false)])
    else Shared(if k == 12 || !Enabled(Story(10), REOPEN) then Story(10) else Result(Story(10), REOPEN),
                map[1 := Reader(Local(1, 0, 81, 41), true)])
  }

  function StrayMove(k: nat): Move
    requires k < 13
  {
    if k < 10 then Write(StoryStep(k))
    else if k == 10 then OpenReader(1)
    else if k == 11 then PullReader(1)
    else Write(Done(REOPEN))
  }

  lemma StrayNext(k: nat)
    requires k < 13
    ensures NextShared(StrayStory(k), StrayMove(k), StrayStory(k + 1))
  {
    StrayLocals();
    if k < 10 {
      StoryNext(k);
    } else if k == 12 {
      assert OpenLocal(LAST, 61, Overwrite).Opened?;
    }
  }

  /**
   A reader ends ahead of the file, and stays ahead when a writer has repaired the file: it
   believes in a checkpoint at 81, the newest one is at 50.
   */
  lemma ReaderStrays() returns (states: seq<Shared>, moves: seq<Move>)
    ensures RunShared(states, moves) && |moves| == 13
    ensures states[13].system.up && states[13].system.newest == 50
    ensures 1 in states[13].readers && states[13].readers[1].local.checkpoint == 81 && states[13].readers[1].strayed
  {
    states := seq(14, k requires 0 <= k < 14 => StrayStory(k));
    moves := seq(13, k requires 0 <= k < 13 => StrayMove(k));
    forall i | 0 <= i < 13 ensures NextShared(states[i], moves[i], states[i + 1]) {
      StrayNext(i);
    }
    StrayLocals();
    assert OpenLocal(LAST, 61, Overwrite).Opened?;
    assert states[13] == StrayStory(13) && states[0] == StrayStory(0);
  }
}
