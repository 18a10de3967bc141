/**
 Exactly when a crash can bring back an older soft checkpoint than the one found at the reopening
 of the file, and what a writer can do about it.
 */
module RollbackExactly {
  import opened Bytes
  import opened Disk
  import opened Checkpoint
  import opened CheckpointProtocol

  /** The checkpoint found at the reopening, or one written since. */
  predicate Current(x: int, found: int, since: set<int>) {
    x == found || x in since
  }

  function Recovered(d: Disk): int
    requires |d.slots| == 4
  {
    ReadCheckpoint(FRESH, d.slots, |d.data|).checkpoint
  }

  /** Whatever a crash leaves in slot `k`, it is a current checkpoint that the file is long enough for. */
  ghost predicate Firm(d: Disk, k: nat, found: int, since: set<int>)
    requires d.Valid() && k < 4
  {
    forall v <- d.held[k] :: IsFirm(v, d.durableSize, found, since)
  }

  predicate IsFirm(v: int, durable: nat, found: int, since: set<int>) {
    v < 0 && Current(-v, found, since) && -v <= durable
  }

  /** The hard checkpoint is current, or one of the soft slots is firm. */
  ghost predicate Anchored(d: Disk, c: Index, found: int, since: set<int>)
    requires d.Valid()
  {
    || Current(d.slots[2 * c], found, since)
    || Firm(d, 2 * (1 - c), found, since)
    || Firm(d, 2 * (1 - c) + 1, found, since)
  }

  ghost predicate NoRollback(d: Disk, found: int, since: set<int>)
    requires d.Valid()
  {
    forall after: Disk :: CrashOutcome(d, after) ==> Current(Recovered(after), found, since)
  }

  lemma AnchoredHolds(d: Disk, c: Index, found: int, since: set<int>, after: Disk)
    requires Core(d, c, found, since) && (forall x <- since :: found <= x) && Anchored(d, c, found, since) && CrashOutcome(d, after)
    ensures Current(Recovered(after), found, since)
  {
    OutcomeKeepsCore(d, after, c, found, since);
    CoreReadable(after, c, found, since);
    OpenRecovers(after.slots, c, |after.data|);
    RecoveredIsKnown(after, c, found, since);
    var o: Index := 1 - c;
    assert after.slots[2 * o] in d.held[2 * o] && after.slots[2 * o + 1] in d.held[2 * o + 1];
  }

  /** A crash that cuts the file as short as it can and keeps one value per soft slot. */
  function Worst(d: Disk, c: Index, v: int, w: int): Disk
    requires d.Valid()
  {
    var hard := d.slots[2 * c];
    var slots := if c == 0 then [hard, hard, v, w] else [v, w, hard, hard];
    Disk(d.data[..d.durableSize], d.durableSize, d.durableSize, slots, Singletons(slots))
  }

  lemma WorstIsOutcome(d: Disk, c: Index, v: int, w: int, found: int, since: set<int>)
    requires Core(d, c, found, since) && v in d.held[2 * (1 - c)] && w in d.held[2 * (1 - c) + 1]
    ensures CrashOutcome(d, Worst(d, c, v, w))
  {
    var after := Worst(d, c, v, w);
    assert after.data[..d.clean] == d.data[..d.clean];
    assert c == 0 || c == 1;
  }

  lemma NotAnchoredFails(d: Disk, c: Index, found: int, since: set<int>) returns (after: Disk)
    requires Core(d, c, found, since) && !Anchored(d, c, found, since)
    ensures CrashOutcome(d, after) && !Current(Recovered(after), found, since)
  {
    var o: Index := 1 - c;
    var v :| v in d.held[2 * o] && !IsFirm(v, d.durableSize, found, since);
    var w :| w in d.held[2 * o + 1] && !IsFirm(w, d.durableSize, found, since);
    after := Worst(d, c, v, w);
    WorstIsOutcome(d, c, v, w, found, since);
    OutcomeKeepsCore(d, after, c, found, since);
    CoreReadable(after, c, found, since);
    WorstRecovers(after.slots, c, v, w, |after.data|);
  }

  /** What is recovered is the hard checkpoint, or a soft one that fits. */
  lemma WorstRecovers(slots: seq<int>, c: Index, v: int, w: int, size: nat)
    requires |slots| == 4 && Readable(slots, c) && slots[2 * c] <= size
    requires slots[2 * (1 - c)] == v && slots[2 * (1 - c) + 1] == w
    ensures var r := ReadCheckpoint(FRESH, slots, size).checkpoint;
            r == slots[2 * c] || (r <= size && r > 0 && (r == -v || r == -w))
  {
    OpenRecovers(slots, c, size);
  }

  /** Every crash leaves a current checkpoint to be recovered if and only if the slots are anchored. */
  lemma RollbackIff(d: Disk, c: Index, found: int, since: set<int>)
    requires Core(d, c, found, since) && forall x <- since :: found <= x
    ensures NoRollback(d, found, since) <==> Anchored(d, c, found, since)
  {
    if Anchored(d, c, found, since) {
      forall after: Disk | CrashOutcome(d, after) ensures Current(Recovered(after), found, since) {
        AnchoredHolds(d, c, found, since, after);
      }
    } else {
      var after := NotAnchoredFails(d, c, found, since);
    }
  }

  /**
   In every run, a crash of a reachable state recovers the checkpoint found at the reopening or one
   written since, whatever it loses, if and only if the hard checkpoint is such a one or every
   value that some soft slot may hold is, and fits in the part of the file that cannot be lost.
   */
  lemma RollbackExactly(states: seq<System>, steps: seq<Step>, i: nat)
    requires Run(states, steps) && i <= |steps| && states[i].up
    ensures states[i].disk.Valid()
    ensures NoRollback(states[i].disk, states[i].found, states[i].since)
            <==> Anchored(states[i].disk, states[i].cur, states[i].found, states[i].since)
  {
    RunInv(states, steps, i);
    RollbackIff(states[i].disk, states[i].cur, states[i].found, states[i].since);
  }

  // ---------- at most one soft checkpoint since the reopening ----------

  /** The slots of the soft pair that hold the checkpoint found hold nothing else, whatever a crash does. */
  ghost predicate Settled(d: Disk, c: Index, found: int)
    requires d.Valid()
  {
    || d.slots[2 * c] == found
    || (found <= d.durableSize && SettledSlot(d, 2 * (1 - c), found) && SettledSlot(d, 2 * (1 - c) + 1, found))
  }

  ghost predicate SettledSlot(d: Disk, k: nat, found: int)
    requires d.Valid() && k < 4
  {
    d.slots[k] == -found ==> d.held[k] == {-found}
  }

  /** Nothing has been checkpointed since the reopening. */
  ghost predicate JustReopened(s: System) {
    UpInv(s) && s.newest == s.found && s.since == {} && Settled(s.disk, s.cur, s.found)
  }

  /** At most one soft checkpoint has been written since, at `position`. */
  ghost predicate OneSoft(s: System, position: int) {
    UpInv(s) && s.since <= {position} && Anchored(s.disk, s.cur, s.found, s.since)
  }

  lemma SettledIsAnchored(s: System)
    requires JustReopened(s)
    ensures Anchored(s.disk, s.cur, s.found, s.since)
  {
    CoreReadable(s.disk, s.cur, s.found, s.since);
    var o: Index := 1 - s.cur;
    if s.disk.slots[2 * s.cur] != s.found {
      var k := if s.disk.slots[2 * o] == -s.found then 2 * o else 2 * o + 1;
      assert s.disk.slots[k] == -s.found && s.disk.held[k] == {-s.found};
      assert Firm(s.disk, k, s.found, s.since);
    }
  }

  lemma ReopenSettles(s: System, a: Action)
    requires DownInv(s) && a.OpenWriter? && Enabled(s, a)
    ensures JustReopened(Result(s, a))
  {
    OpenDownInv(s, a);
    var c: Index :| Core(s.disk, c, s.found, s.since) && Kept(s, c);
    OpenDownDisk(s, a, c);
    RestSettles(Result(s, a));
  }

  lemma RestSettles(t: System)
    requires UpInv(t) && AtRest(t.disk) && t.newest == t.found
    ensures Settled(t.disk, t.cur, t.found)
  {
    var o: Index := 1 - t.cur;
    assert 2 * o == 0 || 2 * o == 2;
  }

  predicate Quiet(a: Action) {
    !a.Soft? && !a.Hard?
  }

  /** An action that is no checkpoint leaves slots and durable size alone. */
  lemma QuietDisk(s: System, a: Action)
    requires UpInv(s) && Quiet(a) && Enabled(s, a)
    ensures |Ops(s, a)| <= 1
    ensures var t := Result(s, a);
            && UpInv(t) && t.found == s.found && t.since == s.since && t.newest == s.newest && t.cur == s.cur
            && t.disk.slots == s.disk.slots && t.disk.held == s.disk.held && t.disk.durableSize == s.disk.durableSize
            && t.disk == ApplyAll(s.disk, Ops(s, a))
  {
    UpStep(s, a);
    if a.OpenWriter? {
      OpenUpInv(s, a);
    } else if a.Append? {
      ApplyOne(s.disk, WriteData(a.offset, a.bytes));
    }
  }

  lemma QuietKeeps(s: System, a: Action, position: int)
    requires Quiet(a) && Enabled(s, a)
    ensures JustReopened(s) ==> JustReopened(Result(s, a))
    ensures OneSoft(s, position) ==> OneSoft(Result(s, a), position)
  {
    if UpInv(s) {
      QuietDisk(s, a);
    }
  }

  /** The first soft checkpoint spares the slot that holds the one found. */
  lemma FirstSoftAnchored(s: System, a: Action)
    requires JustReopened(s) && a.Soft? && Enabled(s, a)
    ensures OneSoft(Result(s, a), a.position) && |Ops(s, a)| <= 1
    ensures Result(s, a).disk == ApplyAll(s.disk, Ops(s, a)) && Result(s, a).found == s.found
  {
    UpStep(s, a);
    SettledIsAnchored(s);
    var j := s.procs[a.p];
    if j.checkpoint < a.position {
      var t := HolderCenters(s, a.p);
      SparedSlot(s, t, j, a.position);
    }
  }

  lemma SparedSlot(s: System, t: System, j: Local, position: int)
    requires JustReopened(s) && t == s.(cur := j.hardIndex) && UpInv(t) && UpToDate(j, s.disk.slots, s.cur, s.newest)
    requires position < -INT64_MIN && j.checkpoint < position
    ensures Anchored(ApplyAll(s.disk, SoftOps(j, position)), j.hardIndex, s.found, s.since + {position})
  {
    var d := s.disk;
    var op := WriteSlot(SoftSlot(j), Neg(position));
    ApplyOne(d, op);
    CoreReadable(t.disk, t.cur, t.found, t.since);
    var spared := 2 * (1 - j.hardIndex) + j.softIndex;
    if d.slots[2 * j.hardIndex] != s.found {
      assert d.slots[spared] == -s.found && d.held[spared] == {-s.found};
      assert Apply(d, op).held[spared] == {-s.found};
      assert Firm(Apply(d, op), spared, s.found, s.since + {position});
    }
  }

  /** Where a run stands after a reopening, depending on whether its one soft checkpoint has come. */
  ghost predicate Stands(s: System, softCame: bool, position: int, found: int) {
    s.found == found && if softCame then OneSoft(s, position) else JustReopened(s)
  }

  predicate Came(steps: seq<Step>, i: nat, q: nat, j: nat) {
    i <= q < j <= |steps| && steps[q].action.Soft?
  }

  /** The states of a run after a reopening, as long as only step `q` is a checkpoint, and a soft one. */
  lemma {:induction false} OneSoftRun(states: seq<System>, steps: seq<Step>, i: nat, q: nat, j: nat, position: int)
    requires Run(states, steps) && 0 < i <= j <= |steps| && Reopens(states[i - 1], steps[i - 1])
    requires forall m :: i <= m < j ==> steps[m].Done? && !steps[m].action.Hard? && (steps[m].action.Soft? ==> m == q)
    requires Came(steps, i, q, j) ==> steps[q].action.position == position
    ensures Stands(states[j], Came(steps, i, q, j), position, states[i].newest)
    decreases j
  {
    if i == j {
      FirstStands(states, steps, i, position);
    } else {
      OneSoftRun(states, steps, i, q, j - 1, position);
      NextStands(states, steps, j - 1, Came(steps, i, q, j - 1), position, states[i].newest);
    }
  }

  lemma FirstStands(states: seq<System>, steps: seq<Step>, i: nat, position: int)
    requires Run(states, steps) && 0 < i <= |steps| && Reopens(states[i - 1], steps[i - 1])
    ensures Stands(states[i], false, position, states[i].newest)
  {
    RunInv(states, steps, i - 1);
    assert Next(states[i - 1], steps[i - 1], states[i]);
    ReopenSettles(states[i - 1], steps[i - 1].action);
  }

  lemma NextStands(states: seq<System>, steps: seq<Step>, k: nat, came: bool, position: int, found: int)
    requires Run(states, steps) && k < |steps| && Stands(states[k], came, position, found) && steps[k].Done?
    requires var a := steps[k].action; !a.Hard? && (a.Soft? ==> a.position == position && !came)
    ensures Stands(states[k + 1], came || steps[k].action.Soft?, position, found)
  {
    assert Next(states[k], steps[k], states[k + 1]);
    OneSoftStep(states[k], steps[k].action, position);
  }

  lemma OneSoftStep(s: System, a: Action, position: int)
    requires Enabled(s, a) && !a.Hard? && (a.Soft? ==> a.position == position)
    ensures JustReopened(s) && Quiet(a) ==> JustReopened(Result(s, a)) && Result(s, a).found == s.found
    ensures JustReopened(s) && a.Soft? ==> OneSoft(Result(s, a), position) && Result(s, a).found == s.found
    ensures OneSoft(s, position) && Quiet(a) ==> OneSoft(Result(s, a), position) && Result(s, a).found == s.found
  {
    if Quiet(a) {
      QuietKeeps(s, a, position);
      if UpInv(s) {
        QuietDisk(s, a);
      }
    } else if JustReopened(s) {
      FirstSoftAnchored(s, a);
    }
  }

  /** Where a crash inside an action leaves off: before its only operation or after it. */
  lemma CrashPoint(s: System, a: Action, k: nat, position: int)
    requires Enabled(s, a) && k <= |Ops(s, a)| && !a.Hard? && (a.Soft? ==> a.position == position)
    requires JustReopened(s) || (OneSoft(s, position) && Quiet(a))
    ensures var d := ApplyAll(s.disk, Ops(s, a)[..k]);
            exists t: System :: OneSoft(t, position) && t.disk == d && t.found == s.found
  {
    OneSoftStep(s, a, position);
    if JustReopened(s) {
      SettledIsAnchored(s);
      assert OneSoft(s, position);
      if a.Soft? {
        FirstSoftAnchored(s, a);
      }
    }
    if Quiet(a) {
      QuietDisk(s, a);
    }
    if JustReopened(Result(s, a)) {
      SettledIsAnchored(Result(s, a));
    }
    var ops := Ops(s, a);
    if k == 0 {
      assert ops[..k] == [];
      assert OneSoft(s, position) && s.disk == ApplyAll(s.disk, ops[..k]);
    } else {
      assert ops[..k] == ops;
      assert OneSoft(Result(s, a), position);
    }
  }

  /**
   What a writer can check: as long as at most one soft checkpoint and no hard one has begun since
   the reopening, a crash at any point recovers the checkpoint found or that soft one.
   */
  lemma OneSoftIsExact(states: seq<System>, steps: seq<Step>, i: nat, q: nat, j: nat)
    requires Run(states, steps) && 0 < i <= j < |steps| && Reopens(states[i - 1], steps[i - 1]) && steps[j].Crash?
    requires forall m :: i <= m < j ==> steps[m].Done?
    requires forall m :: i <= m <= j ==> !steps[m].action.Hard? && (steps[m].action.Soft? ==> m == q)
    ensures |states[j + 1].disk.slots| == 4
    ensures var r := Recovered(states[j + 1].disk);
            r == states[i].newest || (i <= q <= j && Writes(steps[q], r))
  {
    var position := if i <= q <= j && steps[q].action.Soft? then steps[q].action.position else states[i].newest;
    OneSoftRun(states, steps, i, q, j, position);
    assert Next(states[j], steps[j], states[j + 1]);
    CrashRecovers(states[j], steps[j].action, steps[j].k, position, states[j + 1].disk);
  }

  lemma CrashRecovers(s: System, a: Action, k: nat, position: int, after: Disk)
    requires Enabled(s, a) && k <= |Ops(s, a)| && !a.Hard? && (a.Soft? ==> a.position == position)
    requires JustReopened(s) || (OneSoft(s, position) && Quiet(a))
    requires CrashOutcome(ApplyAll(s.disk, Ops(s, a)[..k]), after)
    ensures Recovered(after) == s.found || Recovered(after) == position
  {
    CrashPoint(s, a, k, position);
    var d := ApplyAll(s.disk, Ops(s, a)[..k]);
    var t: System :| OneSoft(t, position) && t.disk == d && t.found == s.found;
    AnchoredHolds(d, t.cur, t.found, t.since, after);
  }
}
