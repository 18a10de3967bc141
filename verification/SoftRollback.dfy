/**
 A run in which a crash brings back an older soft checkpoint than the one a reopening writer had
 found: two soft checkpoints since then have overwritten one slot each, and of the two the crash
 keeps the one whose data it loses.
 */
module SoftRollback {
  import opened Bytes
  import opened Disk
  import opened Checkpoint
  import opened CheckpointProtocol

  /** The disk of the story: zeros up to `size`, durable up to `clean`. */
  function Image(size: nat, clean: nat, slots: seq<int>, held: seq<set<int>>): Disk {
    Disk(Zeros(size), clean, clean, slots, held)
  }

  function Down(d: Disk, newest: int, published: nat, found: int, since: set<int>): System {
    System(d, map[], None, false, 1, newest, Zeros(41), Zeros(published), found, since)
  }

  /** Process 0 is the only one and holds the lock. */
  function Up(d: Disk, soft: Index, newest: nat, found: int, since: set<int>): System {
    System(d, map[0 := Local(1, soft, newest, 41)], Some(0), true, 1, newest, Zeros(41), Zeros(newest), found, since)
  }

  function Story(k: nat): System
    requires k <= 10
  {
    var blank := [41, 41, 41, 41];
    var first := [-61, -50, 41, 41];
    if k == 0 then Down(Image(41, 41, blank, Singletons(blank)), 41, 41, 41, {})
    else if k == 1 then Up(Image(41, 41, blank, Singletons(blank)), 0, 41, 41, {})
    else if k == 2 then Up(Image(61, 41, blank, Singletons(blank)).(durableSize := 41), 0, 41, 41, {})
    else if k == 3 then Up(Image(61, 41, [41, -50, 41, 41], [{41}, {41, -50}, {41}, {41}]), 1, 50, 41, {50})
    else if k == 4 then Up(Image(61, 41, first, [{41, -61}, {41, -50}, {41}, {41}]), 0, 61, 41, {50, 61})
    else if k == 5 then Down(Image(61, 61, first, Singletons(first)), 61, 61, 41, {50, 61})
    else if k == 6 then Up(Image(61, 61, first, Singletons(first)), 0, 61, 61, {})
    else if k == 7 then Up(Image(81, 61, first, Singletons(first)), 0, 61, 61, {})
    else if k == 8 then Up(Image(81, 61, [-61, -70, 41, 41], [{-61}, {-50, -70}, {41}, {41}]), 1, 70, 61, {70})
    else if k == 9 then Up(Image(81, 61, [-81, -70, 41, 41], [{-61, -81}, {-50, -70}, {41}, {41}]), 0, 81, 61, {70, 81})
    else Down(Image(61, 61, [-81, -50, 41, 41], Singletons([-81, -50, 41, 41])), 81, 81, 61, {70, 81})
  }

  function StoryStep(k: nat): Step
    requires k < 10
  {
    if k == 0 || k == 5 then Done(OpenWriter(0, NoRecovery, true))
    else if k == 1 then Done(Append(0, 41, Zeros(20)))
    else if k == 6 then Done(Append(0, 61, Zeros(20)))
    else if k == 2 then Done(Soft(0, 50))
    else if k == 3 then Done(Soft(0, 61))
    else if k == 7 then Done(Soft(0, 70))
    else if k == 8 then Done(Soft(0, 81))
    else Crash(Idle, 0, Story(k + 1).disk)
  }

  lemma NoRepair(slots: seq<int>, size: nat, checkpoint: int)
    requires |slots| == 4 && forall i :: 0 <= i < 4 ==> Neg(slots[i]) <= size
    ensures RepairOps(slots, size, checkpoint, 4) == []
  {
    assert RepairOps(slots, size, checkpoint, 0) == [];
    assert RepairOps(slots, size, checkpoint, 1) == [];
    assert RepairOps(slots, size, checkpoint, 2) == [];
    assert RepairOps(slots, size, checkpoint, 3) == [];
  }

  lemma OpenNext(k: nat)
    requires k == 0 || k == 5
    ensures Next(Story(k), StoryStep(k), Story(k + 1))
  {
    var d := Story(k).disk;
    var j := OpenLocal(d.slots, |d.data|, NoRecovery).local;
    NoRepair(d.slots, |d.data|, j.checkpoint);
    assert Take(d.data, 41) == Zeros(41) && Take(d.data, j.checkpoint) == Zeros(j.checkpoint);
  }

  lemma AppendNext(k: nat)
    requires k == 1 || k == 6
    ensures Next(Story(k), StoryStep(k), Story(k + 1))
  {
    var d, n := Story(k).disk, |Story(k).disk.data|;
    var op := WriteData(n, Zeros(20));
    assert Overlay(Zeros(n), n, Zeros(20)) == Zeros(n + 20);
    ApplyOne(d, op);
  }

  lemma SoftNext(k: nat, soft: Index, newest: nat, position: int, found: int, since: set<int>)
    requires k < 10 && Story(k).disk.Valid() && 41 <= newest < position <= |Story(k).disk.data|
    requires Story(k) == Up(Story(k).disk, soft, newest, found, since) && StoryStep(k) == Done(Soft(0, position))
    requires Story(k + 1) == Up(Story(k + 1).disk, 1 - soft, position, found, since + {position})
    requires ApplyAll(Story(k).disk, [WriteSlot(1 - soft, -position)]) == Story(k + 1).disk
    requires Story(k).disk.data == Zeros(|Story(k).disk.data|)
    ensures Next(Story(k), StoryStep(k), Story(k + 1))
  {
    var s, t := Story(k), Story(k + 1);
    assert s.procs[0 := Local(1, 1 - soft, position, 41)] == t.procs;
    assert Take(s.disk.data, position) == Zeros(position);
  }

  lemma FirstSoft()
    ensures Next(Story(2), StoryStep(2), Story(3))
  {
    assert {41} + {-50} == {41, -50} && {} + {50} == {50};
    ApplyOne(Story(2).disk, WriteSlot(1, -50));
    assert Apply(Story(2).disk, WriteSlot(1, -50)).held == Story(3).disk.held;
    SoftNext(2, 0, 41, 50, 41, {});
  }

  lemma SecondSoft()
    ensures Next(Story(3), StoryStep(3), Story(4))
  {
    assert {41} + {-61} == {41, -61} && {50} + {61} == {50, 61};
    ApplyOne(Story(3).disk, WriteSlot(0, -61));
    assert Apply(Story(3).disk, WriteSlot(0, -61)).held == Story(4).disk.held;
    SoftNext(3, 1, 50, 61, 41, {50});
  }

  lemma ThirdSoft()
    ensures Next(Story(7), StoryStep(7), Story(8))
  {
    assert {-50} + {-70} == {-50, -70} && {} + {70} == {70};
    ApplyOne(Story(7).disk, WriteSlot(1, -70));
    assert Apply(Story(7).disk, WriteSlot(1, -70)).held == Story(8).disk.held;
    SoftNext(7, 0, 61, 70, 61, {});
  }

  lemma FourthSoft()
    ensures Next(Story(8), StoryStep(8), Story(9))
  {
    assert {-61} + {-81} == {-61, -81} && {70} + {81} == {70, 81};
    ApplyOne(Story(8).disk, WriteSlot(0, -81));
    assert Apply(Story(8).disk, WriteSlot(0, -81)).held == Story(9).disk.held;
    SoftNext(8, 1, 70, 81, 61, {70});
  }

  lemma CrashNext(k: nat)
    requires k == 4 || k == 9
    ensures Next(Story(k), StoryStep(k), Story(k + 1))
  {
    var s, after := Story(k), Story(k + 1).disk;
    assert Ops(s, Idle)[..0] == [];
    assert after.data[..s.disk.clean] == s.disk.data[..s.disk.clean];
    assert s.since + {} == s.since;
  }

  lemma StoryNext(k: nat)
    requires k < 10
    ensures Next(Story(k), StoryStep(k), Story(k + 1))
  {
    if k == 0 || k == 5 {
      OpenNext(k);
    } else if k == 1 || k == 6 {
      AppendNext(k);
    } else if k == 4 || k == 9 {
      CrashNext(k);
    } else if k == 2 {
      FirstSoft();
    } else if k == 3 {
      SecondSoft();
    } else if k == 7 {
      ThirdSoft();
    } else {
      FourthSoft();
    }
  }

  lemma Recovered()
    ensures ReadCheckpoint(FRESH, [-81, -50, 41, 41], 61).checkpoint == 50
  {
  }

  /**
   So it is not true of all runs that every checkpoint a later opener recovers is the one found at
   the reopening, or was written since.
   */
  lemma OlderSoftCheckpointComesBack() returns (states: seq<System>, steps: seq<Step>)
    ensures Run(states, steps) && |steps| == 10
    ensures Reopens(states[5], steps[5]) && forall m :: 6 <= m < 10 ==> !Reopens(states[m], steps[m])
    ensures |states[10].disk.slots| == 4 && states[6].newest == 61
    ensures ReadCheckpoint(FRESH, states[10].disk.slots, |states[10].disk.data|).checkpoint == 50
    ensures forall m :: 6 <= m < 10 ==> !Writes(steps[m], 50)
  {
    states := seq(11, k requires 0 <= k < 11 => Story(k));
    steps := seq(10, k requires 0 <= k < 10 => StoryStep(k));
    forall i | 0 <= i < 10 ensures Next(states[i], steps[i], states[i + 1]) {
      StoryNext(i);
    }
    assert states[10] == Story(10) && states[5] == Story(5) && states[6] == Story(6) && states[0] == Story(0);
    Recovered();
  }
}
