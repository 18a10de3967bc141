/** A writer that does not ask to overwrite opens a file only if it can keep every byte of it. */
module OpenKeeps {
  import opened Bytes
  import opened Disk
  import opened Checkpoint
  import opened CheckpointProtocol

  predicate OpensPlainly(step: Step) {
    step.Done? && step.action.OpenWriter? && step.action.recovery == NoRecovery
  }

  lemma DownOpenKeeps(s: System, a: Action)
    requires DownInv(s) && Enabled(s, a) && a.OpenWriter? && a.recovery == NoRecovery
    ensures var t := Result(s, a);
            t.up && t.disk.data == s.disk.data && t.published == s.disk.data && t.newest == |s.disk.data|
  {
    var c: Index :| Core(s.disk, c, s.found, s.since) && Kept(s, c);
    OpenDownDisk(s, a, c);
    OpensAtRecovered(s.disk.slots, |s.disk.data|, NoRecovery);
  }

  lemma UpOpenKeeps(s: System, a: Action)
    requires UpInv(s) && Enabled(s, a) && a.OpenWriter? && a.recovery == NoRecovery
    ensures var t := Result(s, a);
            t.up && t.disk.data == s.disk.data && t.published == s.disk.data && t.newest == |s.disk.data|
  {
    CoreReadable(s.disk, s.cur, s.found, s.since);
    PullIsUpToDate(FRESH, s.disk.slots, s.cur, s.newest, |s.disk.data|);
    LiveSlotsFit(s);
    NothingDangles(s.disk.slots, |s.disk.data|, OpenLocal(s.disk.slots, |s.disk.data|, a.recovery).local.checkpoint, 4);
  }

  /** After such an opening all of the file is checkpointed, and as it was. */
  lemma PlainOpenKeepsAll(states: seq<System>, steps: seq<Step>, i: nat)
    requires Run(states, steps) && i < |steps| && OpensPlainly(steps[i])
    ensures states[i + 1].up && states[i + 1].disk.data == states[i].disk.data
    ensures states[i + 1].published == states[i].disk.data && states[i + 1].newest == |states[i].disk.data|
  {
    RunInv(states, steps, i);
    assert Next(states[i], steps[i], states[i + 1]);
    if states[i].up {
      UpOpenKeeps(states[i], steps[i].action);
    } else {
      DownOpenKeeps(states[i], steps[i].action);
    }
  }

  /** No byte of a file that was opened so is discarded or changed until the next crash, whoever writes. */
  lemma NothingIsDiscarded(states: seq<System>, steps: seq<Step>, i: nat, j: nat)
    requires Run(states, steps) && i < j <= |steps| && OpensPlainly(steps[i])
    requires forall m :: i <= m < j ==> steps[m].Done?
    ensures states[i].disk.data <= states[j].disk.data
  {
    PlainOpenKeepsAll(states, steps, i);
    PublishedOnlyGrows(states, steps, i + 1, j);
    PublishedIsTheFile(states, steps, j);
  }
}
