/** What a client that pulls is sent: from the request, over its waits, to the last byte. */
module PullMeaning {
  import opened Bytes
  import opened Server
  import opened RobustPush
  import opened ServerMeaning

  /** A pull waits if it was asked to and the client has all of the log; else it is sent what is missing, up to the end of the log. */
  lemma PullAsksForTail(s: State, id: Id, lockBefore: bool, sendData: bool, from: nat, wait: bool, initial: seq<byte>)
    requires Inv(s, initial) && Enabled(s, AskPull(id, lockBefore, sendData, from, wait))
    ensures var t := Step(s, AskPull(id, lockBefore, sendData, from, wait));
            && t.checkpoint == |Log(s)| && Log(t) == Log(s)
            && if wait && from == |Log(s)|
               then id in t.sessions && t.sessions[id].phase == PullWaiting(lockBefore, sendData, from)
               else ProceedsTo(s, t, id, lockBefore, sendData, from, |Log(s)|)
  {
    var u := if s.clientLock then s else s.(checkpoint := s.fileCheckpoint);
    PullLocksOrQueues(u, id, lockBefore, sendData, from);
  }

  /** When the wait ends, by news or by its time, the pull goes on. */
  lemma WaitEndsInTail(s: State, id: Id, initial: seq<byte>)
    requires Inv(s, initial) && Enabled(s, EndPullWait(id))
    ensures var t, p := Step(s, EndPullWait(id)), s.sessions[id].phase;
            && ProceedsTo(s, t, id, p.lockBefore, p.sendData, p.from, t.checkpoint)
            && s.checkpoint <= t.checkpoint <= |Log(s)| && Log(t) == Log(s)
            && (p.lockBefore && s.writable && !s.locked ==> t.checkpoint == |Log(s)|)
  {
    var p := s.sessions[id].phase;
    assert SessionInv(s, s.sessions[id]);
    assert s.sessions[id].locking ==> s.locked;
    PullLocksOrQueues(Set(s, id, s.sessions[id].(phase := Ready)), id, p.lockBefore, p.sendData, p.from);
  }

  // ---------- over runs ----------

  /** The session is in a pull that asked for the log from `from`, and the server knows at least `least` bytes of it. */
  predicate Pulling(s: State, id: Id, sendData: bool, from: nat, least: nat) {
    && id in s.sessions && least <= s.checkpoint
    && match s.sessions[id].phase
       case PullWaiting(_, d, f) => d == sendData && f == from
       case LockWaiting(d, f) => d == sendData && f == from
       case Sending(first, until, _) => least <= until && first == if sendData && from < until then from else until
       case _ => false
  }

  predicate Waits(s: State, id: Id) {
    id in s.sessions && (s.sessions[id].phase.PullWaiting? || s.sessions[id].phase.LockWaiting? || s.sessions[id].phase.Sending?)
  }

  lemma FinishKeepsCheckpoint(s: State, id: Id)
    requires id in s.sessions && s.sessions[id].phase.Receiving?
    ensures s.checkpoint <= PushFinish(s, id).checkpoint
  {
  }

  lemma ChunkKeepsCheckpoint(s: State, id: Id, bytes: seq<byte>)
    requires Enabled(s, Chunk(id, bytes))
    ensures s.checkpoint <= PushChunk(s, id, bytes).checkpoint
  {
    FinishKeepsCheckpoint(Received(s, id, bytes), id);
  }

  lemma RequestKeepsCheckpoint(s: State, id: Id, begin: int, end: int, unlockAfter: bool)
    requires JournalInv(s) && id in s.sessions
    ensures s.checkpoint <= PushRequest(s, id, begin, end, unlockAfter).checkpoint
  {
  }

  lemma PullKeepsCheckpoint(s: State, a: Action, initial: seq<byte>)
    requires Inv(s, initial) && Enabled(s, a) && (a.AskPull? || a.EndPullWait? || a.Resume?)
    ensures s.checkpoint <= Step(s, a).checkpoint
  {
    match a
    case AskPull(id, lockBefore, sendData, from, wait) => PullAsksForTail(s, id, lockBefore, sendData, from, wait, initial);
    case EndPullWait(id) => WaitEndsInTail(s, id, initial);
    case Resume(id) => ResumeIsFront(s, id, initial);
  }

  /** What the server knows of the log does not shrink. */
  lemma CheckpointGrows(s: State, a: Action, initial: seq<byte>)
    requires Inv(s, initial) && Enabled(s, a)
    ensures s.checkpoint <= Step(s, a).checkpoint
  {
    if a.Chunk? {
      ChunkKeepsCheckpoint(s, a.id, a.bytes);
    } else if a.AskPush? {
      RequestKeepsCheckpoint(s, a.id, a.begin, a.end, a.unlockAfter);
    } else if a.AskPull? || a.EndPullWait? || a.Resume? {
      PullKeepsCheckpoint(s, a, initial);
    }
  }

  lemma PullingKept(s: State, a: Action, id: Id, sendData: bool, from: nat, least: nat, initial: seq<byte>)
    requires Inv(s, initial) && Enabled(s, a) && Pulling(s, id, sendData, from, least) && Waits(Step(s, a), id)
    ensures Pulling(Step(s, a), id, sendData, from, least)
  {
    CheckpointGrows(s, a, initial);
    if a.OtherProcess? {
    } else if a.id != id {
      OthersUntouched(s, a, id);
    } else {
      OwnStepKept(s, a, sendData, from, least, initial);
    }
  }

  lemma OwnStepKept(s: State, a: Action, sendData: bool, from: nat, least: nat, initial: seq<byte>)
    requires Inv(s, initial) && Enabled(s, a) && !a.OtherProcess? && Pulling(s, a.id, sendData, from, least) && Waits(Step(s, a), a.id)
    requires least <= Step(s, a).checkpoint
    ensures Pulling(Step(s, a), a.id, sendData, from, least)
  {
    match a
    case EndPullWait(id) => WaitEndsInTail(s, id, initial);
    case Resume(id) => ResumeIsFront(s, id, initial);
    case _ =>
  }

  /** From the request on the session only waits and is sent data. */
  ghost predicate PullsFrom(states: seq<State>, actions: seq<Action>, a: nat, b: nat, id: Id) {
    && a < b < |states| == |actions| + 1 && actions[a].AskPull? && actions[a].id == id
    && forall k :: a < k <= b ==> Waits(states[k], id)
  }

  lemma RunGoesOn(states: seq<State>, actions: seq<Action>, k: nat)
    requires Run(states, actions) && k < |actions|
    ensures Inv(states[k], states[0].file[..states[0].fileCheckpoint])
    ensures Enabled(states[k], actions[k]) && states[k + 1] == Step(states[k], actions[k])
  {
    RunInv(states, actions, k);
  }

  lemma RequestPulls(s: State, a: Action, initial: seq<byte>)
    requires Inv(s, initial) && Enabled(s, a) && a.AskPull? && Waits(Step(s, a), a.id)
    ensures Pulling(Step(s, a), a.id, a.sendData, a.from, |Log(s)|)
  {
    PullAsksForTail(s, a.id, a.lockBefore, a.sendData, a.from, a.wait, initial);
  }

  lemma PullBegins(states: seq<State>, actions: seq<Action>, a: nat, b: nat, id: Id)
    requires Run(states, actions) && PullsFrom(states, actions, a, b, id)
    ensures Pulling(states[a + 1], id, actions[a].sendData, actions[a].from, |Log(states[a])|)
  {
    RunGoesOn(states, actions, a);
    RequestPulls(states[a], actions[a], states[0].file[..states[0].fileCheckpoint]);
  }

  lemma PullContinues(states: seq<State>, actions: seq<Action>, k: nat, id: Id, sendData: bool, from: nat, least: nat)
    requires Run(states, actions) && k < |actions| && Waits(states[k + 1], id) && Pulling(states[k], id, sendData, from, least)
    ensures Pulling(states[k + 1], id, sendData, from, least)
  {
    RunGoesOn(states, actions, k);
    PullingKept(states[k], actions[k], id, sendData, from, least, states[0].file[..states[0].fileCheckpoint]);
  }

  lemma StillPulling(states: seq<State>, actions: seq<Action>, a: nat, b: nat, id: Id)
    requires Run(states, actions) && PullsFrom(states, actions, a, b, id)
    ensures Pulling(states[b], id, actions[a].sendData, actions[a].from, |Log(states[a])|)
  {
    PullBegins(states, actions, a, b, id);
    var k := a + 1;
    while k < b
      invariant a < k <= b && Pulling(states[k], id, actions[a].sendData, actions[a].from, |Log(states[a])|)
    {
      PullContinues(states, actions, k, id, actions[a].sendData, actions[a].from, |Log(states[a])|);
      k := k + 1;
    }
  }

  /**
   A client that pulls, and is told that it was sent everything, has got exactly the log from where it
   stood to an end that is at least what the log was when it asked; and if it asked for no data, nothing.
   */
  lemma PullDelivers(states: seq<State>, actions: seq<Action>, a: nat, b: nat, id: Id)
    requires Run(states, actions) && PullsFrom(states, actions, a, b, id) && b < |actions| && actions[b] == SendDone(id)
    ensures var p, from := states[b].sessions[id].phase, actions[a].from;
            && |Log(states[a])| <= p.until <= |Log(states[b])|
            && p.sent == if actions[a].sendData && from < p.until then Log(states[b])[from..p.until] else []
  {
    StillPulling(states, actions, a, b, id);
    SentIsLog(states, actions, b, id);
    assert Enabled(states[b], actions[b]);
  }
}
