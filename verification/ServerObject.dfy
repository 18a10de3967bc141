/**
 The server's code as it runs: one object whose fields every session updates between two waits.
 Each action of the protocol is a method; any legal run of them keeps the server's promises.
 */
module ServerObject {
  import opened Bytes
  import opened Server
  import opened RobustPush
  import opened ServerMeaning
  import opened PullMeaning

  class SharedServer {
    const shared: bool
    const writable: bool
    var file: seq<byte>
    var fileCheckpoint: nat
    var checkpoint: nat
    var locked: bool
    var lockWaiters: seq<Id>
    var woken: Option<Id>
    var clientLock: bool
    var sessions: map<Id, Session>
    ghost var commits: seq<seq<byte>>
    ghost var replies: seq<Reply>
    ghost var arrivals: seq<Id>
    ghost var grants: seq<Id>
    /** The log at the start. */
    ghost const initial: seq<byte>

    ghost predicate Valid()
      reads this
    {
      Inv(Now(), initial)
    }

    ghost function Now(): State
      reads this
    {
      State(shared, writable, file, fileCheckpoint, checkpoint, locked, lockWaiters, woken, clientLock, sessions,
            commits, replies, arrivals, grants)
    }

    constructor (contents: seq<byte>, stored: nat, isShared: bool, isWritable: bool)
      requires stored <= |contents|
      ensures Valid() && Init(Now()) && initial == contents[..stored] && file == contents && fileCheckpoint == stored && shared == isShared && writable == isWritable
    {
      shared, writable := isShared, isWritable;
      file, fileCheckpoint, checkpoint := contents, stored, stored;
      locked, lockWaiters, woken := false, [], None;
      clientLock := isWritable && !isShared;
      sessions := map[];
      commits, replies, arrivals, grants := [], [], [], [];
      initial := contents[..stored];
      new;
      assert Flatten([]) == [] && initial + [] == initial;
    }

    method ObtainLock(id: Id)
      requires id in sessions
      modifies this
      ensures Now() == Acquire(old(Now()), id)
    {
      locked := true;
      sessions := sessions[id := sessions[id].(locking := true)];
      if !clientLock && writable {
        clientLock := true;
        checkpoint := fileCheckpoint;
      }
    }

    method ReleaseLock(id: Id)
      requires id in sessions
      modifies this
      ensures Now() == Unlock(old(Now()), id)
    {
      if sessions[id].locking {
        sessions := sessions[id := sessions[id].(locking := false)];
        if lockWaiters == [] {
          locked := false;
          if shared && clientLock {
            clientLock := false;
          }
        } else {
          woken := Some(lockWaiters[0]);
        }
      }
    }

    method LoseLock(id: Id)
      requires id in sessions
      modifies this
      ensures Now() == Timeout(old(Now()), id)
    {
      var x := sessions[id];
      if x.writer.Some? {
        sessions := sessions[id := x.(writer := None, status := 't')];
      }
      ReleaseLock(id);
    }

    /** The queue without the first occurrence of a session. */
    method RemoveFromQueue(id: Id)
      modifies `lockWaiters
      ensures lockWaiters == RemoveFirst(old(lockWaiters), id)
    {
      var i := 0;
      ghost var queue := lockWaiters;
      while i < |lockWaiters| && lockWaiters[i] != id
        invariant 0 <= i <= |lockWaiters|
        invariant RemoveFirst(queue, id) == queue[..i] + RemoveFirst(queue[i..], id)
      {
        i := i + 1;
      }
      if i < |lockWaiters| {
        lockWaiters := lockWaiters[..i] + lockWaiters[i + 1..];
      }
    }

    method EndSession(id: Id)
      requires id in sessions
      modifies this
      ensures Now() == Cleanup(old(Now()), id)
    {
      ReleaseLock(id);
      RemoveFromQueue(id);
      sessions := sessions - {id};
    }

    method BeginSending(id: Id, sendData: bool, from: nat)
      requires id in sessions
      modifies this
      ensures Now() == StartSending(old(Now()), id, sendData, from)
    {
      var first := from;
      if !sendData {
        first := checkpoint;
      }
      if first > checkpoint {
        first := checkpoint;
      }
      sessions := sessions[id := sessions[id].(phase := Sending(first, checkpoint, []))];
    }

    method LockThenSend(id: Id, lockBefore: bool, sendData: bool, from: nat)
      requires id in sessions
      modifies this
      ensures Now() == PullNow(old(Now()), id, lockBefore, sendData, from)
    {
      if lockBefore {
        if sessions[id].locking {
          EndSession(id);
          return;
        }
        if locked {
          lockWaiters := lockWaiters + [id];
          arrivals := arrivals + [id];
          sessions := sessions[id := sessions[id].(phase := LockWaiting(sendData, from))];
          return;
        }
        ObtainLock(id);
      }
      BeginSending(id, sendData, from);
    }

    method WaitOrSend(id: Id, lockBefore: bool, sendData: bool, from: nat, wait: bool)
      requires id in sessions
      modifies this
      ensures Now() == PullRequest(old(Now()), id, lockBefore, sendData, from, wait)
    {
      if !clientLock {
        checkpoint := fileCheckpoint;
      }
      if wait && from == checkpoint {
        sessions := sessions[id := sessions[id].(phase := PullWaiting(lockBefore, sendData, from))];
      } else {
        LockThenSend(id, lockBefore, sendData, from);
      }
    }

    method PopAndLock(id: Id)
      requires Enabled(Now(), Action.Resume(id))
      modifies this
      ensures Now() == LockResume(old(Now()), id)
    {
      var phase := sessions[id].phase;
      lockWaiters := lockWaiters[1..];
      woken := None;
      grants := grants + [id];
      ObtainLock(id);
      BeginSending(id, phase.sendData, phase.from);
    }

    method StartPush(id: Id, begin: int, end: int, unlockAfter: bool)
      requires id in sessions
      modifies this
      ensures Now() == PushRequest(old(Now()), id, begin, end, unlockAfter)
    {
      if locked && !sessions[id].locking {
        EndSession(id);
        return;
      }
      if !locked {
        ObtainLock(id);
      }
      var conflict := !sessions[id].locking || begin != checkpoint;
      var status, writer := if unlockAfter then 'O' else 'N', None;
      if !writable {
        status := 'R';
      } else if conflict {
        status := 'C';
      } else if clientLock {
        writer := Some(checkpoint);
      }
      sessions := sessions[id := sessions[id].(status := status, writer := writer,
                                               phase := Receiving(begin, end, unlockAfter, []))];
      if end <= begin {
        FinishPush(id);
      }
    }

    method TakeChunk(id: Id, bytes: seq<byte>)
      requires Enabled(Now(), Action.Chunk(id, bytes))
      modifies this
      ensures Now() == PushChunk(old(Now()), id, bytes)
    {
      Receive(id, bytes);
      var phase := sessions[id].phase;
      if phase.end - phase.begin <= |phase.received| {
        FinishPush(id);
      }
    }

    method Receive(id: Id, bytes: seq<byte>)
      requires id in sessions && sessions[id].phase.Receiving?
      modifies this
      ensures Now() == Received(old(Now()), id, bytes)
    {
      var x := sessions[id];
      var phase := x.phase.(received := x.phase.received + bytes);
      if x.writer.Some? {
        file := Overlay(file, x.writer.value, bytes);
        sessions := sessions[id := x.(phase := phase, writer := Some(x.writer.value + |bytes|))];
      } else {
        sessions := sessions[id := x.(phase := phase)];
      }
    }

    method Commit(x: Session)
      requires x.phase.Receiving?
      modifies this
      ensures Now() == CommitPush(old(Now()), x)
    {
      if x.phase.end > x.phase.begin {
        if x.writer.Some? && clientLock && checkpoint < x.writer.value {
          checkpoint := x.writer.value;
          fileCheckpoint := x.writer.value;
          commits := commits + [x.phase.received];
          if shared && x.phase.unlockAfter {
            clientLock := false;
          }
        }
      }
    }

    method FinishPush(id: Id)
      requires id in sessions && sessions[id].phase.Receiving?
      modifies this
      ensures Now() == PushFinish(old(Now()), id)
    {
      var x := sessions[id];
      ghost var reply := Reply(id, x.phase.begin, x.phase.end, x.phase.received, x.status, WillCommit(Now(), x));
      Commit(x);
      sessions := sessions[id := x.(writer := None, phase := Ready)];
      if x.phase.unlockAfter {
        ReleaseLock(id);
      }
      replies := replies + [reply];
    }

    method SendBytes(id: Id, n: nat)
      requires id in sessions && sessions[id].phase.Sending?
      modifies this
      ensures Now() == SendChunk(old(Now()), id, n)
    {
      var x := sessions[id];
      var at := x.phase.first + |x.phase.sent|;
      if at + n <= |file| {
        sessions := sessions[id := x.(phase := x.phase.(sent := x.phase.sent + file[at..at + n]))];
      } else {
        EndSession(id);
      }
    }

    method AppendToFile(bytes: seq<byte>)
      modifies `file, `fileCheckpoint, `commits
      ensures Now() == OtherAppends(old(Now()), bytes)
    {
      file := Overlay(file, fileCheckpoint, bytes);
      fileCheckpoint := fileCheckpoint + |bytes|;
      commits := commits + [bytes];
    }

    // ---------- the actions ----------

    method Connect(id: Id)
      requires Valid() && Enabled(Now(), Action.Connect(id))
      modifies this
      ensures Valid() && Now() == Step(old(Now()), Action.Connect(id))
      ensures id in sessions && sessions[id].phase.Ready? && !sessions[id].locking && sessions - {id} == old(sessions)
    {
      StepInv(Now(), Action.Connect(id), initial);
      ConnectStartsClean(Now(), id, initial);
      sessions := sessions[id := Session(false, None, 'N', Ready)];
    }

    /** A pull waits if it was asked to and there is nothing new; otherwise it locks or queues, and the tail of the log is sent. */
    method Pull(id: Id, lockBefore: bool, sendData: bool, from: nat, wait: bool)
      requires Valid() && Enabled(Now(), AskPull(id, lockBefore, sendData, from, wait))
      modifies this
      ensures Valid() && Now() == Step(old(Now()), AskPull(id, lockBefore, sendData, from, wait))
      ensures checkpoint == |Log(Now())|
      ensures if wait && from == |Log(Now())| then id in sessions && sessions[id].phase == PullWaiting(lockBefore, sendData, from)
              else ProceedsTo(old(Now()), Now(), id, lockBefore, sendData, from, |Log(Now())|)
    {
      StepInv(Now(), AskPull(id, lockBefore, sendData, from, wait), initial);
      PullAsksForTail(Now(), id, lockBefore, sendData, from, wait, initial);
      WaitOrSend(id, lockBefore, sendData, from, wait);
    }

    method EndPullWait(id: Id)
      requires Valid() && Enabled(Now(), Action.EndPullWait(id))
      modifies this
      ensures Valid() && Now() == Step(old(Now()), Action.EndPullWait(id))
      ensures var p := old(sessions)[id].phase;
              ProceedsTo(old(Now()), Now(), id, p.lockBefore, p.sendData, p.from, checkpoint)
      ensures old(checkpoint) <= checkpoint <= |Log(Now())|
    {
      StepInv(Now(), Action.EndPullWait(id), initial);
      WaitEndsInTail(Now(), id, initial);
      var p := sessions[id].phase;
      sessions := sessions[id := sessions[id].(phase := Ready)];
      LockThenSend(id, p.lockBefore, p.sendData, p.from);
    }

    /** The front waiter, and nobody else, has the lock, and is sent what it asked for. */
    method Resume(id: Id)
      requires Valid() && Enabled(Now(), Action.Resume(id))
      modifies this
      ensures Valid() && Now() == Step(old(Now()), Action.Resume(id))
      ensures old(lockWaiters)[0] == id && lockWaiters == old(lockWaiters)[1..]
      ensures forall k <- sessions :: sessions[k].locking <==> k == id
      ensures var p := old(sessions)[id].phase;
              id in sessions && WillSend(sessions[id], p.sendData, p.from, checkpoint)
      ensures writable ==> checkpoint == |Log(Now())|
    {
      StepInv(Now(), Action.Resume(id), initial);
      ResumeIsFront(Now(), id, initial);
      PopAndLock(id);
    }

    method Send(id: Id, n: nat)
      requires Valid() && Enabled(Now(), Action.Send(id, n))
      modifies this
      ensures Valid() && Now() == Step(old(Now()), Action.Send(id, n))
      ensures var p := old(sessions)[id].phase;
              var at := p.first + |p.sent|;
              at + n <= |Log(Now())| && sessions == old(sessions)[id := old(sessions)[id].(phase := p.(sent := p.sent + Log(Now())[at..at + n]))]
    {
      StepInv(Now(), Action.Send(id, n), initial);
      SendAdvances(Now(), id, n, initial);
      SendBytes(id, n);
    }

    method SendDone(id: Id)
      requires Valid() && Enabled(Now(), Action.SendDone(id))
      modifies this
      ensures Valid() && Now() == Step(old(Now()), Action.SendDone(id))
    {
      StepInv(Now(), Action.SendDone(id), initial);
      sessions := sessions[id := sessions[id].(phase := Ready)];
    }

    /** The lock goes to the front waiter, or is free; the log does not change. */
    method AskUnlock(id: Id)
      requires Valid() && Enabled(Now(), Action.AskUnlock(id))
      modifies this
      ensures Valid() && Now() == Step(old(Now()), Action.AskUnlock(id))
      ensures !sessions[id].locking && HandedOver(old(Now()), Now(), id) && Log(Now()) == Log(old(Now()))
    {
      StepInv(Now(), Action.AskUnlock(id), initial);
      UnlockHandsOver(Now(), id, initial);
      ReleaseLock(id);
    }

    /** A non-empty push is admitted to writing if and only if it starts at the end of the log and nobody else has the lock. */
    method Push(id: Id, begin: int, end: int, unlockAfter: bool)
      requires Valid() && Enabled(Now(), AskPush(id, begin, end, unlockAfter))
      modifies this
      ensures Valid() && Now() == Step(old(Now()), AskPush(id, begin, end, unlockAfter))
      ensures Log(Now()) == Log(old(Now()))
      ensures old(locked && !sessions[id].locking) ==> id !in sessions && replies == old(replies)
      ensures begin < end && !old(locked && !sessions[id].locking) ==>
                && id in sessions && sessions[id].locking && sessions[id].phase == Receiving(begin, end, unlockAfter, [])
                && (sessions[id].writer.Some? <==> writable && begin == |Log(Now())|)
                && sessions[id].status == AnswerCode(old(Now()), begin, unlockAfter)
      ensures end <= begin && !old(locked && !sessions[id].locking) ==>
                && id in sessions && sessions[id].phase.Ready? && sessions[id].locking == !unlockAfter
                && replies == old(replies) + [Reply(id, begin, end, [], AnswerCode(old(Now()), begin, unlockAfter), false)]
    {
      StepInv(Now(), AskPush(id, begin, end, unlockAfter), initial);
      if begin < end {
        PushStartsAtCheckpoint(Now(), id, begin, end, unlockAfter, initial);
      } else {
        EmptyPushIsAnswered(Now(), id, begin, end, unlockAfter, initial);
      }
      StartPush(id, begin, end, unlockAfter);
    }

    /** The last chunk of a push appends the whole payload to the log, or nothing, and the reply says which. */
    method Chunk(id: Id, bytes: seq<byte>)
      requires Valid() && Enabled(Now(), Action.Chunk(id, bytes))
      modifies this
      ensures Valid() && Now() == Step(old(Now()), Action.Chunk(id, bytes))
      ensures var x := old(sessions)[id];
              var payload := x.phase.received + bytes;
              if |payload| < x.phase.end - x.phase.begin then Log(Now()) == Log(old(Now())) && replies == old(replies)
              else
                && Log(Now()) == (if x.writer.Some? then Log(old(Now())) + payload else Log(old(Now())))
                && replies == old(replies) + [Answer(id, x, payload)]
                && id in sessions && sessions[id].phase.Ready? && sessions[id].locking == (x.locking && !x.phase.unlockAfter)
    {
      StepInv(Now(), Action.Chunk(id, bytes), initial);
      ChunkCommitsAllOrNothing(Now(), id, bytes, initial);
      TakeChunk(id, bytes);
    }

    /** A session that holds the lock too long loses it and its push writer; its bytes stay out of the log. */
    method TimeoutFires(id: Id)
      requires Valid() && Enabled(Now(), Action.TimeoutFires(id))
      modifies this
      ensures Valid() && Now() == Step(old(Now()), Action.TimeoutFires(id))
      ensures id in sessions && !sessions[id].locking && sessions[id].writer.None?
      ensures HandedOver(old(Now()), Now(), id) && Log(Now()) == Log(old(Now()))
    {
      StepInv(Now(), Action.TimeoutFires(id), initial);
      TimeoutAborts(Now(), id, initial);
      LoseLock(id);
    }

    /** A session that ends gives the lock back and leaves nothing in the log. */
    method Disconnect(id: Id)
      requires Valid() && Enabled(Now(), Action.Disconnect(id))
      modifies this
      ensures Valid() && Now() == Step(old(Now()), Action.Disconnect(id))
      ensures id !in sessions && Log(Now()) == Log(old(Now()))
    {
      StepInv(Now(), Action.Disconnect(id), initial);
      DisconnectForgets(Now(), id, initial);
      EndSession(id);
    }

    /** Another process appends to a file that the server shares and has not locked. */
    method OtherProcess(bytes: seq<byte>)
      requires Valid() && Enabled(Now(), Action.OtherProcess(bytes))
      modifies this
      ensures Valid() && Now() == Step(old(Now()), Action.OtherProcess(bytes))
    {
      StepInv(Now(), Action.OtherProcess(bytes), initial);
      AppendToFile(bytes);
    }

    /** Any action; whatever it is, the log is still the initial one followed by what was committed, and one session at most is locking. */
    method Perform(a: Action)
      requires Valid() && Enabled(Now(), a)
      modifies this
      ensures Valid() && Now() == Step(old(Now()), a)
      ensures Log(Now()) == initial + Flatten(commits) && OneLocks(Now())
    {
      match a {
        case Connect(id) => Connect(id);
        case AskPull(id, lockBefore, sendData, from, wait) => Pull(id, lockBefore, sendData, from, wait);
        case EndPullWait(id) => EndPullWait(id);
        case Resume(id) => Resume(id);
        case Send(id, n) => Send(id, n);
        case SendDone(id) => SendDone(id);
        case AskUnlock(id) => AskUnlock(id);
        case AskPush(id, begin, end, unlockAfter) => Push(id, begin, end, unlockAfter);
        case Chunk(id, bytes) => Chunk(id, bytes);
        case TimeoutFires(id) => TimeoutFires(id);
        case Disconnect(id) => Disconnect(id);
        case OtherProcess(bytes) => OtherProcess(bytes);
      }
    }

    /**
     A whole run of the object: it goes through the states of the protocol, and in the end its log
     is the one it started with followed by exactly the committed payloads, waiters got the lock in
     the order in which they asked, and a live push writer belongs to the one session that is locking.
     */
    method PerformAll(actions: seq<Action>, ghost states: seq<State>)
      requires Valid() && Run(states, actions) && Now() == states[0]
      modifies this
      ensures Valid() && Now() == states[|actions|]
      ensures Log(Now()) == Log(old(Now())) + Flatten(commits)
      ensures OneLocks(Now()) && arrivals == grants + lockWaiters
      ensures forall id <- sessions :: sessions[id].writer.Some? ==> sessions[id].locking && sessions[id].phase.begin == checkpoint
    {
      for i := 0 to |actions|
        invariant Valid() && Now() == states[i]
      {
        Perform(actions[i]);
      }
      LogIsCommittedPushes(states, actions, |actions|);
      LockSafety(states, actions, |actions|);
      LockIsFifo(states, actions, |actions|);
    }
  }
}
