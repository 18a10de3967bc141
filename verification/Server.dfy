/**
 The server: sessions sharing one journal file, interleaved at the points where a coroutine waits
 (for its socket or for a timer). Each function below is one stretch of code between two waits.
 Clients choose the requests and their payloads; timeouts and disconnections may happen whenever
 a session waits.
 */
module Server {
  import opened Bytes

  type Id = nat

  const CHUNK: nat := 8192

  datatype Phase =
    | Ready                                                     // waiting for a request
    | PullWaiting(lockBefore: bool, sendData: bool, from: nat)  // in pull_waiters
    | LockWaiting(sendData: bool, from: nat)                    // in lock_waiters
    | Sending(first: nat, until: nat, sent: seq<byte>)
    | Receiving(begin: int, end: int, unlockAfter: bool, received: seq<byte>)

  datatype Session = Session(
    locking: bool,
    writer: Option<nat>,   // push_writer: where the next byte goes
    status: char,          // push_status
    phase: Phase
  )

  /** Outcome of a push, as the server replied it. */
  datatype Reply = Reply(id: Id, begin: int, end: int, payload: seq<byte>, status: char, committed: bool)

  datatype State = State(
    shared: bool,             // the file is opened for sharing: the server gives its lock back when idle
    writable: bool,           // false for a pull-only server
    file: seq<byte>,
    fileCheckpoint: nat,      // checkpoint stored in the file
    checkpoint: nat,          // checkpoint the server has read
    locked: bool,
    lockWaiters: seq<Id>,
    woken: Option<Id>,        // waiter whose timer was cancelled and that has not resumed yet
    clientLock: bool,
    sessions: map<Id, Session>,
    // history variables
    commits: seq<seq<byte>>,  // what was appended to the log, in order
    replies: seq<Reply>,
    arrivals: seq<Id>,        // sessions that had to wait for the lock, in order
    grants: seq<Id>           // sessions that got the lock after waiting, in order
  )

  function Set(s: State, id: Id, x: Session): State {
    s.(sessions := s.sessions[id := x])
  }

  // ---------- locking ----------

  /** The server takes the file lock if it does not have it, and so learns the file's checkpoint. */
  function TakeClientLock(s: State): State {
    if !s.clientLock && s.writable then s.(clientLock := true, checkpoint := s.fileCheckpoint) else s
  }

  /** End of `lock`, once the lock is available. */
  function Acquire(s: State, id: Id): (t: State)
    requires id in s.sessions
    ensures t.commits == s.commits && t.replies == s.replies
  {
    TakeClientLock(Set(s.(locked := true), id, s.sessions[id].(locking := true)))
  }

  function Unlock(s: State, id: Id): (t: State)
    requires id in s.sessions
    ensures t.commits == s.commits && t.replies == s.replies
  {
    if !s.sessions[id].locking then s
    else
      var u := Set(s, id, s.sessions[id].(locking := false));
      if s.lockWaiters == [] then u.(locked := false, clientLock := s.clientLock && !s.shared)
      else u.(woken := Some(s.lockWaiters[0]))
  }

  function RemoveFirst(queue: seq<Id>, id: Id): seq<Id> {
    if queue == [] then []
    else if queue[0] == id then queue[1..]
    else [queue[0]] + RemoveFirst(queue[1..], id)
  }

  /** A session ends, by a disconnection, an error or a quit request. */
  function Cleanup(s: State, id: Id): (t: State)
    requires id in s.sessions
    ensures t.commits == s.commits && t.replies == s.replies
  {
    var u := Unlock(s, id);
    u.(lockWaiters := RemoveFirst(u.lockWaiters, id), sessions := u.sessions - {id})
  }

  function Timeout(s: State, id: Id): State
    requires id in s.sessions
  {
    var x := s.sessions[id];
    Unlock(if x.writer.Some? then Set(s, id, x.(writer := None, status := 't')) else s, id)
  }

  // ---------- pull ----------

  function StartSending(s: State, id: Id, sendData: bool, from: nat): (t: State)
    requires id in s.sessions
    ensures t.commits == s.commits && t.replies == s.replies
  {
    var first := if !sendData || from > s.checkpoint then s.checkpoint else from;
    Set(s, id, s.sessions[id].(phase := Sending(first, s.checkpoint, [])))
  }

  /** The part of a pull after its optional wait: lock if asked to, then send. */
  function PullNow(s: State, id: Id, lockBefore: bool, sendData: bool, from: nat): (t: State)
    requires id in s.sessions
    ensures t.commits == s.commits && t.replies == s.replies
  {
    if !lockBefore then StartSending(s, id, sendData, from)
    else if s.sessions[id].locking then Cleanup(s, id)
    else if !s.locked then StartSending(Acquire(s, id), id, sendData, from)
    else
      Set(s.(lockWaiters := s.lockWaiters + [id], arrivals := s.arrivals + [id]), id,
          s.sessions[id].(phase := LockWaiting(sendData, from)))
  }

  function PullRequest(s: State, id: Id, lockBefore: bool, sendData: bool, from: nat, wait: bool): State
    requires id in s.sessions
  {
    var t := if s.clientLock then s else s.(checkpoint := s.fileCheckpoint);
    if wait && from == t.checkpoint
    then Set(t, id, t.sessions[id].(phase := PullWaiting(lockBefore, sendData, from)))
    else PullNow(t, id, lockBefore, sendData, from)
  }

  /** The waiter whose timer was cancelled resumes: it pops the front of the queue and has the lock. */
  function LockResume(s: State, id: Id): State
    requires id in s.sessions && s.sessions[id].phase.LockWaiting? && s.lockWaiters != []
  {
    var phase := s.sessions[id].phase;
    var t := s.(lockWaiters := s.lockWaiters[1..], woken := None, grants := s.grants + [id]);
    StartSending(Acquire(t, id), id, phase.sendData, phase.from)
  }

  function SendChunk(s: State, id: Id, n: nat): State
    requires id in s.sessions && s.sessions[id].phase.Sending?
  {
    var x := s.sessions[id];
    var at := x.phase.first + |x.phase.sent|;
    if at + n <= |s.file|
    then Set(s, id, x.(phase := x.phase.(sent := x.phase.sent + s.file[at..at + n])))
    else Cleanup(s, id)
  }

  // ---------- push ----------

  function PushRequest(s: State, id: Id, begin: int, end: int, unlockAfter: bool): State
    requires id in s.sessions
  {
    if s.locked && !s.sessions[id].locking then Cleanup(s, id)
    else
      var t := if s.locked then s else Acquire(s, id);
      var conflict := !t.sessions[id].locking || begin != t.checkpoint;
      var status := if !t.writable then 'R' else if conflict then 'C' else if unlockAfter then 'O' else 'N';
      var writer := if t.writable && !conflict && t.clientLock then Some(t.checkpoint) else None;
      var u := Set(t, id, t.sessions[id].(status := status, writer := writer,
                                          phase := Receiving(begin, end, unlockAfter, [])));
      if end <= begin then PushFinish(u, id) else u
  }

  function ChunkSize(x: Session): nat
    requires x.phase.Receiving?
  {
    var remaining := x.phase.end - x.phase.begin - |x.phase.received|;
    if remaining <= 0 then 0 else if remaining < CHUNK then remaining else CHUNK
  }

  /** Receiving a chunk, before the end of the push is looked at. */
  function Received(s: State, id: Id, bytes: seq<byte>): State
    requires id in s.sessions && s.sessions[id].phase.Receiving?
  {
    var x := s.sessions[id];
    var phase := x.phase.(received := x.phase.received + bytes);
    if x.writer.None? then Set(s, id, x.(phase := phase))
    else Set(s.(file := Overlay(s.file, x.writer.value, bytes)), id,
             x.(phase := phase, writer := Some(x.writer.value + |bytes|)))
  }

  function PushChunk(s: State, id: Id, bytes: seq<byte>): State
    requires id in s.sessions && s.sessions[id].phase.Receiving?
    requires |bytes| == ChunkSize(s.sessions[id])
  {
    var t := Received(s, id, bytes);
    var phase := t.sessions[id].phase;
    if phase.end - phase.begin <= |phase.received| then PushFinish(t, id) else t
  }

  /** Whether the end of a push moves the checkpoint. */
  predicate WillCommit(s: State, x: Session)
    requires x.phase.Receiving?
  {
    x.phase.end > x.phase.begin && x.writer.Some? && s.clientLock && s.checkpoint < x.writer.value
  }

  function CommitPush(s: State, x: Session): State
    requires x.phase.Receiving?
  {
    if WillCommit(s, x) then
      s.(checkpoint := x.writer.value, fileCheckpoint := x.writer.value,
         commits := s.commits + [x.phase.received],
         clientLock := !(s.shared && x.phase.unlockAfter))
    else s
  }

  /** After the last chunk: commit if the writer is still there, unlock if asked to, reply. */
  function PushFinish(s: State, id: Id): State
    requires id in s.sessions && s.sessions[id].phase.Receiving?
  {
    var x := s.sessions[id];
    var u := Set(CommitPush(s, x), id, x.(writer := None, phase := Ready));
    var v := if x.phase.unlockAfter then Unlock(u, id) else u;
    v.(replies := v.replies + [Reply(id, x.phase.begin, x.phase.end, x.phase.received, x.status, WillCommit(s, x))])
  }

  // ---------- the state machine ----------

  datatype Action =
    | Connect(id: Id)
    | AskPull(id: Id, lockBefore: bool, sendData: bool, from: nat, wait: bool)
    | EndPullWait(id: Id)
    | Resume(id: Id)
    | Send(id: Id, n: nat)
    | SendDone(id: Id)
    | AskUnlock(id: Id)
    | AskPush(id: Id, begin: int, end: int, unlockAfter: bool)
    | Chunk(id: Id, bytes: seq<byte>)
    | TimeoutFires(id: Id)
    | Disconnect(id: Id)
    | OtherProcess(bytes: seq<byte>)   // another process appends to the file and checkpoints it

  predicate In(s: State, id: Id) {
    id in s.sessions
  }

  predicate Enabled(s: State, a: Action) {
    match a
    case Connect(id) => id !in s.sessions
    case AskPull(id, _, _, _, _) => In(s, id) && s.sessions[id].phase.Ready?
    case EndPullWait(id) => In(s, id) && s.sessions[id].phase.PullWaiting?
    case Resume(id) => In(s, id) && s.sessions[id].phase.LockWaiting? && s.woken == Some(id) && s.lockWaiters != []
    case Send(id, n) =>
      In(s, id) && s.sessions[id].phase.Sending? &&
      s.sessions[id].phase.first + |s.sessions[id].phase.sent| + n <= s.sessions[id].phase.until
    case SendDone(id) =>
      In(s, id) && s.sessions[id].phase.Sending? &&
      s.sessions[id].phase.first + |s.sessions[id].phase.sent| == s.sessions[id].phase.until
    case AskUnlock(id) => In(s, id) && s.sessions[id].phase.Ready?
    case AskPush(id, _, _, _) => In(s, id) && s.sessions[id].phase.Ready?
    case Chunk(id, bytes) =>
      In(s, id) && s.sessions[id].phase.Receiving? && |bytes| == ChunkSize(s.sessions[id])
    case TimeoutFires(id) => In(s, id)
    // a session suspended on a timer does not watch its socket
    case Disconnect(id) =>
      In(s, id) && !s.sessions[id].phase.LockWaiting? && !s.sessions[id].phase.PullWaiting?
    case OtherProcess(bytes) => !s.clientLock && bytes != []
  }

  function Step(s: State, a: Action): State
    requires Enabled(s, a)
  {
    match a
    case Connect(id) => Set(s, id, Session(false, None, 'N', Ready))
    case AskPull(id, lockBefore, sendData, from, wait) => PullRequest(s, id, lockBefore, sendData, from, wait)
    case EndPullWait(id) =>
      var p := s.sessions[id].phase;
      PullNow(Set(s, id, s.sessions[id].(phase := Ready)), id, p.lockBefore, p.sendData, p.from)
    case Resume(id) => LockResume(s, id)
    case Send(id, n) => SendChunk(s, id, n)
    case SendDone(id) => Set(s, id, s.sessions[id].(phase := Ready))
    case AskUnlock(id) => Unlock(s, id)
    case AskPush(id, begin, end, unlockAfter) => PushRequest(s, id, begin, end, unlockAfter)
    case Chunk(id, bytes) => PushChunk(s, id, bytes)
    case TimeoutFires(id) => Timeout(s, id)
    case Disconnect(id) => Cleanup(s, id)
    case OtherProcess(bytes) => OtherAppends(s, bytes)
  }

  /** Another process appends to the file and checkpoints what it appended. */
  function OtherAppends(s: State, bytes: seq<byte>): State {
    s.(file := Overlay(s.file, s.fileCheckpoint, bytes), fileCheckpoint := s.fileCheckpoint + |bytes|,
       commits := s.commits + [bytes])
  }

  predicate Init(s: State) {
    && s.fileCheckpoint <= |s.file| && s.checkpoint == s.fileCheckpoint
    && !s.locked && s.lockWaiters == [] && s.woken == None
    && s.clientLock == (s.writable && !s.shared)
    && s.sessions == map[]
    && s.commits == [] && s.replies == [] && s.arrivals == [] && s.grants == []
  }

  ghost predicate Run(states: seq<State>, actions: seq<Action>) {
    && |states| == |actions| + 1
    && Init(states[0])
    && forall i :: 0 <= i < |actions| ==> Enabled(states[i], actions[i]) && states[i + 1] == Step(states[i], actions[i])
  }

  // ---------- the invariant ----------

  function Flatten(parts: seq<seq<byte>>): seq<byte> {
    if parts == [] then [] else Flatten(parts[..|parts| - 1]) + parts[|parts| - 1]
  }

  predicate JournalInv(s: State) {
    && s.checkpoint <= s.fileCheckpoint <= |s.file|
    && (s.clientLock ==> s.writable && s.checkpoint == s.fileCheckpoint)
    && (s.writable && !s.shared ==> s.clientLock)
  }

  /** The checkpointed log is the initial one followed by what was committed, in order. */
  ghost predicate LogInv(s: State, initial: seq<byte>) {
    s.fileCheckpoint <= |s.file| && s.file[..s.fileCheckpoint] == initial + Flatten(s.commits)
  }

  ghost predicate NobodyLocks(s: State) {
    forall id <- s.sessions :: !s.sessions[id].locking
  }

  ghost predicate OneLocks(s: State) {
    forall a <- s.sessions, b <- s.sessions :: s.sessions[a].locking && s.sessions[b].locking ==> a == b
  }

  ghost predicate QueueInv(s: State) {
    && (forall i :: 0 <= i < |s.lockWaiters| ==>
          var id := s.lockWaiters[i];
          id in s.sessions && s.sessions[id].phase.LockWaiting? && !s.sessions[id].locking)
    && (forall i, j :: 0 <= i < j < |s.lockWaiters| ==> s.lockWaiters[i] != s.lockWaiters[j])
    && (forall id <- s.sessions :: s.sessions[id].phase.LockWaiting? ==> id in s.lockWaiters)
    && s.arrivals == s.grants + s.lockWaiters
  }

  ghost predicate LockInv(s: State) {
    && OneLocks(s)
    && QueueInv(s)
    && (!s.locked ==> NobodyLocks(s) && s.lockWaiters == [])
    && (s.woken.Some? ==> s.locked && NobodyLocks(s) && s.lockWaiters != [] && s.woken.value == s.lockWaiters[0])
    && (s.locked && NobodyLocks(s) ==> s.woken.Some?)
  }

  predicate PushCode(status: char) {
    status == 'N' || status == 'O'
  }

  /** A push writer belongs to the lock holder, started at the current checkpoint, and has written exactly what was received. */
  predicate SessionInv(s: State, x: Session) {
    && (x.locking && s.writable ==> s.clientLock)
    && (x.writer.Some? ==>
          && x.locking && s.clientLock && PushCode(x.status)
          && x.phase.Receiving? && x.phase.begin == s.checkpoint
          && x.writer.value == s.checkpoint + |x.phase.received| <= |s.file|
          && s.file[s.checkpoint..x.writer.value] == x.phase.received)
    && (x.phase.Receiving? ==> |x.phase.received| < x.phase.end - x.phase.begin && (PushCode(x.status) ==> x.writer.Some?))
    && (x.phase.Sending? ==>
          && x.phase.first + |x.phase.sent| <= x.phase.until <= s.fileCheckpoint <= |s.file|
          && s.file[x.phase.first..x.phase.first + |x.phase.sent|] == x.phase.sent)
  }

  ghost predicate SessionsInv(s: State) {
    forall id <- s.sessions :: SessionInv(s, s.sessions[id])
  }

  /** The status replied to a non-empty push says whether it was committed; a committed payload is in the log where the push began. */
  predicate ReplyInv(s: State, r: Reply) {
    && (r.committed <==> r.end > r.begin && PushCode(r.status))
    && (r.committed ==> 0 <= r.begin < r.end <= s.fileCheckpoint <= |s.file| && s.file[r.begin..r.end] == r.payload)
  }

  ghost predicate RepliesInv(s: State) {
    && (forall r <- s.replies :: ReplyInv(s, r))
    && (forall i, j :: 0 <= i < j < |s.replies| && s.replies[i].committed && s.replies[j].committed ==>
          s.replies[i].end <= s.replies[j].begin)
  }

  ghost predicate Inv(s: State, initial: seq<byte>) {
    JournalInv(s) && LogInv(s, initial) && LockInv(s) && SessionsInv(s) && RepliesInv(s)
  }

  // ---------- locking keeps it ----------

  lemma AcquireInv(s: State, id: Id, initial: seq<byte>)
    requires Inv(s, initial) && id in s.sessions && !s.sessions[id].phase.LockWaiting?
    requires !s.locked
    ensures Inv(Acquire(s, id), initial) && Acquire(s, id).sessions[id].locking
    ensures s.writable ==> Acquire(s, id).clientLock
  {
    var t := Acquire(s, id);
    assert forall k <- t.sessions :: k != id ==> t.sessions[k] == s.sessions[k];
    assert t.sessions[id].locking;
  }

  lemma UnlockLockInv(s: State, id: Id)
    requires LockInv(s) && id in s.sessions
    ensures LockInv(Unlock(s, id))
  {
    var t := Unlock(s, id);
    if s.sessions[id].locking {
      assert s.woken.None?;
      assert forall k <- t.sessions :: k != id ==> t.sessions[k] == s.sessions[k];
      assert NobodyLocks(t);
    }
  }

  lemma UnlockSessionsInv(s: State, id: Id)
    requires JournalInv(s) && LockInv(s) && SessionsInv(s) && id in s.sessions && s.sessions[id].writer.None?
    ensures JournalInv(Unlock(s, id)) && SessionsInv(Unlock(s, id))
  {
    var t := Unlock(s, id);
    if s.sessions[id].locking {
      forall k <- t.sessions
        ensures SessionInv(t, t.sessions[k])
      {
        assert SessionInv(s, s.sessions[k]);
        if k != id {
          assert t.sessions[k] == s.sessions[k];
          assert !s.sessions[k].locking;
        }
      }
    }
  }

  lemma UnlockInv(s: State, id: Id, initial: seq<byte>)
    requires Inv(s, initial) && id in s.sessions && s.sessions[id].writer.None?
    ensures Inv(Unlock(s, id), initial)
  {
    UnlockLockInv(s, id);
    UnlockSessionsInv(s, id);
  }

  /** A session that does not wait for the lock changes everything about itself but the lock. */
  lemma SetInv(s: State, id: Id, x: Session, initial: seq<byte>)
    requires Inv(s, initial) && id in s.sessions && !s.sessions[id].phase.LockWaiting?
    requires SessionInv(s, x) && x.locking == s.sessions[id].locking && !x.phase.LockWaiting?
    ensures Inv(Set(s, id, x), initial)
  {
    var t := Set(s, id, x);
    assert forall k <- t.sessions :: k != id ==> t.sessions[k] == s.sessions[k];
    forall k <- t.sessions
      ensures SessionInv(t, t.sessions[k])
    {
      assert SessionInv(s, if k == id then x else s.sessions[k]);
    }
    SetLockInv(s, id, x);
  }

  lemma SetLockInv(s: State, id: Id, x: Session)
    requires LockInv(s) && id in s.sessions && !s.sessions[id].phase.LockWaiting?
    requires x.locking == s.sessions[id].locking && !x.phase.LockWaiting?
    ensures LockInv(Set(s, id, x))
  {
    var t := Set(s, id, x);
    assert forall k <- t.sessions :: k in s.sessions && t.sessions[k].locking == s.sessions[k].locking;
    assert forall k <- s.sessions :: k in t.sessions && t.sessions[k].locking == s.sessions[k].locking;
    assert NobodyLocks(t) <==> NobodyLocks(s);
  }

  lemma RemoveAbsent(queue: seq<Id>, id: Id)
    requires id !in queue
    ensures RemoveFirst(queue, id) == queue
  {
  }

  /** The clean-up of a session finds it in no queue: only sessions that are not waiting end. */
  lemma CleanupInv(s: State, id: Id, initial: seq<byte>)
    requires Inv(s, initial) && id in s.sessions && !s.sessions[id].phase.LockWaiting?
    ensures Inv(Cleanup(s, id), initial)
  {
    var x := s.sessions[id];
    var s1 := Set(s, id, x.(writer := None, phase := Ready));
    SetInv(s, id, x.(writer := None, phase := Ready), initial);
    UnlockInv(s1, id, initial);
    assert id !in s.lockWaiters;
    CleanupIsDrop(s, id, x.(writer := None, phase := Ready));
    DropInv(Unlock(s1, id), id, initial);
  }

  lemma CleanupIsDrop(s: State, id: Id, x: Session)
    requires id in s.sessions && id !in s.lockWaiters && x.locking == s.sessions[id].locking
    ensures var t := Unlock(Set(s, id, x), id); Cleanup(s, id) == t.(sessions := t.sessions - {id})
  {
    RemoveAbsent(s.lockWaiters, id);
    DropUpdated(s.sessions, id, x);
    if x.locking {
      DropUpdated(s.sessions, id, s.sessions[id].(locking := false));
      DropUpdated(s.sessions[id := x], id, x.(locking := false));
    }
  }

  lemma DropUpdated(m: map<Id, Session>, id: Id, x: Session)
    ensures m[id := x] - {id} == m - {id}
  {
  }

  lemma DropInv(s: State, id: Id, initial: seq<byte>)
    requires Inv(s, initial) && id in s.sessions && !s.sessions[id].phase.LockWaiting? && !s.sessions[id].locking
    ensures Inv(s.(sessions := s.sessions - {id}), initial)
  {
    var t := s.(sessions := s.sessions - {id});
    assert forall k <- t.sessions :: k in s.sessions && t.sessions[k] == s.sessions[k];
    assert forall k <- s.sessions :: k != id ==> k in t.sessions;
    assert NobodyLocks(t) <==> NobodyLocks(s);
    forall k <- t.sessions
      ensures SessionInv(t, t.sessions[k])
    {
      assert SessionInv(s, s.sessions[k]);
    }
  }

  lemma TimeoutInv(s: State, id: Id, initial: seq<byte>)
    requires Inv(s, initial) && id in s.sessions
    ensures Inv(Timeout(s, id), initial)
  {
    var x := s.sessions[id];
    if x.writer.Some? {
      SetInv(s, id, x.(writer := None, status := 't'), initial);
      UnlockInv(Set(s, id, x.(writer := None, status := 't')), id, initial);
    } else {
      UnlockInv(s, id, initial);
    }
  }

  // ---------- pulling keeps it ----------

  lemma StartSendingInv(s: State, id: Id, sendData: bool, from: nat, initial: seq<byte>)
    requires Inv(s, initial) && id in s.sessions && s.sessions[id].phase.Ready?
    ensures Inv(StartSending(s, id, sendData, from), initial)
  {
    var x := StartSending(s, id, sendData, from).sessions[id];
    assert SessionInv(s, s.sessions[id]);
    assert SessionInv(s, x);
    SetInv(s, id, x, initial);
  }

  lemma EnqueueInv(s: State, id: Id, phase: Phase, initial: seq<byte>)
    requires Inv(s, initial) && id in s.sessions && s.sessions[id].phase.Ready?
    requires s.locked && !s.sessions[id].locking && phase.LockWaiting?
    ensures Inv(Set(s.(lockWaiters := s.lockWaiters + [id], arrivals := s.arrivals + [id]), id,
                    s.sessions[id].(phase := phase)), initial)
  {
    var t := Set(s.(lockWaiters := s.lockWaiters + [id], arrivals := s.arrivals + [id]), id, s.sessions[id].(phase := phase));
    assert id !in s.lockWaiters;
    assert t.arrivals == t.grants + t.lockWaiters;
    assert forall k <- t.sessions :: k != id ==> t.sessions[k] == s.sessions[k];
    assert NobodyLocks(t) <==> NobodyLocks(s) by {
      assert forall k <- s.sessions :: t.sessions[k].locking == s.sessions[k].locking;
    }
    forall k <- t.sessions
      ensures SessionInv(t, t.sessions[k])
    {
      assert SessionInv(s, s.sessions[k]);
    }
  }

  lemma PullNowInv(s: State, id: Id, lockBefore: bool, sendData: bool, from: nat, initial: seq<byte>)
    requires Inv(s, initial) && id in s.sessions && s.sessions[id].phase.Ready?
    ensures Inv(PullNow(s, id, lockBefore, sendData, from), initial)
  {
    if !lockBefore {
      StartSendingInv(s, id, sendData, from, initial);
    } else if s.sessions[id].locking {
      CleanupInv(s, id, initial);
    } else if !s.locked {
      AcquireInv(s, id, initial);
      StartSendingInv(Acquire(s, id), id, sendData, from, initial);
    } else {
      EnqueueInv(s, id, LockWaiting(sendData, from), initial);
    }
  }

  lemma RefreshInv(s: State, initial: seq<byte>)
    requires Inv(s, initial) && !s.clientLock
    ensures Inv(s.(checkpoint := s.fileCheckpoint), initial)
  {
    var t := s.(checkpoint := s.fileCheckpoint);
    forall k <- t.sessions
      ensures SessionInv(t, t.sessions[k])
    {
      assert SessionInv(s, s.sessions[k]);
    }
    assert NobodyLocks(t) <==> NobodyLocks(s);
  }

  lemma PullRequestInv(s: State, id: Id, lockBefore: bool, sendData: bool, from: nat, wait: bool, initial: seq<byte>)
    requires Inv(s, initial) && id in s.sessions && s.sessions[id].phase.Ready?
    ensures Inv(PullRequest(s, id, lockBefore, sendData, from, wait), initial)
  {
    var t := if s.clientLock then s else s.(checkpoint := s.fileCheckpoint);
    if !s.clientLock {
      RefreshInv(s, initial);
    }
    if wait && from == t.checkpoint {
      assert SessionInv(t, t.sessions[id]);
      SetInv(t, id, t.sessions[id].(phase := PullWaiting(lockBefore, sendData, from)), initial);
    } else {
      PullNowInv(t, id, lockBefore, sendData, from, initial);
    }
  }

  /** The waiter that resumes is the front of the queue, so what it pops is itself. */
  lemma DequeueInv(s: State, id: Id, initial: seq<byte>)
    requires Inv(s, initial) && id in s.sessions && s.sessions[id].phase.LockWaiting? && s.woken == Some(id)
    ensures s.lockWaiters != [] && s.lockWaiters[0] == id
    ensures var t := s.(lockWaiters := s.lockWaiters[1..], woken := None, grants := s.grants + [id]);
            Inv(Set(Acquire(t, id), id, Acquire(t, id).sessions[id].(phase := Ready)), initial)
  {
    var t := s.(lockWaiters := s.lockWaiters[1..], woken := None, grants := s.grants + [id]);
    var u := Set(Acquire(t, id), id, Acquire(t, id).sessions[id].(phase := Ready));
    assert s.lockWaiters == [id] + t.lockWaiters;
    assert u.sessions == s.sessions[id := s.sessions[id].(locking := true, phase := Ready)];
    DequeueLock(s, id, u);
    DequeueSessions(s, id, u);
  }

  lemma DequeueLock(s: State, id: Id, u: State)
    requires LockInv(s) && s.woken == Some(id)
    requires u.lockWaiters == s.lockWaiters[1..] && u.woken == None && u.locked
    requires u.arrivals == s.arrivals && u.grants == s.grants + [id] && s.lockWaiters == [id] + u.lockWaiters
    requires id in s.sessions && u.sessions == s.sessions[id := s.sessions[id].(locking := true, phase := Ready)]
    ensures LockInv(u)
  {
    assert u.arrivals == u.grants + u.lockWaiters;
    OnlyLocker(s, id, u);
    DequeueQueue(s, id, u);
  }

  lemma OnlyLocker(s: State, id: Id, u: State)
    requires NobodyLocks(s) && id in s.sessions && u.sessions == s.sessions[id := s.sessions[id].(locking := true, phase := Ready)]
    ensures OneLocks(u) && !NobodyLocks(u)
  {
    assert forall k <- u.sessions :: k != id ==> u.sessions[k] == s.sessions[k];
    assert u.sessions[id].locking;
  }

  lemma DequeueSessions(s: State, id: Id, u: State)
    requires JournalInv(s) && SessionsInv(s) && NobodyLocks(s) && id in s.sessions
    requires u.sessions == s.sessions[id := s.sessions[id].(locking := true, phase := Ready)]
    requires u.file == s.file && u.fileCheckpoint == s.fileCheckpoint && u.writable == s.writable
    requires u.writable ==> u.clientLock
    ensures SessionsInv(u)
  {
    forall k <- u.sessions
      ensures SessionInv(u, u.sessions[k])
    {
      assert SessionInv(s, s.sessions[k]);
    }
  }

  lemma DequeueQueue(s: State, id: Id, u: State)
    requires QueueInv(s) && s.lockWaiters != [] && s.lockWaiters[0] == id
    requires u.lockWaiters == s.lockWaiters[1..] && u.sessions.Keys == s.sessions.Keys
    requires u.arrivals == u.grants + u.lockWaiters
    requires u.sessions[id].phase.Ready?
    requires forall k <- u.sessions :: k != id ==> u.sessions[k] == s.sessions[k]
    ensures QueueInv(u)
  {
    forall k <- u.sessions | u.sessions[k].phase.LockWaiting?
      ensures k in u.lockWaiters
    {
      assert k in s.lockWaiters;
    }
  }

  lemma LockResumeInv(s: State, id: Id, initial: seq<byte>)
    requires Inv(s, initial) && Enabled(s, Resume(id))
    ensures Inv(LockResume(s, id), initial)
  {
    DequeueInv(s, id, initial);
    var phase := s.sessions[id].phase;
    var t := s.(lockWaiters := s.lockWaiters[1..], woken := None, grants := s.grants + [id]);
    var u := Set(Acquire(t, id), id, Acquire(t, id).sessions[id].(phase := Ready));
    StartSendingInv(u, id, phase.sendData, phase.from, initial);
    SendingForgetsPhase(Acquire(t, id), id, phase.sendData, phase.from);
  }

  lemma SendingForgetsPhase(s: State, id: Id, sendData: bool, from: nat)
    requires id in s.sessions
    ensures StartSending(Set(s, id, s.sessions[id].(phase := Ready)), id, sendData, from) ==
            StartSending(s, id, sendData, from)
  {
    var a := StartSending(Set(s, id, s.sessions[id].(phase := Ready)), id, sendData, from);
    var b := StartSending(s, id, sendData, from);
    assert a.sessions == b.sessions;
  }

  lemma SendChunkInv(s: State, id: Id, n: nat, initial: seq<byte>)
    requires Inv(s, initial) && Enabled(s, Send(id, n))
    ensures Inv(SendChunk(s, id, n), initial)
  {
    var x := s.sessions[id];
    SendSession(s, x, n);
    SetInv(s, id, SendChunk(s, id, n).sessions[id], initial);
  }

  lemma SendSession(s: State, x: Session, n: nat)
    requires SessionInv(s, x) && x.phase.Sending? && x.phase.first + |x.phase.sent| + n <= x.phase.until
    ensures var at := x.phase.first + |x.phase.sent|;
            SessionInv(s, x.(phase := x.phase.(sent := x.phase.sent + s.file[at..at + n])))
  {
    var at := x.phase.first + |x.phase.sent|;
    assert s.file[x.phase.first..at + n] == s.file[x.phase.first..at] + s.file[at..at + n];
  }

  // ---------- pushing keeps it ----------

  /** Bytes written above the checkpoint by the lock holder are seen by no other session. */
  lemma WriteAboveKeeps(s: State, x: Session, offset: nat, bytes: seq<byte>)
    requires SessionInv(s, x) && x.writer.None? && s.fileCheckpoint <= offset <= |s.file|
    ensures SessionInv(s.(file := Overlay(s.file, offset, bytes)), x)
  {
    if x.phase.Sending? {
      OverlayAbove(s.file, offset, bytes, x.phase.first, x.phase.first + |x.phase.sent|);
    }
  }

  lemma OverlayAbove(data: seq<byte>, offset: nat, bytes: seq<byte>, a: nat, b: nat)
    requires a <= b <= offset <= |data|
    ensures b <= |Overlay(data, offset, bytes)| && Overlay(data, offset, bytes)[a..b] == data[a..b]
  {
  }

  lemma WriterGets(s: State, x: Session, bytes: seq<byte>)
    requires x.writer.Some? && x.phase.Receiving? && s.checkpoint + |x.phase.received| == x.writer.value <= |s.file|
    requires s.file[s.checkpoint..x.writer.value] == x.phase.received
    ensures var f := Overlay(s.file, x.writer.value, bytes);
            var w := x.writer.value + |bytes|;
            w <= |f| && f[s.checkpoint..w] == x.phase.received + bytes
  {
    var f := Overlay(s.file, x.writer.value, bytes);
    var w := x.writer.value + |bytes|;
    assert f[s.checkpoint..w] == f[s.checkpoint..x.writer.value] + f[x.writer.value..w];
    assert f[s.checkpoint..x.writer.value] == s.file[s.checkpoint..x.writer.value];
    assert f[x.writer.value..w] == bytes;
  }

  /** The state just before the end of a push: every chunk is in, nothing is decided. */
  ghost predicate Complete(s: State, id: Id, initial: seq<byte>) {
    && JournalInv(s) && LogInv(s, initial) && LockInv(s) && RepliesInv(s)
    && id in s.sessions
    && (forall k <- s.sessions :: k != id ==>
          SessionInv(s, s.sessions[k]) && (s.sessions[id].writer.Some? ==> s.sessions[k].writer.None?))
    && CompleteSession(s, s.sessions[id])
  }

  predicate CompleteSession(s: State, x: Session) {
    && x.phase.Receiving?
    && (x.locking && s.writable ==> s.clientLock)
    && (x.writer.Some? ==>
          && x.locking && s.clientLock && x.phase.begin == s.checkpoint
          && x.writer.value == s.checkpoint + |x.phase.received| <= |s.file|
          && s.file[s.checkpoint..x.writer.value] == x.phase.received)
    && (x.phase.end > x.phase.begin ==>
          |x.phase.received| == x.phase.end - x.phase.begin && (PushCode(x.status) <==> x.writer.Some?))
  }

  lemma FlattenAppend(parts: seq<seq<byte>>, last: seq<byte>)
    ensures Flatten(parts + [last]) == Flatten(parts) + last
  {
    assert (parts + [last])[..|parts|] == parts;
  }

  /** What a commit adds to the log is the payload of the push. */
  lemma CommitLog(s: State, writer: nat, received: seq<byte>, initial: seq<byte>)
    requires LogInv(s, initial) && s.checkpoint == s.fileCheckpoint <= writer <= |s.file|
    requires s.file[s.checkpoint..writer] == received
    ensures s.file[..writer] == initial + Flatten(s.commits + [received])
  {
    FlattenAppend(s.commits, received);
    assert s.file[..writer] == s.file[..s.checkpoint] + s.file[s.checkpoint..writer];
    assert (initial + Flatten(s.commits)) + received == initial + (Flatten(s.commits) + received);
  }

  /** The end of a push, before the lock is given back. */
  function Settled(s: State, id: Id): State
    requires id in s.sessions && s.sessions[id].phase.Receiving?
  {
    var x := s.sessions[id];
    var t :=
      if x.phase.end > x.phase.begin && x.writer.Some? then
        s.(checkpoint := x.writer.value, fileCheckpoint := x.writer.value, commits := s.commits + [x.phase.received])
      else s;
    Set(t, id, x.(writer := None, phase := Ready))
  }

  lemma SettledJournal(s: State, id: Id, initial: seq<byte>)
    requires Complete(s, id, initial)
    ensures JournalInv(Settled(s, id)) && LogInv(Settled(s, id), initial)
  {
    var x := s.sessions[id];
    if x.phase.end > x.phase.begin && x.writer.Some? {
      CommitLog(s, x.writer.value, x.phase.received, initial);
    }
  }

  lemma SettledInv(s: State, id: Id, initial: seq<byte>)
    requires Complete(s, id, initial)
    ensures Inv(Settled(s, id), initial)
  {
    SettledJournal(s, id, initial);
    var t := Settled(s, id);
    SetLockInv(s, id, t.sessions[id]);
    assert LockInv(t) by {
      var u := Set(s, id, t.sessions[id]);
      assert LockInv(u) && NobodyLocks(t) <==> LockInv(u) && NobodyLocks(u);
    }
    forall k <- t.sessions
      ensures SessionInv(t, t.sessions[k])
    {
      if k != id {
        assert SessionInv(s, s.sessions[k]);
      }
    }
  }

  lemma ReleaseInv(s: State, initial: seq<byte>)
    requires Inv(s, initial) && NobodyLocks(s) && s.shared
    ensures Inv(s.(clientLock := false), initial)
  {
    var t := s.(clientLock := false);
    forall k <- t.sessions
      ensures SessionInv(t, t.sessions[k])
    {
      assert SessionInv(s, s.sessions[k]);
    }
    assert NobodyLocks(t);
  }

  lemma AddReplyInv(s: State, r: Reply, initial: seq<byte>)
    requires Inv(s, initial) && ReplyInv(s, r)
    requires r.committed ==> forall q <- s.replies :: q.committed ==> q.end <= r.begin
    ensures Inv(s.(replies := s.replies + [r]), initial)
  {
    var t := s.(replies := s.replies + [r]);
    forall k <- t.sessions
      ensures SessionInv(t, t.sessions[k])
    {
      assert SessionInv(s, s.sessions[k]);
    }
    forall q <- t.replies
      ensures ReplyInv(t, q)
    {
      assert ReplyInv(s, q);
    }
    assert NobodyLocks(t) <==> NobodyLocks(s);
  }

  predicate Commits(s: State, id: Id)
    requires id in s.sessions && s.sessions[id].phase.Receiving?
  {
    s.sessions[id].phase.end > s.sessions[id].phase.begin && s.sessions[id].writer.Some?
  }

  /** The end of a push, in the order in which the invariant is kept. */
  function Finished(s: State, id: Id): State
    requires id in s.sessions && s.sessions[id].phase.Receiving?
  {
    var phase := s.sessions[id].phase;
    var u := Settled(s, id);
    var v := if phase.unlockAfter then Unlock(u, id) else u;
    var w := if Commits(s, id) && s.shared && phase.unlockAfter then v.(clientLock := false) else v;
    w.(replies := w.replies + [Reply(id, phase.begin, phase.end, phase.received, s.sessions[id].status, Commits(s, id))])
  }

  lemma PushFinishIsFinished(s: State, id: Id, initial: seq<byte>)
    requires Complete(s, id, initial)
    ensures PushFinish(s, id) == Finished(s, id)
  {
    var x := s.sessions[id];
    assert Commits(s, id) ==> s.clientLock && s.checkpoint < x.writer.value;
  }

  lemma PushFinishInv(s: State, id: Id, initial: seq<byte>)
    requires Complete(s, id, initial)
    ensures Inv(PushFinish(s, id), initial)
  {
    PushFinishIsFinished(s, id, initial);
    FinishedInv(s, id, initial);
  }

  lemma FinishedInv(s: State, id: Id, initial: seq<byte>)
    requires Complete(s, id, initial)
    ensures Inv(Finished(s, id), initial)
  {
    var phase := s.sessions[id].phase;
    SettledInv(s, id, initial);
    var u := Settled(s, id);
    var v := if phase.unlockAfter then Unlock(u, id) else u;
    if phase.unlockAfter {
      UnlockInv(u, id, initial);
    }
    var w := v;
    if Commits(s, id) && s.shared && phase.unlockAfter {
      UnlockerLeaves(u, id);
      ReleaseInv(v, initial);
      w := v.(clientLock := false);
    }
    FinalReply(s, id, w, initial);
    AddReplyInv(w, Reply(id, phase.begin, phase.end, phase.received, s.sessions[id].status, Commits(s, id)), initial);
  }

  lemma FinalReply(s: State, id: Id, w: State, initial: seq<byte>)
    requires Complete(s, id, initial)
    requires w.file == s.file && w.fileCheckpoint == Settled(s, id).fileCheckpoint && w.replies == s.replies
    ensures var p := s.sessions[id].phase;
            var r := Reply(id, p.begin, p.end, p.received, s.sessions[id].status, Commits(s, id));
            ReplyInv(w, r) && (r.committed ==> forall q <- w.replies :: q.committed ==> q.end <= r.begin)
  {
    forall q <- w.replies
      ensures q.committed ==> q.end <= s.fileCheckpoint
    {
      assert ReplyInv(s, q);
    }
  }

  lemma UnlockerLeaves(s: State, id: Id)
    requires OneLocks(s) && id in s.sessions && s.sessions[id].locking
    ensures NobodyLocks(Unlock(s, id))
  {
  }

  lemma ReceivedOthers(s: State, id: Id, bytes: seq<byte>, initial: seq<byte>)
    requires Inv(s, initial) && id in s.sessions && s.sessions[id].phase.Receiving?
    ensures var t := Received(s, id, bytes);
            && JournalInv(t) && LogInv(t, initial) && LockInv(t) && RepliesInv(t)
            && (forall k <- t.sessions :: k != id ==>
                  SessionInv(t, t.sessions[k]) && (t.sessions[id].writer.Some? ==> t.sessions[k].writer.None?))
  {
    assert SessionInv(s, s.sessions[id]);
    ReceivedJournal(s, id, bytes, initial);
    ReceivedLock(s, id, bytes);
    ReceivedSessions(s, id, bytes, initial);
  }

  lemma ReceivedJournal(s: State, id: Id, bytes: seq<byte>, initial: seq<byte>)
    requires JournalInv(s) && LogInv(s, initial) && RepliesInv(s) && id in s.sessions && s.sessions[id].phase.Receiving?
    requires SessionInv(s, s.sessions[id])
    ensures var t := Received(s, id, bytes); JournalInv(t) && LogInv(t, initial) && RepliesInv(t)
  {
    var t := Received(s, id, bytes);
    if s.sessions[id].writer.Some? {
      var at := s.sessions[id].writer.value;
      OverlayAbove(s.file, at, bytes, 0, s.fileCheckpoint);
      forall r <- t.replies ensures ReplyInv(t, r) {
        assert ReplyInv(s, r);
        if r.committed {
          OverlayAbove(s.file, at, bytes, r.begin, r.end);
        }
      }
    }
  }

  lemma ReceivedLock(s: State, id: Id, bytes: seq<byte>)
    requires LockInv(s) && id in s.sessions && s.sessions[id].phase.Receiving?
    ensures LockInv(Received(s, id, bytes))
  {
    var t := Received(s, id, bytes);
    SetLockInv(s, id, t.sessions[id]);
    assert NobodyLocks(Set(s, id, t.sessions[id])) <==> NobodyLocks(t);
  }

  lemma ReceivedSessions(s: State, id: Id, bytes: seq<byte>, initial: seq<byte>)
    requires Inv(s, initial) && id in s.sessions && s.sessions[id].phase.Receiving?
    ensures var t := Received(s, id, bytes);
            forall k <- t.sessions :: k != id ==>
              SessionInv(t, t.sessions[k]) && (t.sessions[id].writer.Some? ==> t.sessions[k].writer.None?)
  {
    var x := s.sessions[id];
    var t := Received(s, id, bytes);
    assert SessionInv(s, x);
    forall k <- t.sessions | k != id
      ensures SessionInv(t, t.sessions[k]) && (t.sessions[id].writer.Some? ==> t.sessions[k].writer.None?)
    {
      assert SessionInv(s, s.sessions[k]);
      if x.writer.Some? {
        WriteAboveKeeps(s, s.sessions[k], x.writer.value, bytes);
      }
    }
  }

  lemma PushChunkInv(s: State, id: Id, bytes: seq<byte>, initial: seq<byte>)
    requires Inv(s, initial) && Enabled(s, Chunk(id, bytes))
    ensures Inv(PushChunk(s, id, bytes), initial)
  {
    var x := s.sessions[id];
    var t := Received(s, id, bytes);
    assert SessionInv(s, x);
    ReceivedOthers(s, id, bytes, initial);
    if x.writer.Some? {
      WriterGets(s, x, bytes);
    }
    var phase := t.sessions[id].phase;
    if phase.end - phase.begin <= |phase.received| {
      PushFinishInv(t, id, initial);
    } else {
      StillServed(t, id, initial);
    }
  }

  lemma StillServed(t: State, id: Id, initial: seq<byte>)
    requires JournalInv(t) && LogInv(t, initial) && LockInv(t) && RepliesInv(t) && id in t.sessions && SessionInv(t, t.sessions[id])
    requires forall k <- t.sessions :: k != id ==> SessionInv(t, t.sessions[k])
    ensures Inv(t, initial)
  {
  }

  /** A push request, once the session has the lock: the writer is set up, or the conflict noted. */
  lemma PushBeginSession(t: State, x: Session, begin: int, end: int, unlockAfter: bool)
    requires JournalInv(t) && SessionInv(t, x) && x.locking
    ensures
      var conflict := begin != t.checkpoint;
      var status := if !t.writable then 'R' else if conflict then 'C' else if unlockAfter then 'O' else 'N';
      var writer := if t.writable && !conflict && t.clientLock then Some(t.checkpoint) else None;
      var y := x.(status := status, writer := writer, phase := Receiving(begin, end, unlockAfter, []));
      && (end > begin ==> SessionInv(t, y))
      && (end <= begin ==> CompleteSession(t, y))
  {
    assert t.file[t.checkpoint..t.checkpoint] == [];
  }

  lemma PushRequestInv(s: State, id: Id, begin: int, end: int, unlockAfter: bool, initial: seq<byte>)
    requires Inv(s, initial) && id in s.sessions && s.sessions[id].phase.Ready?
    ensures Inv(PushRequest(s, id, begin, end, unlockAfter), initial)
  {
    if s.locked && !s.sessions[id].locking {
      CleanupInv(s, id, initial);
    } else {
      var t := if s.locked then s else Acquire(s, id);
      if !s.locked {
        AcquireInv(s, id, initial);
      }
      HolderPushes(t, id, begin, end, unlockAfter, initial);
    }
  }

  lemma HolderPushes(t: State, id: Id, begin: int, end: int, unlockAfter: bool, initial: seq<byte>)
    requires Inv(t, initial) && id in t.sessions && t.sessions[id].phase.Ready? && t.sessions[id].locking && t.locked
    ensures Inv(PushRequest(t, id, begin, end, unlockAfter), initial)
  {
    var x := t.sessions[id];
    assert SessionInv(t, x);
    PushBeginSession(t, x, begin, end, unlockAfter);
    var conflict := begin != t.checkpoint;
    var status := if !t.writable then 'R' else if conflict then 'C' else if unlockAfter then 'O' else 'N';
    var writer := if t.writable && !conflict && t.clientLock then Some(t.checkpoint) else None;
    var y := x.(status := status, writer := writer, phase := Receiving(begin, end, unlockAfter, []));
    if end <= begin {
      SetLockInv(t, id, y);
      forall k <- t.sessions | k != id
        ensures SessionInv(Set(t, id, y), t.sessions[k]) && t.sessions[k].writer.None?
      {
        assert SessionInv(t, t.sessions[k]);
      }
      PushFinishInv(Set(t, id, y), id, initial);
    } else {
      SetInv(t, id, y, initial);
    }
  }

  lemma OtherProcessLog(s: State, bytes: seq<byte>, initial: seq<byte>)
    requires JournalInv(s) && LogInv(s, initial) && bytes != []
    ensures var f := Overlay(s.file, s.fileCheckpoint, bytes);
            && s.fileCheckpoint + |bytes| <= |f|
            && f[..s.fileCheckpoint + |bytes|] == initial + Flatten(s.commits + [bytes])
  {
    var f := Overlay(s.file, s.fileCheckpoint, bytes);
    FlattenAppend(s.commits, bytes);
    assert f[..s.fileCheckpoint + |bytes|] == s.file[..s.fileCheckpoint] + bytes;
    assert (initial + Flatten(s.commits)) + bytes == initial + Flatten(s.commits + [bytes]);
  }

  lemma OtherProcessInv(s: State, bytes: seq<byte>, initial: seq<byte>)
    requires Inv(s, initial) && Enabled(s, OtherProcess(bytes))
    ensures Inv(Step(s, OtherProcess(bytes)), initial)
  {
    var t := Step(s, OtherProcess(bytes));
    OtherProcessLog(s, bytes, initial);
    assert NobodyLocks(t) <==> NobodyLocks(s);
    forall k <- t.sessions
      ensures SessionInv(t, t.sessions[k])
    {
      assert SessionInv(s, s.sessions[k]);
      WriteAboveKeeps(s, s.sessions[k], s.fileCheckpoint, bytes);
    }
    assert LockInv(t);
    RepliesSurvive(s, t);
  }

  /** Committed payloads stay where they are when the file changes only above its checkpoint. */
  lemma RepliesSurvive(s: State, t: State)
    requires RepliesInv(s) && t.replies == s.replies
    requires s.fileCheckpoint <= |s.file| && s.fileCheckpoint <= t.fileCheckpoint <= |t.file|
    requires forall p :: 0 <= p < s.fileCheckpoint ==> t.file[p] == s.file[p]
    ensures RepliesInv(t)
  {
    forall r <- t.replies
      ensures ReplyInv(t, r)
    {
      assert ReplyInv(s, r);
      if r.committed {
        assert t.file[r.begin..r.end] == s.file[r.begin..r.end];
      }
    }
  }

  lemma ConnectInv(s: State, id: Id, initial: seq<byte>)
    requires Inv(s, initial) && id !in s.sessions
    ensures Inv(Step(s, Connect(id)), initial)
  {
    var t := Step(s, Connect(id));
    assert forall k <- t.sessions :: k != id ==> t.sessions[k] == s.sessions[k];
    assert NobodyLocks(t) <==> NobodyLocks(s) by {
      assert forall k <- s.sessions :: k in t.sessions && t.sessions[k] == s.sessions[k];
    }
    forall k <- t.sessions
      ensures SessionInv(t, t.sessions[k])
    {
      assert k != id ==> SessionInv(s, s.sessions[k]);
    }
  }

  lemma ReadyInv(s: State, id: Id, initial: seq<byte>)
    requires Inv(s, initial) && id in s.sessions
    requires s.sessions[id].phase.Sending? || s.sessions[id].phase.PullWaiting?
    ensures Inv(Set(s, id, s.sessions[id].(phase := Ready)), initial)
  {
    assert SessionInv(s, s.sessions[id]);
    SetInv(s, id, s.sessions[id].(phase := Ready), initial);
  }

  lemma StepInv(s: State, a: Action, initial: seq<byte>)
    requires Inv(s, initial) && Enabled(s, a)
    ensures Inv(Step(s, a), initial)
  {
    match a
    case Connect(id) => ConnectInv(s, id, initial);
    case AskPull(id, lockBefore, sendData, from, wait) =>
      PullRequestInv(s, id, lockBefore, sendData, from, wait, initial);
    case EndPullWait(id) =>
      var p := s.sessions[id].phase;
      ReadyInv(s, id, initial);
      PullNowInv(Set(s, id, s.sessions[id].(phase := Ready)), id, p.lockBefore, p.sendData, p.from, initial);
    case Resume(id) => LockResumeInv(s, id, initial);
    case Send(id, n) => SendChunkInv(s, id, n, initial);
    case SendDone(id) => ReadyInv(s, id, initial);
    case AskUnlock(id) =>
      assert SessionInv(s, s.sessions[id]);
      UnlockInv(s, id, initial);
    case AskPush(id, begin, end, unlockAfter) => PushRequestInv(s, id, begin, end, unlockAfter, initial);
    case Chunk(id, bytes) => PushChunkInv(s, id, bytes, initial);
    case TimeoutFires(id) => TimeoutInv(s, id, initial);
    case Disconnect(id) => CleanupInv(s, id, initial);
    case OtherProcess(bytes) => OtherProcessInv(s, bytes, initial);
  }

  // ---------- whole runs ----------

  lemma {:induction false} RunInv(states: seq<State>, actions: seq<Action>, i: nat)
    requires Run(states, actions) && i <= |actions|
    ensures Inv(states[i], states[0].file[..states[0].fileCheckpoint])
  {
    var initial := states[0].file[..states[0].fileCheckpoint];
    if i == 0 {
      assert initial + Flatten([]) == initial;
    } else {
      RunInv(states, actions, i - 1);
      StepInv(states[i - 1], actions[i - 1], initial);
    }
  }

  /** The log a client can see: the file below the checkpoint stored in it. */
  function Log(s: State): seq<byte> {
    if s.fileCheckpoint <= |s.file| then s.file[..s.fileCheckpoint] else s.file
  }

  /** In every run the log is the initial log followed by exactly the committed payloads, in order. */
  lemma LogIsCommittedPushes(states: seq<State>, actions: seq<Action>, i: nat)
    requires Run(states, actions) && i <= |actions|
    ensures Log(states[i]) == Log(states[0]) + Flatten(states[i].commits)
  {
    RunInv(states, actions, i);
  }

  /** Every reachable state: one lock holder at most; a push writer belongs to it and started at the checkpoint; the
      lock is held, or on its way to the front waiter, exactly when `locked`. */
  lemma LockSafety(states: seq<State>, actions: seq<Action>, i: nat)
    requires Run(states, actions) && i <= |actions|
    ensures OneLocks(states[i])
    ensures forall id <- states[i].sessions :: states[i].sessions[id].writer.Some? ==>
              && states[i].sessions[id].locking && states[i].clientLock
              && states[i].sessions[id].phase.Receiving?
              && states[i].sessions[id].phase.begin == states[i].checkpoint == states[i].fileCheckpoint
              && states[i].sessions[id].writer.value == states[i].checkpoint + |states[i].sessions[id].phase.received|
    ensures states[i].locked <==>
              || !NobodyLocks(states[i])
              || (states[i].lockWaiters != [] && states[i].woken == Some(states[i].lockWaiters[0]))
  {
    RunInv(states, actions, i);
    assert forall id <- states[i].sessions :: SessionInv(states[i], states[i].sessions[id]);
  }

  /** Waiters get the lock in the order in which they asked for it. */
  lemma LockIsFifo(states: seq<State>, actions: seq<Action>, i: nat)
    requires Run(states, actions) && i <= |actions|
    ensures states[i].arrivals == states[i].grants + states[i].lockWaiters
    ensures states[i].woken.Some? ==> states[i].lockWaiters != [] && states[i].woken.value == states[i].lockWaiters[0]
  {
    RunInv(states, actions, i);
  }

  /** What a pull has sent so far is a slice of the log, whatever was pushed meanwhile. */
  lemma SentIsLog(states: seq<State>, actions: seq<Action>, i: nat, id: Id)
    requires Run(states, actions) && i <= |actions|
    requires id in states[i].sessions && states[i].sessions[id].phase.Sending?
    ensures var p := states[i].sessions[id].phase;
            p.first + |p.sent| <= p.until <= |Log(states[i])| && Log(states[i])[p.first..p.first + |p.sent|] == p.sent
  {
    RunInv(states, actions, i);
    assert SessionInv(states[i], states[i].sessions[id]);
    var p := states[i].sessions[id].phase;
    assert Log(states[i])[p.first..p.first + |p.sent|] == states[i].file[p.first..p.first + |p.sent|];
  }

  /** A non-empty push was committed exactly when its own code came back, and then its payload is in the log at its place. */
  lemma ReplyTellsCommit(states: seq<State>, actions: seq<Action>, i: nat, r: Reply)
    requires Run(states, actions) && i <= |actions| && r in states[i].replies && r.end > r.begin
    ensures PushCode(r.status) <==> r.committed
    ensures r.committed ==> 0 <= r.begin < r.end <= |Log(states[i])| && Log(states[i])[r.begin..r.end] == r.payload
  {
    RunInv(states, actions, i);
    assert ReplyInv(states[i], r);
  }

  // ---------- where commits come from ----------

  /** One step adds nothing to the log, or one payload: of another process, or of the push it completes. */
  ghost predicate Explained(s: State, a: Action, t: State) {
    || (t.commits == s.commits && (t.replies == s.replies || exists r :: !IsCommit(r) && t.replies == s.replies + [r]))
    || (a.OtherProcess? && t.commits == s.commits + [a.bytes] && t.replies == s.replies)
    || exists r :: IsCommit(r) && t.replies == s.replies + [r] && t.commits == s.commits + [r.payload]
  }

  predicate IsCommit(r: Reply) {
    r.committed
  }

  lemma FinishExplained(s: State, id: Id)
    requires id in s.sessions && s.sessions[id].phase.Receiving?
    ensures var t := PushFinish(s, id);
            && |t.replies| == |s.replies| + 1
            && var r := t.replies[|s.replies|];
            && t.replies == s.replies + [r]
            && t.commits == if IsCommit(r) then s.commits + [r.payload] else s.commits
  {
  }

  lemma PushRequestExplained(s: State, id: Id, begin: int, end: int, unlockAfter: bool)
    requires Enabled(s, AskPush(id, begin, end, unlockAfter))
    ensures Explained(s, AskPush(id, begin, end, unlockAfter), PushRequest(s, id, begin, end, unlockAfter))
  {
    if !(s.locked && !s.sessions[id].locking) && end <= begin {
      var u := if s.locked then s else Acquire(s, id);
      var conflict := !u.sessions[id].locking || begin != u.checkpoint;
      var status := if !u.writable then 'R' else if conflict then 'C' else if unlockAfter then 'O' else 'N';
      var writer := if u.writable && !conflict && u.clientLock then Some(u.checkpoint) else None;
      FinishExplained(Set(u, id, u.sessions[id].(status := status, writer := writer,
                                                 phase := Receiving(begin, end, unlockAfter, []))), id);
    }
  }

  lemma ChunkExplained(s: State, id: Id, bytes: seq<byte>)
    requires Enabled(s, Chunk(id, bytes))
    ensures Explained(s, Chunk(id, bytes), PushChunk(s, id, bytes))
  {
    var u := Received(s, id, bytes);
    var phase := u.sessions[id].phase;
    assert u.commits == s.commits && u.replies == s.replies;
    if phase.end - phase.begin <= |phase.received| {
      FinishExplained(u, id);
      OneReply(s, PushFinish(u, id), Chunk(id, bytes));
    }
  }

  lemma OneReply(s: State, t: State, a: Action)
    requires |t.replies| == |s.replies| + 1
    requires var r := t.replies[|s.replies|];
             t.replies == s.replies + [r] && t.commits == if IsCommit(r) then s.commits + [r.payload] else s.commits
    ensures Explained(s, a, t)
  {
    var r := t.replies[|s.replies|];
    assert IsCommit(r) || !IsCommit(r);
  }

  lemma StepExplained(s: State, a: Action)
    requires Enabled(s, a)
    ensures Explained(s, a, Step(s, a))
  {
    match a {
      case AskPush(id, begin, end, unlockAfter) => PushRequestExplained(s, id, begin, end, unlockAfter);
      case Chunk(id, bytes) => ChunkExplained(s, id, bytes);
      case _ =>
    }
  }

  lemma ExplainedGrows(s: State, a: Action, t: State)
    requires Explained(s, a, t)
    ensures t.commits == s.commits || (|t.commits| == |s.commits| + 1 && t.commits == s.commits + [t.commits[|s.commits|]])
  {
  }

  lemma LogGrowsOnce(states: seq<State>, actions: seq<Action>, i: nat)
    requires Run(states, actions) && i < |actions|
    ensures states[i].commits <= states[i + 1].commits && Log(states[i]) <= Log(states[i + 1])
  {
    StepExplained(states[i], actions[i]);
    ExplainedGrows(states[i], actions[i], states[i + 1]);
    LogIsCommittedPushes(states, actions, i);
    LogIsCommittedPushes(states, actions, i + 1);
    PrefixGrows(Log(states[0]), states[i].commits, states[i + 1].commits);
  }

  lemma PrefixGrows(initial: seq<byte>, a: seq<seq<byte>>, b: seq<seq<byte>>)
    requires b == a || (|b| == |a| + 1 && b == a + [b[|a|]])
    ensures initial + Flatten(a) <= initial + Flatten(b)
  {
    if b != a {
      FlattenAppend(a, b[|a|]);
    }
  }

  /** The log only grows by appending. */
  lemma LogOnlyGrows(states: seq<State>, actions: seq<Action>, i: nat, j: nat)
    requires Run(states, actions) && i <= j <= |actions|
    ensures states[i].commits <= states[j].commits && Log(states[i]) <= Log(states[j])
  {
    var logs := seq(|states|, k requires 0 <= k < |states| => Log(states[k]));
    var commits := seq(|states|, k requires 0 <= k < |states| => states[k].commits);
    forall k | 0 < k < |states|
      ensures logs[k - 1] <= logs[k] && commits[k - 1] <= commits[k]
    {
      LogGrowsOnce(states, actions, k - 1);
    }
    PrefixChain(logs, i, j);
    PrefixChain(commits, i, j);
  }
}
