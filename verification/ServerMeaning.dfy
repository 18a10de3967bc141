/** What the stretches of server code between two waits do for the client: who has the lock, and what is in the log. */
module ServerMeaning {
  import opened Bytes
  import opened Server
  import opened RobustPush

  /** Session `id` gives the lock back: to the front waiter, who is woken, or to anybody. */
  predicate HandedOver(s: State, t: State, id: Id) {
    id in s.sessions && s.sessions[id].locking ==>
      if s.lockWaiters == [] then !t.locked && t.woken == None && (s.shared ==> !t.clientLock)
      else t.locked && t.woken == Some(s.lockWaiters[0]) && t.lockWaiters == s.lockWaiters
  }

  lemma UnlockHandsOver(s: State, id: Id, initial: seq<byte>)
    requires Inv(s, initial) && id in s.sessions
    ensures var t := Unlock(s, id);
            id in t.sessions && !t.sessions[id].locking && HandedOver(s, t, id) && Log(t) == Log(s)
  {
  }

  /** A session that times out has neither lock nor writer; the bytes it had pushed stay above the checkpoint. */
  lemma TimeoutAborts(s: State, id: Id, initial: seq<byte>)
    requires Inv(s, initial) && id in s.sessions
    ensures var t := Timeout(s, id);
            && id in t.sessions && !t.sessions[id].locking && t.sessions[id].writer.None?
            && (s.sessions[id].writer.Some? ==> t.sessions[id].status == 't')
            && HandedOver(s, t, id) && Log(t) == Log(s)
  {
    assert SessionInv(s, s.sessions[id]);
  }

  lemma {:induction false} RemovedFromQueue(queue: seq<Id>, id: Id)
    requires forall i, j :: 0 <= i < j < |queue| ==> queue[i] != queue[j]
    ensures id !in RemoveFirst(queue, id)
    ensures forall k :: k != id ==> (k in RemoveFirst(queue, id) <==> k in queue)
  {
    if queue != [] && queue[0] != id {
      RemovedFromQueue(queue[1..], id);
    }
  }

  /** A session that ends leaves nothing behind but bytes above the checkpoint; the others wait as before. */
  lemma DisconnectForgets(s: State, id: Id, initial: seq<byte>)
    requires Inv(s, initial) && id in s.sessions
    ensures var t := Cleanup(s, id);
            && id !in t.sessions && id !in t.lockWaiters && t.sessions == s.sessions - {id} && Log(t) == Log(s)
            && (forall k :: k != id ==> (k in t.lockWaiters <==> k in s.lockWaiters))
            && (s.sessions[id].locking && s.lockWaiters != [] ==> t.woken == Some(s.lockWaiters[0]))
            && (s.sessions[id].locking && s.lockWaiters == [] ==> !t.locked)
    ensures Enabled(s, Disconnect(id)) ==> Step(s, Disconnect(id)) == Cleanup(s, id)
  {
    RemovedFromQueue(s.lockWaiters, id);
  }

  /** Nothing was sent yet, and what will be is the log from where the client stands, if it asked for data; otherwise nothing. */
  predicate WillSend(x: Session, sendData: bool, from: nat, until: nat) {
    && x.phase.Sending? && x.phase.sent == [] && x.phase.until == until
    && x.phase.first == (if sendData && from < until then from else until)
  }

  /** How a pull goes on once it need not wait for news: ended, queued, or sending; `end` is what it is sent up to. */
  ghost predicate ProceedsTo(s: State, t: State, id: Id, lockBefore: bool, sendData: bool, from: nat, end: nat)
    requires id in s.sessions
  {
    if lockBefore && s.sessions[id].locking then id !in t.sessions
    else
      && id in t.sessions
      && if lockBefore && s.locked
         then t.sessions[id].phase == LockWaiting(sendData, from) && t.lockWaiters == s.lockWaiters + [id]
         else
           && WillSend(t.sessions[id], sendData, from, end) && t.lockWaiters == s.lockWaiters
           && t.sessions[id].locking == (lockBefore || s.sessions[id].locking)
  }

  /** The session that resumes is the front of the queue; it alone has the lock, and is sent what it asked for, up to the end of the log. */
  lemma ResumeIsFront(s: State, id: Id, initial: seq<byte>)
    requires Inv(s, initial) && Enabled(s, Resume(id))
    ensures var t, p := Step(s, Resume(id)), s.sessions[id].phase;
            && s.lockWaiters[0] == id && t.lockWaiters == s.lockWaiters[1..] && t.woken == None
            && (forall k <- t.sessions :: t.sessions[k].locking <==> k == id)
            && id in t.sessions && WillSend(t.sessions[id], p.sendData, p.from, t.checkpoint)
            && s.checkpoint <= t.checkpoint <= |Log(s)| && (s.writable ==> t.checkpoint == |Log(s)|) && Log(t) == Log(s)
  {
    assert NobodyLocks(s);
  }

  /** A pull that wants the lock gets it if nobody has it, and is queued last otherwise; without queueing it is sent what it asked for. */
  lemma PullLocksOrQueues(s: State, id: Id, lockBefore: bool, sendData: bool, from: nat)
    requires JournalInv(s) && id in s.sessions
    ensures var t := PullNow(s, id, lockBefore, sendData, from);
            && ProceedsTo(s, t, id, lockBefore, sendData, from, t.checkpoint)
            && s.checkpoint <= t.checkpoint <= |Log(s)| && Log(t) == Log(s)
            && (lockBefore && s.writable && !s.locked && !s.sessions[id].locking ==> t.checkpoint == |Log(s)|)
  {
  }

  /** The code of a push request: read-only, conflict, or what the client is told if the push succeeds. */
  function AnswerCode(s: State, begin: int, unlockAfter: bool): char {
    if !s.writable then 'R' else if begin != |Log(s)| then 'C' else if unlockAfter then 'O' else 'N'
  }

  /** A non-empty push may write if and only if it starts at the end of the log and nobody else has the lock. */
  lemma PushStartsAtCheckpoint(s: State, id: Id, begin: int, end: int, unlockAfter: bool, initial: seq<byte>)
    requires Inv(s, initial) && Enabled(s, AskPush(id, begin, end, unlockAfter)) && begin < end
    ensures var t := Step(s, AskPush(id, begin, end, unlockAfter));
            && Log(t) == Log(s) && t.replies == s.replies
            && (s.locked && !s.sessions[id].locking ==> id !in t.sessions)
            && (!s.locked || s.sessions[id].locking ==>
                  && id in t.sessions && t.sessions[id].locking && t.sessions[id].phase == Receiving(begin, end, unlockAfter, [])
                  && (t.sessions[id].writer.Some? <==> s.writable && begin == |Log(s)|)
                  && t.sessions[id].status == AnswerCode(s, begin, unlockAfter))
  {
    assert SessionInv(s, s.sessions[id]);
  }

  /** An empty push is answered at once, and commits nothing; it may give the lock back. */
  lemma EmptyPushIsAnswered(s: State, id: Id, begin: int, end: int, unlockAfter: bool, initial: seq<byte>)
    requires Inv(s, initial) && Enabled(s, AskPush(id, begin, end, unlockAfter)) && end <= begin
    ensures var t := Step(s, AskPush(id, begin, end, unlockAfter));
            && Log(t) == Log(s)
            && if s.locked && !s.sessions[id].locking then id !in t.sessions && t.replies == s.replies
               else
                 && id in t.sessions && t.sessions[id].phase.Ready? && t.sessions[id].locking == !unlockAfter
                 && t.replies == s.replies + [Reply(id, begin, end, [], AnswerCode(s, begin, unlockAfter), false)]
                 && (unlockAfter ==> if s.lockWaiters == [] then !t.locked else t.woken == Some(s.lockWaiters[0]))
  {
    assert SessionInv(s, s.sessions[id]);
  }

  /** The reply to a push that has been received whole. */
  function Answer(id: Id, x: Session, payload: seq<byte>): Reply
    requires x.phase.Receiving?
  {
    Reply(id, x.phase.begin, x.phase.end, payload, x.status, x.writer.Some?)
  }

  /**
   A chunk leaves the log alone unless it completes the push; then the log grows by the whole
   payload if the push still has its writer, and by nothing if it does not, the client is told
   which, and the lock is given back if that was asked for.
   */
  lemma ChunkCommitsAllOrNothing(s: State, id: Id, bytes: seq<byte>, initial: seq<byte>)
    requires Inv(s, initial) && Enabled(s, Chunk(id, bytes))
    ensures var x, t := s.sessions[id], Step(s, Chunk(id, bytes));
            var payload := x.phase.received + bytes;
            && id in t.sessions
            && if |payload| < x.phase.end - x.phase.begin
               then
                 && t.sessions[id].phase == x.phase.(received := payload) && t.sessions[id].locking == x.locking
                 && t.commits == s.commits && t.replies == s.replies && Log(t) == Log(s)
               else
                 && t.sessions[id].phase.Ready? && t.sessions[id].locking == (x.locking && !x.phase.unlockAfter)
                 && (x.phase.unlockAfter ==> HandedOver(s, t, id))
                 && t.replies == s.replies + [Answer(id, x, payload)]
                 && Log(t) == if x.writer.Some? then Log(s) + payload else Log(s)
  {
    assert SessionInv(s, s.sessions[id]);
    var u := Received(s, id, bytes);
    if |u.sessions[id].phase.received| < u.sessions[id].phase.end - u.sessions[id].phase.begin {
    } else {
      ChunkCompletes(s, id, bytes, initial);
    }
    ChunkCommits(s, id, bytes);
    ChunkLog(s, id, bytes, initial);
  }

  lemma ChunkCompletes(s: State, id: Id, bytes: seq<byte>, initial: seq<byte>)
    requires Inv(s, initial) && Enabled(s, Chunk(id, bytes))
    requires |s.sessions[id].phase.received + bytes| >= s.sessions[id].phase.end - s.sessions[id].phase.begin
    ensures var x, t := s.sessions[id], PushChunk(s, id, bytes);
            && id in t.sessions && t.sessions[id].phase.Ready? && t.sessions[id].locking == (x.locking && !x.phase.unlockAfter)
            && (x.phase.unlockAfter ==> HandedOver(s, t, id))
            && t.replies == s.replies + [Answer(id, x, x.phase.received + bytes)]
  {
    assert SessionInv(s, s.sessions[id]);
  }

  lemma ChunkLog(s: State, id: Id, bytes: seq<byte>, initial: seq<byte>)
    requires Inv(s, initial) && Enabled(s, Chunk(id, bytes))
    ensures var t := PushChunk(s, id, bytes);
            && (t.commits == s.commits ==> Log(t) == Log(s))
            && (t.commits == s.commits + [s.sessions[id].phase.received + bytes] ==> Log(t) == Log(s) + (s.sessions[id].phase.received + bytes))
  {
    PushChunkInv(s, id, bytes, initial);
    LogFrom(s, PushChunk(s, id, bytes), s.sessions[id].phase.received + bytes, initial);
  }

  lemma LogFrom(s: State, t: State, payload: seq<byte>, initial: seq<byte>)
    requires LogInv(s, initial) && LogInv(t, initial)
    ensures t.commits == s.commits ==> Log(t) == Log(s)
    ensures t.commits == s.commits + [payload] ==> Log(t) == Log(s) + payload
  {
    FlattenAppend(s.commits, payload);
    assert initial + (Flatten(s.commits) + payload) == (initial + Flatten(s.commits)) + payload;
  }

  lemma ChunkCommits(s: State, id: Id, bytes: seq<byte>)
    requires Enabled(s, Chunk(id, bytes)) && JournalInv(s) && SessionInv(s, s.sessions[id])
    ensures var x, t := s.sessions[id], PushChunk(s, id, bytes);
            var payload := x.phase.received + bytes;
            t.commits == if |payload| >= x.phase.end - x.phase.begin && x.writer.Some? then s.commits + [payload] else s.commits
  {
    var u := Received(s, id, bytes);
    if u.sessions[id].phase.end - u.sessions[id].phase.begin <= |u.sessions[id].phase.received| {
      FinishExplained(u, id);
    }
  }

  // ---------- the rest ----------

  /** A session starts with nothing: no lock, no push, no pull. */
  lemma ConnectStartsClean(s: State, id: Id, initial: seq<byte>)
    requires Inv(s, initial) && Enabled(s, Connect(id))
    ensures var t := Step(s, Connect(id));
            && id in t.sessions && t.sessions[id].phase.Ready? && !t.sessions[id].locking && t.sessions[id].writer.None?
            && t.sessions - {id} == s.sessions && Log(t) == Log(s)
  {
  }

  lemma LogSlice(s: State, a: nat, b: nat)
    requires a <= b <= s.fileCheckpoint <= |s.file|
    ensures Log(s)[a..b] == s.file[a..b]
  {
    assert Log(s) == s.file[..s.fileCheckpoint];
  }

  /** Sending goes on where it stopped, with the next bytes of the log. */
  lemma SendAdvances(s: State, id: Id, n: nat, initial: seq<byte>)
    requires Inv(s, initial) && Enabled(s, Send(id, n))
    ensures var p, t := s.sessions[id].phase, Step(s, Send(id, n));
            var at := p.first + |p.sent|;
            && at + n <= |Log(s)| && id in t.sessions
            && t.sessions[id] == s.sessions[id].(phase := p.(sent := p.sent + Log(s)[at..at + n])) && Log(t) == Log(s)
  {
    assert SessionInv(s, s.sessions[id]);
    var at := s.sessions[id].phase.first + |s.sessions[id].phase.sent|;
    LogSlice(s, at, at + n);
  }

  // ---------- the lock between the server and other processes ----------

  /** A server that shares its file keeps the file's lock only while a session has the server's. */
  predicate LetsOthersIn(s: State) {
    s.shared && s.clientLock ==> s.locked
  }

  lemma FinishLetsIn(s: State, id: Id)
    requires id in s.sessions && s.sessions[id].phase.Receiving? && s.locked
    ensures LetsOthersIn(PushFinish(s, id))
  {
  }

  lemma StepLetsIn(s: State, a: Action, initial: seq<byte>)
    requires Inv(s, initial) && LetsOthersIn(s) && Enabled(s, a)
    ensures LetsOthersIn(Step(s, a))
  {
    match a
    case Chunk(id, bytes) => ChunkLetsIn(s, id, bytes, initial);
    case AskPush(id, begin, end, unlockAfter) => RequestLetsIn(s, id, begin, end, unlockAfter);
    case AskPull(_, _, _, _, _) => PullLetsIn(s, a);
    case EndPullWait(_) => PullLetsIn(s, a);
    case Resume(_) => PullLetsIn(s, a);
    case _ =>
  }

  lemma PullLetsIn(s: State, a: Action)
    requires LetsOthersIn(s) && Enabled(s, a) && (a.AskPull? || a.EndPullWait? || a.Resume?)
    ensures LetsOthersIn(Step(s, a))
  {
  }

  lemma RequestLetsIn(s: State, id: Id, begin: int, end: int, unlockAfter: bool)
    requires LetsOthersIn(s) && id in s.sessions
    ensures LetsOthersIn(PushRequest(s, id, begin, end, unlockAfter))
  {
  }

  lemma ChunkLetsIn(s: State, id: Id, bytes: seq<byte>, initial: seq<byte>)
    requires Inv(s, initial) && LetsOthersIn(s) && Enabled(s, Chunk(id, bytes))
    ensures LetsOthersIn(PushChunk(s, id, bytes))
  {
    var u := Received(s, id, bytes);
    if u.locked {
      FinishLetsIn(u, id);
    }
  }

  /** In every run, whenever no session has the lock of a shared file, other processes can write to it. */
  lemma {:induction false} IdleServerLetsOthersIn(states: seq<State>, actions: seq<Action>, i: nat)
    requires Run(states, actions) && i <= |actions|
    ensures LetsOthersIn(states[i])
    ensures states[i].shared && NobodyLocks(states[i]) && states[i].lockWaiters == [] ==> !states[i].clientLock
  {
    RunInv(states, actions, i);
    if i > 0 {
      RunInv(states, actions, i - 1);
      IdleServerLetsOthersIn(states, actions, i - 1);
      StepLetsIn(states[i - 1], actions[i - 1], states[0].file[..states[0].fileCheckpoint]);
    }
  }
}
