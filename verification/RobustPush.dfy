/**
 A client that retries a push until it is answered, over a connection that may break. Whatever the
 server saw of the attempts, the payload is in the log at most once, because a committed push moves
 the checkpoint away from where every retry starts.
 */
module RobustPush {
  import opened Bytes
  import opened Server

  /** Two committed pushes never start at the same position: a payload is appended at most once. */
  lemma CommitsNeverOverlap(states: seq<State>, actions: seq<Action>, i: nat, a: nat, b: nat)
    requires Run(states, actions) && i <= |actions|
    requires a < |states[i].replies| && b < |states[i].replies|
    requires states[i].replies[a].committed && states[i].replies[b].committed
    requires states[i].replies[a].begin == states[i].replies[b].begin
    ensures a == b
  {
    RunInv(states, actions, i);
    assert ReplyInv(states[i], states[i].replies[a]) && ReplyInv(states[i], states[i].replies[b]);
  }

  /** A reply, once given, stays given. */
  lemma RepliesOnlyGrow(states: seq<State>, actions: seq<Action>, i: nat, j: nat)
    requires Run(states, actions) && i <= j <= |actions|
    ensures states[i].replies <= states[j].replies
  {
    var chain := seq(|states|, k requires 0 <= k < |states| => states[k].replies);
    forall k | 0 < k < |states|
      ensures chain[k - 1] <= chain[k]
    {
      StepExplained(states[k - 1], actions[k - 1]);
    }
    PrefixChain(chain, i, j);
  }

  /** What the server does with a push request that starts below the checkpoint stored in the file. */
  ghost predicate Rejected(s: State, t: State, id: Id, begin: int, end: int) {
    || id !in t.sessions
    || (end <= begin && |t.replies| == |s.replies| + 1 && t.replies[|s.replies|].id == id && t.replies[|s.replies|].status == 'C')
    || (t.sessions[id].phase.Receiving? && t.sessions[id].status == 'C' && t.sessions[id].writer.None?)
  }

  lemma LatePushIsRejected(s: State, id: Id, begin: int, end: int, unlockAfter: bool, initial: seq<byte>)
    requires Inv(s, initial) && s.writable && Enabled(s, AskPush(id, begin, end, unlockAfter)) && begin < s.fileCheckpoint
    ensures Rejected(s, Step(s, AskPush(id, begin, end, unlockAfter)), id, begin, end)
  {
    if s.locked && !s.sessions[id].locking {
    } else {
      var t := if s.locked then s else Acquire(s, id);
      assert SessionInv(s, s.sessions[id]);
      assert t.sessions[id].locking && t.clientLock && t.checkpoint == s.fileCheckpoint;
      assert begin != t.checkpoint;
      if end <= begin {
        FinishExplained(Set(t, id, t.sessions[id].(status := 'C', writer := None,
                                                   phase := Receiving(begin, end, unlockAfter, []))), id);
      }
    }
  }

  /** A retry that the server receives after it committed the push meets the conflict. */
  lemma RetryMeetsConflict(states: seq<State>, actions: seq<Action>, i: nat, j: nat, r: Reply, id: Id, end: int, unlockAfter: bool)
    requires Run(states, actions) && i <= j < |actions| && states[j].writable
    requires r in states[i].replies && r.committed
    requires actions[j] == AskPush(id, r.begin, end, unlockAfter)
    ensures Rejected(states[j], states[j + 1], id, r.begin, end)
  {
    RepliesOnlyGrow(states, actions, i, j);
    RunInv(states, actions, j);
    assert r in states[j].replies && ReplyInv(states[j], r);
    LatePushIsRejected(states[j], id, r.begin, end, unlockAfter, states[0].file[..states[0].fileCheckpoint]);
  }

  predicate Untouched(s: State, t: State, id: Id) {
    id in s.sessions && id in t.sessions && t.sessions[id] == s.sessions[id]
  }

  lemma FinishUntouched(s: State, k: Id, id: Id)
    requires k in s.sessions && s.sessions[k].phase.Receiving? && id in s.sessions && k != id
    ensures Untouched(s, PushFinish(s, k), id)
  {
  }

  lemma PushUntouched(s: State, k: Id, begin: int, end: int, unlockAfter: bool, id: Id)
    requires k in s.sessions && id in s.sessions && k != id
    ensures Untouched(s, PushRequest(s, k, begin, end, unlockAfter), id)
  {
    if !(s.locked && !s.sessions[k].locking) && end <= begin {
      var t := if s.locked then s else Acquire(s, k);
      var conflict := !t.sessions[k].locking || begin != t.checkpoint;
      var status := if !t.writable then 'R' else if conflict then 'C' else if unlockAfter then 'O' else 'N';
      var writer := if t.writable && !conflict && t.clientLock then Some(t.checkpoint) else None;
      FinishUntouched(Set(t, k, t.sessions[k].(status := status, writer := writer,
                                               phase := Receiving(begin, end, unlockAfter, []))), k, id);
    }
  }

  lemma ChunkUntouched(s: State, k: Id, bytes: seq<byte>, id: Id)
    requires Enabled(s, Chunk(k, bytes)) && id in s.sessions && k != id
    ensures Untouched(s, PushChunk(s, k, bytes), id)
  {
    var u := Received(s, k, bytes);
    var phase := u.sessions[k].phase;
    if phase.end - phase.begin <= |phase.received| {
      FinishUntouched(u, k, id);
    }
  }

  lemma PullUntouched(s: State, k: Id, lockBefore: bool, sendData: bool, from: nat, id: Id)
    requires k in s.sessions && id in s.sessions && k != id
    ensures Untouched(s, PullNow(s, k, lockBefore, sendData, from), id)
  {
  }

  /** An action of one session changes no other session. */
  lemma OthersUntouched(s: State, a: Action, id: Id)
    requires Enabled(s, a) && id in s.sessions && !a.OtherProcess? && a.id != id
    ensures Untouched(s, Step(s, a), id)
  {
    if a.AskPush? {
      PushUntouched(s, a.id, a.begin, a.end, a.unlockAfter, id);
    } else if a.Chunk? {
      ChunkUntouched(s, a.id, a.bytes, id);
    } else if a.AskPull? || a.EndPullWait? {
      PullsUntouched(s, a, id);
    } else {
      RestUntouched(s, a, id);
    }
  }

  lemma RestUntouched(s: State, a: Action, id: Id)
    requires !a.AskPush? && !a.Chunk? && !a.AskPull? && !a.EndPullWait? && !a.OtherProcess?
    requires Enabled(s, a) && id in s.sessions && a.id != id
    ensures Untouched(s, Step(s, a), id)
  {
  }

  lemma PullsUntouched(s: State, a: Action, id: Id)
    requires (a.AskPull? || a.EndPullWait?) && Enabled(s, a) && id in s.sessions && a.id != id
    ensures Untouched(s, Step(s, a), id)
  {
    if a.AskPull? {
      PullUntouched(if s.clientLock then s else s.(checkpoint := s.fileCheckpoint), a.id, a.lockBefore, a.sendData, a.from, id);
    } else {
      var p := s.sessions[a.id].phase;
      PullUntouched(Set(s, a.id, s.sessions[a.id].(phase := Ready)), a.id, p.lockBefore, p.sendData, p.from, id);
    }
  }

  // ---------- from the request to its answer ----------

  /** The session is receiving a push. */
  predicate Serving(s: State, id: Id) {
    id in s.sessions && s.sessions[id].phase.Receiving?
  }

  /**
   The push requested by action `a` is answered by `r` in step `b`: its session is served all the
   while, and step `b` is the chunk that completes it. A push may never be answered.
   */
  ghost predicate Answered(states: seq<State>, actions: seq<Action>, a: nat, b: nat, r: Reply) {
    && |states| == |actions| + 1 && a < b < |actions| && actions[a].AskPush?
    && (forall k :: a < k <= b ==> Serving(states[k], actions[a].id))
    && actions[b].Chunk? && actions[b].id == actions[a].id && states[b + 1].replies == states[b].replies + [r]
  }

  /** While a push is served, what it asked for does not change, and a writer that is lost is not given back. */
  lemma ServingKept(s: State, a: Action, id: Id)
    requires Enabled(s, a) && Serving(s, id) && Serving(Step(s, a), id)
    ensures var x, y := s.sessions[id], Step(s, a).sessions[id];
            && y.phase.begin == x.phase.begin && y.phase.end == x.phase.end
            && (x.writer.None? ==> y.writer.None? && y.status == x.status)
  {
    if a.OtherProcess? {
    } else if a.id != id {
      OthersUntouched(s, a, id);
    } else if a.Chunk? {
      ChunkOfServed(s, id, a.bytes);
    }
  }

  lemma ChunkOfServed(s: State, id: Id, bytes: seq<byte>)
    requires Enabled(s, Chunk(id, bytes))
    ensures var x, t := s.sessions[id], PushChunk(s, id, bytes);
            if Serving(t, id) then
              && t.sessions[id].phase.begin == x.phase.begin && t.sessions[id].phase.end == x.phase.end
              && (x.writer.None? ==> t.sessions[id].writer.None? && t.sessions[id].status == x.status)
              && t.replies == s.replies
            else
              && |t.replies| == |s.replies| + 1 && t.replies == s.replies + [t.replies[|s.replies|]]
              && var r := t.replies[|s.replies|];
              && r.id == id && r.begin == x.phase.begin && r.end == x.phase.end && r.status == x.status
              && (x.writer.None? ==> !r.committed)
  {
    var u := Received(s, id, bytes);
    var phase := u.sessions[id].phase;
    if phase.end - phase.begin <= |phase.received| {
      FinishExplained(u, id);
      FinishLeaves(u, id);
    }
  }

  lemma FinishLeaves(s: State, id: Id)
    requires Serving(s, id)
    ensures !Serving(PushFinish(s, id), id)
    ensures var r := Reply(id, s.sessions[id].phase.begin, s.sessions[id].phase.end, s.sessions[id].phase.received,
                           s.sessions[id].status, WillCommit(s, s.sessions[id]));
            PushFinish(s, id).replies == s.replies + [r]
  {
  }

  /** What stays of a push while it is served: what it asked for, and that its writer is lost. */
  datatype Push = Push(begin: int, end: int, writer: bool, status: char)

  function PushOf(s: State, id: Id): Push
    requires Serving(s, id)
  {
    var x := s.sessions[id];
    Push(x.phase.begin, x.phase.end, x.writer.Some?, x.status)
  }

  predicate Follows(x: Push, y: Push) {
    y.begin == x.begin && y.end == x.end && (!x.writer ==> !y.writer && y.status == x.status)
  }

  /** The push that is served before step `k` is still served after it. */
  predicate Goes(states: seq<State>, k: nat, id: Id) {
    && 0 < k < |states| && Serving(states[k - 1], id) && Serving(states[k], id)
    && Follows(PushOf(states[k - 1], id), PushOf(states[k], id))
  }

  lemma NextFollows(states: seq<State>, actions: seq<Action>, k: nat, id: Id)
    requires Run(states, actions) && 0 < k <= |actions| && Serving(states[k - 1], id) && Serving(states[k], id)
    ensures Goes(states, k, id)
  {
    ServingKept(states[k - 1], actions[k - 1], id);
  }

  /** While a push is served it stays the same push. */
  lemma ServedThroughout(states: seq<State>, actions: seq<Action>, id: Id, i: nat, j: nat)
    requires Run(states, actions) && i <= j <= |actions|
    requires forall m :: i <= m <= j ==> Serving(states[m], id)
    ensures Serving(states[i], id) && Serving(states[j], id) && Follows(PushOf(states[i], id), PushOf(states[j], id))
  {
    forall k | i < k <= j ensures Goes(states, k, id) {
      assert Serving(states[k - 1], id) && Serving(states[k], id);
      NextFollows(states, actions, k, id);
    }
    GoesOn(states, id, i, j);
  }

  lemma {:induction false} GoesOn(states: seq<State>, id: Id, i: nat, j: nat)
    requires i <= j < |states| && Serving(states[i], id) && forall k :: i < k <= j ==> Goes(states, k, id)
    ensures Serving(states[j], id) && Follows(PushOf(states[i], id), PushOf(states[j], id))
  {
    if i < j {
      GoesOn(states, id, i, j - 1);
      assert Goes(states, j, id);
    }
  }

  lemma RequestServed(s: State, ask: Action)
    requires Enabled(s, ask) && ask.AskPush? && ask.begin < ask.end && Serving(Step(s, ask), ask.id)
    ensures var x := Step(s, ask).sessions[ask.id]; x.phase.begin == ask.begin && x.phase.end == ask.end
  {
  }

  /** The answer to a non-empty push is about that push. */
  lemma AnswerIsOfRequest(states: seq<State>, actions: seq<Action>, a: nat, b: nat, r: Reply)
    requires Run(states, actions) && Answered(states, actions, a, b, r) && actions[a].begin < actions[a].end
    ensures r.begin == actions[a].begin && r.end == actions[a].end && r in states[b + 1].replies
    ensures var y := states[a + 1].sessions[actions[a].id];
            y.writer.None? ==> r.status == y.status && !r.committed
    ensures r.committed ==> states[b].sessions[actions[a].id].writer.Some?
  {
    var id := actions[a].id;
    ServedThroughout(states, actions, id, a + 1, b);
    assert states[a + 1] == Step(states[a], actions[a]);
    RequestServed(states[a], actions[a]);
    assert states[b + 1] == Step(states[b], actions[b]);
    ChunkOfServed(states[b], id, actions[b].bytes);
    assert states[b + 1].replies[|states[b].replies|] == r;
  }

  lemma FinishWritable(s: State, id: Id)
    requires Serving(s, id)
    ensures PushFinish(s, id).writable == s.writable
  {
  }

  lemma ChunkWritable(s: State, id: Id, bytes: seq<byte>)
    requires Enabled(s, Chunk(id, bytes))
    ensures PushChunk(s, id, bytes).writable == s.writable
  {
    FinishWritable(Received(s, id, bytes), id);
  }

  lemma PushWritable(s: State, id: Id, begin: int, end: int, unlockAfter: bool)
    requires id in s.sessions
    ensures PushRequest(s, id, begin, end, unlockAfter).writable == s.writable
  {
    if !(s.locked && !s.sessions[id].locking) && end <= begin {
      var t := if s.locked then s else Acquire(s, id);
      var conflict := !t.sessions[id].locking || begin != t.checkpoint;
      var status := if !t.writable then 'R' else if conflict then 'C' else if unlockAfter then 'O' else 'N';
      var writer := if t.writable && !conflict && t.clientLock then Some(t.checkpoint) else None;
      FinishWritable(Set(t, id, t.sessions[id].(status := status, writer := writer,
                                                phase := Receiving(begin, end, unlockAfter, []))), id);
    }
  }

  lemma PullWritable(s: State, id: Id, lockBefore: bool, sendData: bool, from: nat)
    requires id in s.sessions
    ensures PullNow(s, id, lockBefore, sendData, from).writable == s.writable
  {
  }

  lemma WritableKept(s: State, a: Action)
    requires Enabled(s, a)
    ensures Step(s, a).writable == s.writable
  {
    match a {
      case AskPush(id, begin, end, unlockAfter) => PushWritable(s, id, begin, end, unlockAfter);
      case Chunk(id, bytes) => ChunkWritable(s, id, bytes);
      case AskPull(id, lockBefore, sendData, from, wait) =>
        PullWritable(if s.clientLock then s else s.(checkpoint := s.fileCheckpoint), id, lockBefore, sendData, from);
      case EndPullWait(id) =>
        var p := s.sessions[id].phase;
        PullWritable(Set(s, id, s.sessions[id].(phase := Ready)), id, p.lockBefore, p.sendData, p.from);
      case _ =>
    }
  }

  lemma WritableStays(states: seq<State>, actions: seq<Action>, i: nat, j: nat)
    requires Run(states, actions) && i <= j <= |actions|
    ensures states[i].writable == states[j].writable
  {
    var chain := seq(|states|, k requires 0 <= k < |states| => states[k].writable);
    forall k | 0 < k < |chain| ensures chain[k - 1] == chain[k] {
      WritableNext(states, actions, k - 1);
    }
    SameChain(chain, i, j);
  }

  lemma {:induction false} SameChain(chain: seq<bool>, i: nat, j: nat)
    requires i <= j < |chain| && forall k :: 0 < k < |chain| ==> chain[k - 1] == chain[k]
    ensures chain[i] == chain[j]
  {
    if i < j {
      SameChain(chain, i, j - 1);
    }
  }

  lemma WritableNext(states: seq<State>, actions: seq<Action>, k: nat)
    requires Run(states, actions) && k < |actions|
    ensures states[k + 1].writable == states[k].writable
  {
    WritableKept(states[k], actions[k]);
  }

  /** A push that is requested after one from the same position was committed is answered with the conflict, or not at all. */
  lemma ConflictIsAnswered(states: seq<State>, actions: seq<Action>, a: nat, b: nat, r: Reply, done: Reply)
    requires Run(states, actions) && Answered(states, actions, a, b, r) && actions[a].begin < actions[a].end
    requires done in states[a].replies && done.committed && done.begin == actions[a].begin && states[a].writable
    ensures r.status == 'C' && !r.committed
  {
    var ask := actions[a];
    RetryMeetsConflict(states, actions, a, a, done, ask.id, ask.end, ask.unlockAfter);
    AnswerIsOfRequest(states, actions, a, b, r);
  }

  /** A push that will be committed holds the lock while it is served, so that no other push gets through. */
  lemma CommittingPushLocks(states: seq<State>, actions: seq<Action>, a: nat, b: nat, r: Reply, k: nat)
    requires Run(states, actions) && Answered(states, actions, a, b, r) && r.committed && actions[a].begin < actions[a].end && a < k <= b
    ensures states[k].locked && states[k].writable && states[k].sessions[actions[a].id].locking
  {
    AnswerIsOfRequest(states, actions, a, b, r);
    ServedThroughout(states, actions, actions[a].id, k, b);
    RunInv(states, actions, k);
    var x := states[k].sessions[actions[a].id];
    assert SessionInv(states[k], x);
    assert !NobodyLocks(states[k]);
  }

  lemma LockedOut(s: State, ask: Action, other: Id)
    requires Enabled(s, ask) && ask.AskPush? && OneLocks(s) && s.locked && Serving(s, other) && s.sessions[other].locking
    ensures !Serving(Step(s, ask), ask.id)
  {
    assert ask.id != other;
    assert !s.sessions[ask.id].locking;
  }

  lemma SecondIsLockedOut(states: seq<State>, actions: seq<Action>, a: nat, b: nat, r: Reply, c: nat)
    requires Run(states, actions) && a < c <= b && Answered(states, actions, a, b, r) && r.committed
    requires actions[a].begin < actions[a].end && actions[c].AskPush?
    ensures !Serving(states[c + 1], actions[c].id)
  {
    CommittingPushLocks(states, actions, a, b, r, c);
    RunInv(states, actions, c);
    assert states[c + 1] == Step(states[c], actions[c]);
    LockedOut(states[c], actions[c], actions[a].id);
  }

  /**
   Of two requests for a non-empty push from the same position, when the first is committed the
   second is answered with the conflict, or not at all.
   */
  lemma SecondRequestIsRejected
    (states: seq<State>, actions: seq<Action>, a: nat, b: nat, r: Reply, c: nat, d: nat, q: Reply)
    requires Run(states, actions) && a < c && Answered(states, actions, a, b, r) && Answered(states, actions, c, d, q)
    requires actions[a].begin == actions[c].begin < actions[a].end && actions[c].begin < actions[c].end && r.committed
    ensures q.status == 'C' && !q.committed
  {
    AnswerIsOfRequest(states, actions, a, b, r);
    if c <= b {
      SecondIsLockedOut(states, actions, a, b, r, c);
    } else {
      CommittingPushLocks(states, actions, a, b, r, b);
      WritableStays(states, actions, b, c);
      RepliesOnlyGrow(states, actions, b + 1, c);
      ConflictIsAnswered(states, actions, c, d, q, r);
    }
  }

  // ---------- the retrying client ----------

  datatype Outcome = Success | Stop | Retry

  /** One try: what the server replied, unless the reply was lost or never given, and how the reconnection after it went. */
  datatype Attempt = Attempt(reply: Option<Reply>, newCheckpoint: int, contentMatches: bool)

  /** What `Server_Connection::push` makes of the reply: a conflict ends the retrying, a time out does not. */
  function Seen(a: Attempt, code: char): Outcome {
    if a.reply.None? then Retry
    else if a.reply.value.status == 'R' || a.reply.value.status == 'C' then Stop
    else if a.reply.value.status == 't' then Retry
    else if a.reply.value.status != code then Stop
    else Success
  }

  predicate Reconnects(a: Attempt, oldCheckpoint: int) {
    a.newCheckpoint >= oldCheckpoint && a.contentMatches
  }

  /** The server's checkpoint as the client knows it before attempt `k`: that of the last reconnection. */
  function KnownBefore(attempts: seq<Attempt>, k: nat, first: int): int
    requires k <= |attempts|
  {
    if k == 0 then first else attempts[k - 1].newCheckpoint
  }

  /** After attempt `k` the client met the same log again: nothing of it had been taken back or changed. */
  predicate GoesOnAfter(attempts: seq<Attempt>, k: nat, first: int)
    requires k < |attempts|
  {
    attempts[k].contentMatches && KnownBefore(attempts, k, first) <= attempts[k].newCheckpoint
  }

  /** How the loop may end: every attempt but the last was to be retried. */
  predicate Concludes(attempts: seq<Attempt>, code: char, outcome: Outcome, tried: nat) {
    && tried <= |attempts|
    && (forall k :: 0 <= k < tried - 1 ==> Seen(attempts[k], code) == Retry)
    && (outcome == Success ==> tried > 0 && Seen(attempts[tried - 1], code) == Success)
    && (outcome == Stop ==> tried > 0 && Seen(attempts[tried - 1], code) != Success)
    && (outcome == Retry ==> tried == |attempts| && forall k :: 0 <= k < tried ==> Seen(attempts[k], code) == Retry)
  }

  class RobustConnection {
    var serverCheckpoint: int

    constructor (checkpoint: int)
      ensures serverCheckpoint == checkpoint
    {
      serverCheckpoint := checkpoint;
    }

    /**
     Try until an attempt succeeds or is refused for good. `attempts` is what the network and the
     server will do; the loop ends without an outcome only by running out of it.
     */
    method Push(attempts: seq<Attempt>, until: int, code: char) returns (outcome: Outcome, tried: nat)
      modifies this
      ensures Concludes(attempts, code, outcome, tried)
      ensures outcome == Success ==> serverCheckpoint == until
      ensures outcome == Stop ==>
                Seen(attempts[tried - 1], code) == Stop || !Reconnects(attempts[tried - 1], serverCheckpoint)
      ensures forall k :: 0 <= k < tried - 1 ==> GoesOnAfter(attempts, k, old(serverCheckpoint))
      ensures old(serverCheckpoint) <= until ==> old(serverCheckpoint) <= serverCheckpoint
    {
      tried := 0;
      while tried < |attempts|
        invariant 0 <= tried <= |attempts|
        invariant forall k :: 0 <= k < tried ==> Seen(attempts[k], code) == Retry
        invariant old(serverCheckpoint) <= serverCheckpoint
        invariant serverCheckpoint == KnownBefore(attempts, tried, old(serverCheckpoint))
        invariant forall k :: 0 <= k < tried ==> GoesOnAfter(attempts, k, old(serverCheckpoint))
      {
        var a := attempts[tried];
        tried := tried + 1;
        match Seen(a, code) {
          case Success =>
            serverCheckpoint := until;
            return Success, tried;
          case Stop =>
            return Stop, tried;
          case Retry =>
            if !Reconnects(a, serverCheckpoint) {
              return Stop, tried;
            }
            serverCheckpoint := a.newCheckpoint;
        }
      }
      return Retry, tried;
    }
  }

  /**
   The attempts of one push, in a run of the server: attempt `k` reached it as action `asks[k]`, or
   not at all; a reply that was received is the server's answer to that request. The server may
   never answer: the session may end, or be refused because another one is locking.
   */
  ghost predicate AttemptsOf
    (states: seq<State>, actions: seq<Action>, attempts: seq<Attempt>, asks: seq<Option<nat>>, begin: int, end: int)
  {
    && |asks| == |attempts|
    && (forall k :: 0 <= k < |asks| && asks[k].Some? ==> IsAsk(actions, asks[k].value, begin, end))
    && (forall k, m :: 0 <= k < m < |asks| && asks[k].Some? && asks[m].Some? ==> asks[k].value < asks[m].value)
    && (forall k :: 0 <= k < |asks| && attempts[k].reply.Some? ==>
          asks[k].Some? && GotAnswer(states, actions, asks[k].value, attempts[k].reply.value))
  }

  predicate IsAsk(actions: seq<Action>, a: nat, begin: int, end: int) {
    a < |actions| && actions[a].AskPush? && actions[a].begin == begin && actions[a].end == end
  }

  ghost predicate GotAnswer(states: seq<State>, actions: seq<Action>, a: nat, r: Reply) {
    exists b: nat :: Answered(states, actions, a, b, r)
  }

  /** The server committed the push that attempt `k` asked for, whether or not the client heard of it. */
  ghost predicate Committed(states: seq<State>, actions: seq<Action>, asks: seq<Option<nat>>, k: nat) {
    k < |asks| && asks[k].Some? && exists r: Reply :: r.committed && GotAnswer(states, actions, asks[k].value, r)
  }

  /** A client sees a success only of an attempt that was committed. */
  lemma SuccessIsCommitted
    (states: seq<State>, actions: seq<Action>, attempts: seq<Attempt>, asks: seq<Option<nat>>, begin: int, end: int, code: char, m: nat)
    requires Run(states, actions) && begin < end && PushCode(code) && AttemptsOf(states, actions, attempts, asks, begin, end)
    requires m < |attempts| && Seen(attempts[m], code) == Success
    ensures Committed(states, actions, asks, m)
  {
    var r := attempts[m].reply.value;
    var a := asks[m].value;
    assert GotAnswer(states, actions, a, r) && IsAsk(actions, a, begin, end);
    var b: nat :| Answered(states, actions, a, b, r);
    AnswerIsOfRequest(states, actions, a, b, r);
    ReplyTellsCommit(states, actions, b + 1, r);
  }

  /**
   At most one attempt of a retried non-empty push is committed; and when one is, every later one
   that is answered at all meets the conflict, which ends the retrying.
   */
  lemma RetriedPushIsAppendedOnce
    (states: seq<State>, actions: seq<Action>, attempts: seq<Attempt>, asks: seq<Option<nat>>, begin: int, end: int, code: char,
     k: nat, m: nat)
    requires Run(states, actions) && begin < end && PushCode(code) && AttemptsOf(states, actions, attempts, asks, begin, end)
    requires k < m < |attempts| && Committed(states, actions, asks, k)
    ensures !Committed(states, actions, asks, m)
    ensures attempts[m].reply.Some? ==> attempts[m].reply.value.status == 'C' && Seen(attempts[m], code) == Stop
  {
    var a := asks[k].value;
    var r: Reply :| r.committed && GotAnswer(states, actions, a, r);
    var b: nat :| Answered(states, actions, a, b, r);
    assert IsAsk(actions, a, begin, end);
    if asks[m].Some? {
      var c := asks[m].value;
      assert IsAsk(actions, c, begin, end) && a < c;
      forall q: Reply | GotAnswer(states, actions, c, q) ensures q.status == 'C' && !q.committed {
        var d: nat :| Answered(states, actions, c, d, q);
        SecondRequestIsRejected(states, actions, a, b, r, c, d, q);
      }
    }
  }

  /**
   What the retrying loop does in any run of the server: it reports success only if its last
   attempt was committed, and that one only; and once an attempt was committed it ends at the next
   answer it gets, and not with a success.
   */
  lemma RobustPushIsExact
    (states: seq<State>, actions: seq<Action>, attempts: seq<Attempt>, asks: seq<Option<nat>>, begin: int, end: int, code: char,
     outcome: Outcome, tried: nat, k: nat)
    requires Run(states, actions) && begin < end && PushCode(code) && AttemptsOf(states, actions, attempts, asks, begin, end)
    requires Concludes(attempts, code, outcome, tried)
    ensures outcome == Success ==> Committed(states, actions, asks, tried - 1)
    ensures k < tried && Committed(states, actions, asks, k) ==>
              && (forall m :: 0 <= m < tried && m != k ==> !Committed(states, actions, asks, m))
              && (outcome == Success ==> k == tried - 1)
              && (forall m :: k < m < tried && attempts[m].reply.Some? ==> m == tried - 1 && Seen(attempts[m], code) == Stop)
  {
    if outcome == Success {
      SuccessIsCommitted(states, actions, attempts, asks, begin, end, code, tried - 1);
    }
    if k < tried && Committed(states, actions, asks, k) {
      OthersAreNot(states, actions, attempts, asks, begin, end, code, tried, k);
    }
  }

  lemma OthersAreNot
    (states: seq<State>, actions: seq<Action>, attempts: seq<Attempt>, asks: seq<Option<nat>>, begin: int, end: int, code: char,
     tried: nat, k: nat)
    requires Run(states, actions) && begin < end && PushCode(code) && AttemptsOf(states, actions, attempts, asks, begin, end)
    requires k < tried <= |attempts| && Committed(states, actions, asks, k)
    ensures forall m :: 0 <= m < tried && m != k ==> !Committed(states, actions, asks, m)
    ensures forall m :: k < m < tried && attempts[m].reply.Some? ==> Seen(attempts[m], code) == Stop
  {
    forall m: nat | m < tried && m != k
      ensures !Committed(states, actions, asks, m)
      ensures k < m && attempts[m].reply.Some? ==> Seen(attempts[m], code) == Stop
    {
      OtherAttempt(states, actions, attempts, asks, begin, end, code, k, m);
    }
  }

  lemma OtherAttempt
    (states: seq<State>, actions: seq<Action>, attempts: seq<Attempt>, asks: seq<Option<nat>>, begin: int, end: int, code: char,
     k: nat, m: nat)
    requires Run(states, actions) && begin < end && PushCode(code) && AttemptsOf(states, actions, attempts, asks, begin, end)
    requires k < |attempts| && m < |attempts| && m != k && Committed(states, actions, asks, k)
    ensures !Committed(states, actions, asks, m)
    ensures k < m && attempts[m].reply.Some? ==> Seen(attempts[m], code) == Stop
  {
    if k < m {
      RetriedPushIsAppendedOnce(states, actions, attempts, asks, begin, end, code, k, m);
    } else if Committed(states, actions, asks, m) {
      RetriedPushIsAppendedOnce(states, actions, attempts, asks, begin, end, code, m, k);
    }
  }
}
