/** What an answered push tells its client: which code comes back, why, and what the client makes of it. */
module PushAnswers {
  import opened Bytes
  import opened Server
  import opened RobustPush
  import opened ServerMeaning

  /** The session lost its push by holding the lock too long. */
  ghost predicate TimesOut(states: seq<State>, actions: seq<Action>, k: nat, id: Id) {
    k < |actions| && k < |states| && actions[k] == TimeoutFires(id) && Serving(states[k], id) && states[k].sessions[id].writer.Some?
  }

  lemma ChunkKeepsStatus(s: State, id: Id, bytes: seq<byte>)
    requires Enabled(s, Chunk(id, bytes)) && Serving(PushChunk(s, id, bytes), id)
    ensures var x, y := s.sessions[id], PushChunk(s, id, bytes).sessions[id];
            y.status == x.status && (y.writer.Some? <==> x.writer.Some?)
  {
    var u := Received(s, id, bytes);
    var phase := u.sessions[id].phase;
    if phase.end - phase.begin <= |phase.received| {
      FinishLeaves(u, id);
      assert false;
    }
  }

  /** While a push is served its code and its writer stay, unless a timeout takes the writer. */
  lemma ServedOrTimedOut(s: State, a: Action, id: Id)
    requires Enabled(s, a) && Serving(s, id) && Serving(Step(s, a), id)
    ensures var x, y := s.sessions[id], Step(s, a).sessions[id];
            if a == TimeoutFires(id) && x.writer.Some? then y.writer.None? && y.status == 't'
            else y.status == x.status && (y.writer.Some? <==> x.writer.Some?)
  {
    if a.OtherProcess? {
    } else if a.id != id {
      OthersUntouched(s, a, id);
    } else if a.Chunk? {
      ChunkKeepsStatus(s, id, a.bytes);
    }
  }

  /** What holds of a push from its request on: it has its first code, or has timed out. */
  ghost predicate StatusSince(states: seq<State>, actions: seq<Action>, i: nat, j: nat, id: Id)
    requires i <= j < |states| && |states| == |actions| + 1 && Serving(states[i], id) && Serving(states[j], id)
  {
    var x, y := states[i].sessions[id], states[j].sessions[id];
    || (y.status == x.status && (y.writer.Some? <==> x.writer.Some?))
    || (x.writer.Some? && y.writer.None? && y.status == 't' && exists k :: i <= k < j && TimesOut(states, actions, k, id))
  }

  lemma StatusNext(states: seq<State>, actions: seq<Action>, i: nat, j: nat, id: Id)
    requires Run(states, actions) && i <= j < |actions|
    requires Serving(states[i], id) && Serving(states[j], id) && Serving(states[j + 1], id) && StatusSince(states, actions, i, j, id)
    ensures StatusSince(states, actions, i, j + 1, id)
  {
    ServedOrTimedOut(states[j], actions[j], id);
    if actions[j] == TimeoutFires(id) && states[j].sessions[id].writer.Some? {
      assert TimesOut(states, actions, j, id);
    }
  }

  lemma StatusThroughout(states: seq<State>, actions: seq<Action>, i: nat, j: nat, id: Id)
    requires Run(states, actions) && i <= j <= |actions| && forall k :: i <= k <= j ==> Serving(states[k], id)
    ensures StatusSince(states, actions, i, j, id)
  {
    var k := i;
    while k < j
      invariant i <= k <= j && StatusSince(states, actions, i, k, id)
    {
      StatusNext(states, actions, i, k, id);
      k := k + 1;
    }
  }

  /** The session of an answered push timed out after the request. */
  ghost predicate TimedOut(states: seq<State>, actions: seq<Action>, a: nat, b: nat, id: Id) {
    exists k :: a < k < b && TimesOut(states, actions, k, id)
  }

  /**
   The answer to a non-empty push is the code that its request deserved: read-only, conflict, or
   success; only a push that deserved success may be answered with a timeout instead. It was
   committed if and only if it is answered with success.
   */
  lemma AnswerTells(states: seq<State>, actions: seq<Action>, a: nat, b: nat, r: Reply)
    requires Run(states, actions) && Answered(states, actions, a, b, r) && actions[a].begin < actions[a].end
    ensures var code := AnswerCode(states[a], actions[a].begin, actions[a].unlockAfter);
            r.status == code || (PushCode(code) && r.status == 't' && TimedOut(states, actions, a, b, actions[a].id))
    ensures r.committed <==> PushCode(r.status)
  {
    var ask, id := actions[a], actions[a].id;
    RunInv(states, actions, a);
    RunInv(states, actions, b);
    RequestCode(states, actions, a);
    StatusThroughout(states, actions, a + 1, b, id);
    AnswerCarriesStatus(states, actions, a, b, r);
    ReplyTellsCommit(states, actions, b + 1, r);
  }

  lemma RequestCode(states: seq<State>, actions: seq<Action>, a: nat)
    requires Run(states, actions) && a < |actions| && actions[a].AskPush? && actions[a].begin < actions[a].end
    requires Serving(states[a + 1], actions[a].id)
    ensures var x, code := states[a + 1].sessions[actions[a].id], AnswerCode(states[a], actions[a].begin, actions[a].unlockAfter);
            x.status == code && (x.writer.Some? <==> PushCode(code))
  {
    var q := actions[a];
    RunInv(states, actions, a);
    assert states[a + 1] == Step(states[a], q);
    PushStartsAtCheckpoint(states[a], q.id, q.begin, q.end, q.unlockAfter, states[0].file[..states[0].fileCheckpoint]);
  }

  lemma AnswerCarriesStatus(states: seq<State>, actions: seq<Action>, a: nat, b: nat, r: Reply)
    requires Run(states, actions) && Answered(states, actions, a, b, r) && actions[a].begin < actions[a].end
    ensures r.status == states[b].sessions[actions[a].id].status && r in states[b + 1].replies && r.begin < r.end
  {
    AnswerIsOfRequest(states, actions, a, b, r);
    assert states[b + 1] == Step(states[b], actions[b]);
    ChunkOfServed(states[b], actions[a].id, actions[b].bytes);
    assert states[b + 1].replies[|states[b].replies|] == r;
  }

  /**
   What a client that expects the right code makes of an answer: a success exactly if its push was
   committed, a retry exactly if it timed out, and an end exactly if the server cannot be written
   to or its log did not end where the push began.
   */
  lemma ClientUnderstands(states: seq<State>, actions: seq<Action>, a: nat, b: nat, attempt: Attempt)
    requires Run(states, actions) && attempt.reply.Some? && Answered(states, actions, a, b, attempt.reply.value)
    requires actions[a].begin < actions[a].end
    ensures var seen := Seen(attempt, if actions[a].unlockAfter then 'O' else 'N');
            && (seen == Success <==> attempt.reply.value.committed)
            && (seen == Stop <==> !states[a].writable || actions[a].begin != |Log(states[a])|)
            && (seen == Retry <==> attempt.reply.value.status == 't')
            && (seen == Retry ==> TimedOut(states, actions, a, b, actions[a].id))
  {
    AnswerTells(states, actions, a, b, attempt.reply.value);
  }
}
