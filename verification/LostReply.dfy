/**
 A run in which retrying matters: the server commits a push, its reply is lost, and the client
 comes back with the same push on a new connection, where it meets the conflict.
 */
module LostReply {
  import opened Bytes
  import opened Server
  import opened RobustPush

  const COMMITTED := Reply(0, 1, 2, [9], 'O', true)
  const CONFLICT := Reply(1, 1, 2, [9], 'C', false)

  /** A server that does not share its file, between two waits. */
  function Serves(file: seq<byte>, locked: bool, sessions: map<Id, Session>, commits: seq<seq<byte>>, replies: seq<Reply>): State {
    State(false, true, file, |file|, |file|, locked, [], None, true, sessions, commits, replies, [], [])
  }

  const START := Serves([7], false, map[], [], [])
  const CONNECTED := Serves([7], false, map[0 := Session(false, None, 'N', Ready)], [], [])
  const ASKED := Serves([7], true, map[0 := Session(true, Some(1), 'O', Receiving(1, 2, true, []))], [], [])
  const ANSWERED := Serves([7, 9], false, map[0 := Session(false, None, 'O', Ready)], [[9]], [COMMITTED])
  const LOST := Serves([7, 9], false, map[], [[9]], [COMMITTED])
  const RECONNECTED := Serves([7, 9], false, map[1 := Session(false, None, 'N', Ready)], [[9]], [COMMITTED])
  const RETRIED := Serves([7, 9], true, map[1 := Session(true, None, 'C', Receiving(1, 2, true, []))], [[9]], [COMMITTED])
  const REFUSED := Serves([7, 9], false, map[1 := Session(false, None, 'C', Ready)], [[9]], [COMMITTED, CONFLICT])

  const STATES := [START, CONNECTED, ASKED, ANSWERED, LOST, RECONNECTED, RETRIED, REFUSED]
  const ACTIONS :=
    [Connect(0), AskPush(0, 1, 2, true), Chunk(0, [9]), Disconnect(0), Connect(1), AskPush(1, 1, 2, true), Chunk(1, [9])]

  /** The client never hears of the first attempt, and of the second it hears the conflict. */
  const ATTEMPTS := [Attempt(None, 2, true), Attempt(Some(CONFLICT), 2, true)]
  const ASKS := [Some(1), Some(5)]

  lemma FirstAttempt()
    ensures Enabled(CONNECTED, ACTIONS[1]) && Step(CONNECTED, ACTIONS[1]) == ASKED
    ensures Enabled(ASKED, ACTIONS[2]) && Step(ASKED, ACTIONS[2]) == ANSWERED
  {
    assert Step(CONNECTED, ACTIONS[1]).sessions == ASKED.sessions;
    assert Overlay([7], 1, [9]) == [7, 9];
    var t, none: seq<byte> := Step(ASKED, ACTIONS[2]), [];
    assert none + [9] == [9];
    assert t.sessions == ANSWERED.sessions;
    assert t.replies == ANSWERED.replies && t.commits == ANSWERED.commits;
  }

  lemma Between()
    ensures Enabled(START, ACTIONS[0]) && Step(START, ACTIONS[0]) == CONNECTED
    ensures Enabled(ANSWERED, ACTIONS[3]) && Step(ANSWERED, ACTIONS[3]) == LOST
    ensures Enabled(LOST, ACTIONS[4]) && Step(LOST, ACTIONS[4]) == RECONNECTED
  {
    assert Step(ANSWERED, ACTIONS[3]).sessions == LOST.sessions;
  }

  lemma SecondAttempt()
    ensures Enabled(RECONNECTED, ACTIONS[5]) && Step(RECONNECTED, ACTIONS[5]) == RETRIED
    ensures Enabled(RETRIED, ACTIONS[6]) && Step(RETRIED, ACTIONS[6]) == REFUSED
  {
    assert Step(RECONNECTED, ACTIONS[5]).sessions == RETRIED.sessions;
    var t, none: seq<byte> := Step(RETRIED, ACTIONS[6]), [];
    assert none + [9] == [9];
    assert t.sessions == REFUSED.sessions;
    assert t.replies == REFUSED.replies;
  }

  lemma StoryIsRun()
    ensures Run(STATES, ACTIONS)
  {
    forall i | 0 <= i < |ACTIONS|
      ensures Enabled(STATES[i], ACTIONS[i]) && STATES[i + 1] == Step(STATES[i], ACTIONS[i])
    {
      if i == 1 || i == 2 {
        FirstAttempt();
      } else if i == 5 || i == 6 {
        SecondAttempt();
      } else {
        Between();
      }
    }
  }

  lemma BothAnswered()
    ensures GotAnswer(STATES, ACTIONS, 1, COMMITTED) && GotAnswer(STATES, ACTIONS, 5, CONFLICT)
  {
    assert Answered(STATES, ACTIONS, 1, 2, COMMITTED);
    assert Answered(STATES, ACTIONS, 5, 6, CONFLICT);
  }

  /** The push is in the log once, the client was told of a conflict, and it stops without a success. */
  lemma LostReplyEndsInConflict()
    ensures Run(STATES, ACTIONS) && AttemptsOf(STATES, ACTIONS, ATTEMPTS, ASKS, 1, 2)
    ensures Committed(STATES, ACTIONS, ASKS, 0) && !Committed(STATES, ACTIONS, ASKS, 1)
    ensures Concludes(ATTEMPTS, 'O', Stop, 2)
    ensures REFUSED.file == START.file + [9] && REFUSED.commits == [[9]]
  {
    StoryIsRun();
    BothAnswered();
    RetriedPushIsAppendedOnce(STATES, ACTIONS, ATTEMPTS, ASKS, 1, 2, 'O', 0, 1);
  }
}
