/**
 Clients replicating a server's journal, each in a file of its own: handshake with a full content
 check, pull, local transactions, push. The server is a journal reached through a connection that
 refuses a push which does not start at the server's checkpoint.
 */
module Replication {
  import opened Bytes
  import opened Files

  const HEADER: nat := 41

  datatype Journal = Journal(file: seq<byte>, checkpoint: nat) {
    predicate Valid() {
      HEADER <= checkpoint <= |file|
    }

    function Log(): (log: seq<byte>)
      requires Valid()
      ensures |log| == checkpoint
    {
      file[..checkpoint]
    }
  }

  datatype Client = Client(
    journal: Journal,
    connection: nat,      // connection_checkpoint: what the client knows of the server's checkpoint
    inTransaction: bool   // the client holds a lock and has pulled since it took it
  )

  /** `pull_from`: copy what is missing up to `until`, then checkpoint it. */
  function PulledFrom(destination: Journal, source: Journal, until: nat): Journal
    requires until <= |source.file|
  {
    if destination.checkpoint < until then
      Journal(Overlay(destination.file, destination.checkpoint, source.file[destination.checkpoint..until]), until)
    else destination
  }

  function Min(a: nat, b: nat): nat {
    if a < b then a else b
  }

  // ---------- the objects ----------

  datatype Failure = ContentMismatch | AheadOfConnection | Conflict

  class JournalObject {
    var file: seq<byte>
    var checkpoint: nat

    function Value(): Journal
      reads this
    {
      Journal(file, checkpoint)
    }

    constructor (j: Journal)
      ensures Value() == j
    {
      file, checkpoint := j.file, j.checkpoint;
    }

    /** What is missing is copied and checkpointed; if the source ends too early, some of it has been copied, and none is checkpointed. */
    method PullFrom(source: JournalObject, until: nat) returns (ok: bool)
      requires source != this
      modifies this
      ensures ok <==> until <= old(checkpoint) || until <= |source.file|
      ensures ok && until <= |source.file| ==> Value() == PulledFrom(old(Value()), source.Value(), until)
      ensures ok && until <= old(checkpoint) ==> Value() == old(Value())
      ensures !ok ==> checkpoint == old(checkpoint)
      ensures !ok ==> exists n: nat :: Copied(source.file, old(file), checkpoint, n, file)
    {
      ok := true;
      if checkpoint < until {
        var result, done;
        ok, result, done := CopyTo(source.file, file, checkpoint, until - checkpoint);
        file := result;
        if ok {
          checkpoint := until;
        }
      }
    }
  }

  class ClientObject {
    const journal: JournalObject
    const server: JournalObject
    var connection: nat

    ghost predicate Valid()
      reads this, journal, server
    {
      journal != server && journal.Value().Valid() && server.Value().Valid()
    }

    /** A client before its handshake: it knows the server's checkpoint. */
    constructor (j: JournalObject, s: JournalObject)
      requires j != s && j.Value().Valid() && s.Value().Valid()
      ensures Valid() && journal == j && server == s && connection == s.checkpoint
    {
      journal, server, connection := j, s, s.checkpoint;
    }

    /** The handshake compares everything both sides have. */
    method Handshake() returns (r: Option<Failure>)
      requires Valid()
      ensures r == None <==> SameRange(journal.file, server.file, HEADER, Min(server.checkpoint, journal.checkpoint))
    {
      var until := Min(server.checkpoint, journal.checkpoint);
      if HEADER >= until {
        return None;
      }
      var c := EqualTo(journal.file, server.file, HEADER, until);
      return if c == Same then None else Some(ContentMismatch);
    }

    method Pull() returns (r: Option<Failure>)
      requires Valid()
      modifies this`connection, journal
      ensures Valid()
      ensures r == if old(journal.checkpoint) > old(connection) then Some(AheadOfConnection) else None
      ensures r == None ==> journal.Value() == PulledFrom(old(journal.Value()), server.Value(), server.checkpoint)
                            && connection == server.checkpoint
      ensures r.Some? ==> journal.Value() == old(journal.Value()) && connection == old(connection)
    {
      if journal.checkpoint > connection {
        return Some(AheadOfConnection);
      }
      var ok := journal.PullFrom(server, server.checkpoint);
      connection := server.checkpoint;
      return None;
    }

    method Push(until: nat) returns (r: Option<Failure>)
      requires Valid()
      modifies this`connection, server
      ensures Valid()
      ensures r == if old(connection) != old(server.checkpoint) then Some(Conflict) else None
      ensures r == None ==>
                && server.Value() == PulledFrom(old(server.Value()), journal.Value(), Min(until, journal.checkpoint))
                && connection == server.checkpoint
      ensures r == None && journal.checkpoint <= until && old(server.checkpoint) <= journal.checkpoint ==>
                && server.checkpoint == journal.checkpoint
                && server.file[old(server.checkpoint)..server.checkpoint] == journal.file[old(server.checkpoint)..journal.checkpoint]
      ensures r.Some? ==> server.Value() == old(server.Value()) && connection == old(connection)
    {
      if connection != server.checkpoint {
        return Some(Conflict);
      }
      PullCopies(server.Value(), journal.Value(), Min(until, journal.checkpoint));
      var ok := server.PullFrom(journal, Min(until, journal.checkpoint));
      connection := server.checkpoint;
      return None;
    }
  }

  // ---------- many clients ----------

  datatype State = State(server: Journal, clients: map<nat, Client>)

  datatype Action =
    | Connect(c: nat, journal: Journal)
    | Pull(c: nat, lock: bool)
    | Write(c: nat, bytes: seq<byte>)   // writes of a transaction, and its checkpoint
    | Push(c: nat, until: nat)
    | PushLost(c: nat, until: nat)      // the server takes the push, its reply does not arrive
    | PullBroken(c: nat, n: nat)        // the connection breaks after n bytes have been written to the client's file
    | Abort(c: nat)

  ghost predicate Enabled(s: State, a: Action) {
    match a
    case Connect(c, journal) =>
      && c !in s.clients && journal.Valid()
      && SameRange(journal.file, s.server.file, HEADER, Min(s.server.checkpoint, journal.checkpoint))
    case Pull(c, _) => c in s.clients && s.clients[c].journal.checkpoint <= s.clients[c].connection
    case Write(c, _) => c in s.clients && s.clients[c].inTransaction
    case Push(c, _) => c in s.clients
    case PushLost(c, _) => c in s.clients && s.clients[c].connection == s.server.checkpoint
    case PullBroken(c, n) =>
      && c in s.clients && s.clients[c].journal.checkpoint <= s.clients[c].connection
      && s.clients[c].journal.checkpoint + n <= s.server.checkpoint
    case Abort(c) => c in s.clients
  }

  ghost function Step(s: State, a: Action): State
    requires s.server.Valid() && (forall c <- s.clients :: s.clients[c].journal.Valid()) && Enabled(s, a)
  {
    match a
    case Connect(c, journal) => s.(clients := s.clients[c := Client(journal, s.server.checkpoint, false)])
    case Pull(c, lock) =>
      var x := s.clients[c];
      s.(clients := s.clients[c := Client(PulledFrom(x.journal, s.server, s.server.checkpoint), s.server.checkpoint, lock)])
    case Write(c, bytes) =>
      var x := s.clients[c];
      var file := Overlay(x.journal.file, x.journal.checkpoint, bytes);
      s.(clients := s.clients[c := x.(journal := Journal(file, x.journal.checkpoint + |bytes|))])
    case Push(c, until) =>
      var x := s.clients[c];
      if x.connection != s.server.checkpoint then s.(clients := s.clients[c := x.(inTransaction := false)])
      else
        assert x.journal.Valid();
        var server := PulledFrom(s.server, x.journal, Min(until, x.journal.checkpoint));
        State(server, s.clients[c := x.(connection := server.checkpoint)])
    case PushLost(c, until) =>
      var x := s.clients[c];
      assert x.journal.Valid();
      State(PulledFrom(s.server, x.journal, Min(until, x.journal.checkpoint)), s.clients[c := x.(inTransaction := false)])
    case PullBroken(c, n) =>
      var x := s.clients[c];
      var file := Overlay(x.journal.file, x.journal.checkpoint, Range(s.server.file, x.journal.checkpoint, n));
      s.(clients := s.clients[c := x.(journal := Journal(file, x.journal.checkpoint), inTransaction := false)])
    case Abort(c) => s.(clients := s.clients[c := s.clients[c].(inTransaction := false)])
  }

  /** The client's log and the server's log are the same as far as the client knows both. */
  ghost predicate Agrees(x: Client, server: Journal) {
    SameRange(x.journal.file, server.file, HEADER, Min(x.journal.checkpoint, x.connection))
  }

  ghost predicate ClientInv(x: Client, server: Journal) {
    && x.journal.Valid()
    && HEADER <= x.connection <= server.checkpoint
    && Agrees(x, server)
    && (x.inTransaction ==> x.connection <= x.journal.checkpoint)
  }

  ghost predicate Inv(s: State) {
    s.server.Valid() && forall c <- s.clients :: ClientInv(s.clients[c], s.server)
  }

  /** `b` is `a` with something appended to its log. */
  predicate Extends(a: Journal, b: Journal) {
    a.Valid() && b.Valid() && a.checkpoint <= b.checkpoint && a.file[..a.checkpoint] == b.file[..a.checkpoint]
  }

  /** Pulling makes the destination's log the source's, if it agreed with it so far. */
  lemma PullCopies(destination: Journal, source: Journal, until: nat)
    requires destination.Valid() && until <= |source.file|
    ensures var r := PulledFrom(destination, source, until);
            && Extends(destination, r)
            && (destination.checkpoint < until ==>
                  && r.checkpoint == until
                  && r.file[destination.checkpoint..until] == source.file[destination.checkpoint..until])
  {
    var r := PulledFrom(destination, source, until);
    assert r.file[..destination.checkpoint] == destination.file[..destination.checkpoint];
    if destination.checkpoint < until {
      assert r.file[destination.checkpoint..until] == source.file[destination.checkpoint..until];
    }
  }

  lemma SameRangePrefix(a: seq<byte>, b: seq<byte>, a': seq<byte>, b': seq<byte>, from: nat, until: nat, n: nat)
    requires SameRange(a, b, from, until) && until <= n
    requires n <= |a| && n <= |a'| && a[..n] == a'[..n]
    requires until <= |b| && until <= |b'| && b[..until] == b'[..until]
    ensures SameRange(a', b', from, until)
  {
    if from < until {
      assert a'[from..until] == a'[..n][from..until] == a[..n][from..until] == a[from..until];
      assert b'[from..until] == b'[..until][from..until] == b[..until][from..until] == b[from..until];
    }
  }

  lemma ServerGrows(x: Client, server: Journal, server': Journal)
    requires ClientInv(x, server) && Extends(server, server')
    ensures ClientInv(x, server')
  {
    var n := Min(x.journal.checkpoint, x.connection);
    assert server.file[..n] == server.file[..server.checkpoint][..n] == server'.file[..server.checkpoint][..n] == server'.file[..n];
    SameRangePrefix(x.journal.file, server.file, x.journal.file, server'.file, HEADER, n, n);
  }

  lemma PullInv(x: Client, server: Journal, lock: bool)
    requires server.Valid() && ClientInv(x, server) && x.journal.checkpoint <= x.connection
    ensures ClientInv(Client(PulledFrom(x.journal, server, server.checkpoint), server.checkpoint, lock), server)
  {
    var r := PulledFrom(x.journal, server, server.checkpoint);
    PullCopies(x.journal, server, server.checkpoint);
    var n := x.journal.checkpoint;
    SameRangePrefix(x.journal.file, server.file, r.file, server.file, HEADER, n, n);
    if n < server.checkpoint {
      Joined(r.file, server.file, HEADER, n, server.checkpoint - n);
    }
  }

  lemma WriteInv(x: Client, server: Journal, bytes: seq<byte>)
    requires server.Valid() && ClientInv(x, server) && x.inTransaction
    ensures var file := Overlay(x.journal.file, x.journal.checkpoint, bytes);
            var j := Journal(file, x.journal.checkpoint + |bytes|);
            ClientInv(x.(journal := j), server) && Extends(x.journal, j)
  {
    var file := Overlay(x.journal.file, x.journal.checkpoint, bytes);
    var n := Min(x.journal.checkpoint, x.connection);
    assert file[..x.journal.checkpoint] == x.journal.file[..x.journal.checkpoint];
    SameRangePrefix(x.journal.file, server.file, file, server.file, HEADER, n, x.journal.checkpoint);
  }

  lemma PushInv(x: Client, server: Journal, n: nat)
    requires server.Valid() && ClientInv(x, server) && x.connection == server.checkpoint && n <= x.journal.checkpoint
    ensures var r := PulledFrom(server, x.journal, n);
            Extends(server, r) && ClientInv(x.(connection := r.checkpoint), r)
  {
    var r := PulledFrom(server, x.journal, n);
    PullCopies(server, x.journal, n);
    ServerGrows(x, server, r);
    if server.checkpoint < n {
      Joined(x.journal.file, r.file, HEADER, server.checkpoint, n - server.checkpoint);
    }
  }

  ghost predicate ClientsExtend(s: State, t: State) {
    forall c <- s.clients :: c in t.clients && Extends(s.clients[c].journal, t.clients[c].journal)
  }

  lemma ReplaceClient(s: State, c: nat, x: Client)
    requires Inv(s) && ClientInv(x, s.server) && (c in s.clients ==> Extends(s.clients[c].journal, x.journal))
    ensures Inv(s.(clients := s.clients[c := x])) && ClientsExtend(s, s.(clients := s.clients[c := x]))
  {
  }

  lemma PushStep(s: State, c: nat, until: nat)
    requires Inv(s) && c in s.clients
    ensures Inv(Step(s, Push(c, until))) && Extends(s.server, Step(s, Push(c, until)).server)
    ensures ClientsExtend(s, Step(s, Push(c, until)))
  {
    var x := s.clients[c];
    if x.connection != s.server.checkpoint {
      ReplaceClient(s, c, x.(inTransaction := false));
    } else {
      var n := Min(until, x.journal.checkpoint);
      var server := PulledFrom(s.server, x.journal, n);
      PushInv(x, s.server, n);
      forall d <- s.clients
        ensures ClientInv(s.clients[d], server)
      {
        ServerGrows(s.clients[d], s.server, server);
      }
      ReplaceClient(s.(server := server), c, x.(connection := server.checkpoint));
    }
  }

  lemma PushLostStep(s: State, c: nat, until: nat)
    requires Inv(s) && Enabled(s, PushLost(c, until))
    ensures Inv(Step(s, PushLost(c, until))) && Extends(s.server, Step(s, PushLost(c, until)).server)
    ensures ClientsExtend(s, Step(s, PushLost(c, until)))
  {
    var x := s.clients[c];
    var n := Min(until, x.journal.checkpoint);
    var server := PulledFrom(s.server, x.journal, n);
    PushInv(x, s.server, n);
    forall d <- s.clients
      ensures ClientInv(s.clients[d], server)
    {
      ServerGrows(s.clients[d], s.server, server);
    }
    ReplaceClient(s.(server := server), c, x.(inTransaction := false));
  }

  /** Bytes above the client's checkpoint are not part of its log. */
  lemma PullBrokenInv(x: Client, server: Journal, bytes: seq<byte>)
    requires server.Valid() && ClientInv(x, server)
    ensures var j := Journal(Overlay(x.journal.file, x.journal.checkpoint, bytes), x.journal.checkpoint);
            ClientInv(x.(journal := j, inTransaction := false), server) && Extends(x.journal, j)
  {
    var file := Overlay(x.journal.file, x.journal.checkpoint, bytes);
    var n := Min(x.journal.checkpoint, x.connection);
    assert file[..x.journal.checkpoint] == x.journal.file[..x.journal.checkpoint];
    SameRangePrefix(x.journal.file, server.file, file, server.file, HEADER, n, x.journal.checkpoint);
  }

  /** The server keeps its log, and every client its own or more. */
  ghost predicate Keeps(s: State, t: State) {
    Inv(t) && Extends(s.server, t.server) && ClientsExtend(s, t)
  }

  lemma PullStep(s: State, c: nat, lock: bool)
    requires Inv(s) && Enabled(s, Pull(c, lock))
    ensures Keeps(s, Step(s, Pull(c, lock)))
  {
    PullInv(s.clients[c], s.server, lock);
    PullCopies(s.clients[c].journal, s.server, s.server.checkpoint);
    ReplaceClient(s, c, Client(PulledFrom(s.clients[c].journal, s.server, s.server.checkpoint), s.server.checkpoint, lock));
  }

  lemma WriteStep(s: State, c: nat, bytes: seq<byte>)
    requires Inv(s) && Enabled(s, Write(c, bytes))
    ensures Keeps(s, Step(s, Write(c, bytes)))
  {
    var x := s.clients[c];
    WriteInv(x, s.server, bytes);
    var file := Overlay(x.journal.file, x.journal.checkpoint, bytes);
    ReplaceClient(s, c, x.(journal := Journal(file, x.journal.checkpoint + |bytes|)));
  }

  lemma PullBrokenStep(s: State, c: nat, n: nat)
    requires Inv(s) && Enabled(s, PullBroken(c, n))
    ensures Keeps(s, Step(s, PullBroken(c, n)))
  {
    var x := s.clients[c];
    var bytes := Range(s.server.file, x.journal.checkpoint, n);
    PullBrokenInv(x, s.server, bytes);
    ReplaceClient(s, c, x.(journal := Journal(Overlay(x.journal.file, x.journal.checkpoint, bytes), x.journal.checkpoint), inTransaction := false));
  }

  lemma StepInv(s: State, a: Action)
    requires Inv(s) && Enabled(s, a)
    ensures Inv(Step(s, a)) && Extends(s.server, Step(s, a).server)
    ensures ClientsExtend(s, Step(s, a))
  {
    match a
    case Connect(c, journal) => ReplaceClient(s, c, Client(journal, s.server.checkpoint, false));
    case Pull(c, lock) => PullStep(s, c, lock);
    case Write(c, bytes) => WriteStep(s, c, bytes);
    case Push(c, until) => PushStep(s, c, until);
    case PushLost(c, until) => PushLostStep(s, c, until);
    case PullBroken(c, n) => PullBrokenStep(s, c, n);
    case Abort(c) => ReplaceClient(s, c, s.clients[c].(inTransaction := false));
  }

  // ---------- whole runs ----------

  ghost predicate Next(s: State, a: Action, t: State) {
    && s.server.Valid() && (forall c <- s.clients :: s.clients[c].journal.Valid())
    && Enabled(s, a) && t == Step(s, a)
  }

  ghost predicate Run(states: seq<State>, actions: seq<Action>) {
    && |states| == |actions| + 1
    && states[0].server.Valid() && states[0].clients == map[]
    && forall i :: 0 <= i < |actions| ==> Next(states[i], actions[i], states[i + 1])
  }

  lemma {:induction false} RunInv(states: seq<State>, actions: seq<Action>, i: nat)
    requires Run(states, actions) && i <= |actions|
    ensures Inv(states[i])
  {
    if i > 0 {
      RunInv(states, actions, i - 1);
      assert Next(states[i - 1], actions[i - 1], states[i]);
      StepInv(states[i - 1], actions[i - 1]);
    }
  }

  /** In every run, every client's log agrees with the server's log as far as the client knows both. */
  lemma ClientsAgreeWithServer(states: seq<State>, actions: seq<Action>, i: nat, c: nat)
    requires Run(states, actions) && i <= |actions| && c in states[i].clients
    ensures Agrees(states[i].clients[c], states[i].server)
    ensures states[i].clients[c].connection <= states[i].server.checkpoint
  {
    RunInv(states, actions, i);
  }

  /** In every run, the server's log only grows by appending, and so does each client's. */
  lemma {:induction false} LogsOnlyGrow(states: seq<State>, actions: seq<Action>, i: nat, j: nat)
    requires Run(states, actions) && i <= j <= |actions|
    ensures Extends(states[i].server, states[j].server)
    ensures forall c <- states[i].clients ::
              c in states[j].clients && Extends(states[i].clients[c].journal, states[j].clients[c].journal)
  {
    RunInv(states, actions, i);
    if i < j {
      LogsOnlyGrow(states, actions, i, j - 1);
      RunInv(states, actions, j - 1);
      assert Next(states[j - 1], actions[j - 1], states[j]);
      StepInv(states[j - 1], actions[j - 1]);
      ExtendsTrans(states[i].server, states[j - 1].server, states[j].server);
      forall c <- states[i].clients
        ensures c in states[j].clients && Extends(states[i].clients[c].journal, states[j].clients[c].journal)
      {
        ExtendsTrans(states[i].clients[c].journal, states[j - 1].clients[c].journal, states[j].clients[c].journal);
      }
    }
  }

  lemma ExtendsTrans(a: Journal, b: Journal, c: Journal)
    requires Extends(a, b) && Extends(b, c)
    ensures Extends(a, c)
  {
    assert c.file[..a.checkpoint] == c.file[..b.checkpoint][..a.checkpoint];
    assert b.file[..a.checkpoint] == b.file[..b.checkpoint][..a.checkpoint];
  }

  /** After a pull the two logs are the same. */
  lemma SynchronizedAfterPull(states: seq<State>, actions: seq<Action>, i: nat)
    requires Run(states, actions) && i < |actions| && actions[i].Pull?
    ensures actions[i].c in states[i + 1].clients
    ensures var x := states[i + 1].clients[actions[i].c];
            && x.journal.checkpoint == states[i + 1].server.checkpoint
            && SameRange(x.journal.file, states[i + 1].server.file, HEADER, x.journal.checkpoint)
  {
    RunInv(states, actions, i);
    RunInv(states, actions, i + 1);
    assert Next(states[i], actions[i], states[i + 1]);
  }

  // ---------- what a transaction and a push do ----------

  /** A transaction appends its bytes to the client's log, and to nobody else's. */
  lemma WriteAppends(s: State, c: nat, bytes: seq<byte>)
    requires Inv(s) && Enabled(s, Write(c, bytes))
    ensures var t := Step(s, Write(c, bytes));
            && t.server == s.server && t.clients - {c} == s.clients - {c} && c in t.clients && t.clients[c].journal.Valid()
            && t.clients[c].journal.Log() == s.clients[c].journal.Log() + bytes
  {
    WriteInv(s.clients[c], s.server, bytes);
  }

  /**
   A push is refused, and changes nothing at the server, unless the client knows the server's
   checkpoint. Otherwise the server has the client's log up to where the push ends, if that is
   beyond its own, and the client knows it.
   */
  lemma PushPublishes(s: State, c: nat, until: nat)
    requires Inv(s) && c in s.clients
    ensures var x, t := s.clients[c], Step(s, Push(c, until));
            && c in t.clients && t.clients[c].journal == x.journal
            && if x.connection != s.server.checkpoint then t.server == s.server && !t.clients[c].inTransaction
               else
                 && t.server.Valid() && t.clients[c].connection == t.server.checkpoint
                 && if until <= s.server.checkpoint || x.journal.checkpoint <= s.server.checkpoint then t.server == s.server
                    else
                      && t.server.checkpoint == (if until < x.journal.checkpoint then until else x.journal.checkpoint)
                      && SameRange(t.server.file, x.journal.file, HEADER, t.server.checkpoint)
  {
    var x := s.clients[c];
    if x.connection == s.server.checkpoint {
      var n := Min(until, x.journal.checkpoint);
      PushInv(x, s.server, n);
      PullCopies(s.server, x.journal, n);
    }
  }

  /** After a whole push the two logs are the same. */
  lemma SynchronizedAfterPush(s: State, c: nat, until: nat)
    requires Inv(s) && c in s.clients && s.clients[c].connection == s.server.checkpoint
    requires s.server.checkpoint <= s.clients[c].journal.checkpoint <= until
    ensures var t := Step(s, Push(c, until)).server;
            t.checkpoint == s.clients[c].journal.checkpoint && SameRange(t.file, s.clients[c].journal.file, HEADER, t.checkpoint)
  {
    PushPublishes(s, c, until);
  }
}
