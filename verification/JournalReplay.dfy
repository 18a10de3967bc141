/** Whole journals: a sequence of operations is written, and replayed up to a checkpoint. */
module JournalReplay {
  import opened Bytes
  import opened JournalFormat
  import opened JournalCodec

  ghost predicate AllWritable(ops: seq<Event>) {
    forall i :: 0 <= i < |ops| ==> Writable(ops[i])
  }

  /** The bytes a writer with memory `w` produces. */
  ghost function Log(ops: seq<Event>, w: Context): seq<byte>
    requires AllWritable(ops)
  {
    if ops == [] then [] else Render(Written(ops[0], w)) + Log(ops[1..], Remember(ops[0], w))
  }

  function RememberAll(ops: seq<Event>, c: Context): Context {
    if ops == [] then c else RememberAll(ops[1..], Remember(ops[0], c))
  }

  /** What a listener gets of the operations: all but empty vector updates, and blobs only if it wants them. */
  function Kept(ops: seq<Event>, wantsBlobs: bool): seq<Event> {
    if ops == [] then []
    else (if Dropped(ops[0], wantsBlobs) then [] else [ops[0]]) + Kept(ops[1..], wantsBlobs)
  }

  predicate Dropped(e: Event, wantsBlobs: bool) {
    (e.UpdateVector? && e.values == []) || (e.Blob? && !wantsBlobs)
  }

  /** The operations before the first that the reader refuses. */
  function Accepted(ops: seq<Event>): seq<Event> {
    if ops == [] || !Replayable(ops[0]) then [] else [ops[0]] + Accepted(ops[1..])
  }

  function Operations(ds: seq<Delivery>): seq<Event> {
    if ds == [] then [] else (if ds[0].Op? then [ds[0].event] else []) + Operations(ds[1..])
  }

  lemma {:induction false} OperationsAppend(a: seq<Delivery>, b: seq<Delivery>)
    ensures Operations(a + b) == Operations(a) + Operations(b)
  {
    if a == [] {
      assert a + b == b;
    } else {
      var rest := a[1..];
      OperationsAppend(rest, b);
      assert (a + b)[1..] == rest + b && (a + b)[0] == a[0];
    }
  }

  // ---------- replay ----------

  /** Where a replay stopped: at the end, or at an operation that could not be read. */
  datatype Playback = Played(delivered: seq<Delivery>, next: nat, context: Context) | Broken(delivered: seq<Delivery>)

  function Play(f: seq<byte>, p: nat, c: Context, end: nat, checkpoint: nat, wantsBlobs: bool): Playback
    decreases end - p
  {
    if p >= end then Played([], p, c)
    else
      match OneStep(f, p, c, checkpoint, wantsBlobs)
      case Failed => Broken([])
      case Stepped(ds, q, c') =>
        match Play(f, q, c', end, checkpoint, wantsBlobs)
        case Played(rest, last, c'') => Played(ds + rest, last, c'')
        case Broken(rest) => Broken(ds + rest)
  }

  ghost function Prefixed(ds: seq<Delivery>, p: Playback): Playback {
    match p
    case Played(rest, last, c) => Played(ds + rest, last, c)
    case Broken(rest) => Broken(ds + rest)
  }

  lemma PrefixedTwice(a: seq<Delivery>, b: seq<Delivery>, p: Playback)
    ensures Prefixed(a, Prefixed(b, p)) == Prefixed(a + b, p)
  {
    assert a + (b + p.delivered) == (a + b) + p.delivered;
  }

  // ---------- round trip ----------

  /** No operation up to the first refused one is written in a form that relies on what no operation before it has set. */
  predicate SelfContained(ops: seq<Event>, w: Context, k: Known) {
    || ops == [] || !Replayable(ops[0])
    || (Covered(ops[0], w, k) && SelfContained(ops[1..], Remember(ops[0], w), Learn(ops[0], k)))
  }

  /** The replay of a log that lies at `p` and ends at `end`. */
  ghost predicate ReplaysAs(f: seq<byte>, p: nat, ops: seq<Event>, r: Context, end: nat, checkpoint: nat, wantsBlobs: bool) {
    var play := Play(f, p, r, end, checkpoint, wantsBlobs);
    && Operations(play.delivered) == Kept(Accepted(ops), wantsBlobs)
    && (play.Played? <==> Accepted(ops) == ops)
    && (play.Played? ==> play.next == end && play.context == RememberAll(ops, r))
  }

  lemma {:induction false} ReplayLog
    (f: seq<byte>, p: nat, ops: seq<Event>, w: Context, r: Context, k: Known, end: nat, checkpoint: nat, wantsBlobs: bool)
    requires AllWritable(ops) && At(f, p, Log(ops, w)) && AgreeOn(w, r, k) && SelfContained(ops, w, k)
    requires end == p + |Log(ops, w)| <= checkpoint
    ensures ReplaysAs(f, p, ops, r, end, checkpoint, wantsBlobs)
    decreases |ops|
  {
    if ops == [] {
      ReplayNothing(f, p, r, checkpoint, wantsBlobs);
    } else {
      var q := FirstReadsBack(f, p, ops, w, r, k, end, checkpoint, wantsBlobs);
      if Replayable(ops[0]) {
        AgreeKept(w, r, ops[0], k);
        ReplayLog(f, q, ops[1..], Remember(ops[0], w), Remember(ops[0], r), Learn(ops[0], k), end, checkpoint, wantsBlobs);
        ReplayCons(f, p, ops, w, r, q, end, checkpoint, wantsBlobs);
      } else {
        ReplayStops(f, p, ops, r, end, checkpoint, wantsBlobs);
      }
    }
  }

  lemma ReplayNothing(f: seq<byte>, p: nat, r: Context, checkpoint: nat, wantsBlobs: bool)
    ensures ReplaysAs(f, p, [], r, p, checkpoint, wantsBlobs)
  {
    assert Play(f, p, r, p, checkpoint, wantsBlobs) == Played([], p, r);
  }

  lemma ReplayStops(f: seq<byte>, p: nat, ops: seq<Event>, r: Context, end: nat, checkpoint: nat, wantsBlobs: bool)
    requires ops != [] && !Replayable(ops[0]) && p < end && OneStep(f, p, r, checkpoint, wantsBlobs) == Failed
    ensures ReplaysAs(f, p, ops, r, end, checkpoint, wantsBlobs)
  {
    assert Play(f, p, r, end, checkpoint, wantsBlobs) == Broken([]);
  }

  lemma {:induction false} FirstReadsBack
    (f: seq<byte>, p: nat, ops: seq<Event>, w: Context, r: Context, k: Known, end: nat, checkpoint: nat, wantsBlobs: bool) returns (q: nat)
    requires ops != [] && AllWritable(ops) && At(f, p, Log(ops, w)) && AgreeOn(w, r, k) && SelfContained(ops, w, k)
    requires end == p + |Log(ops, w)| <= checkpoint
    ensures p < q == End(f, p, Written(ops[0], w)) && q <= end
    ensures At(f, q, Log(ops[1..], Remember(ops[0], w)))
    ensures end == q + |Log(ops[1..], Remember(ops[0], w))|
    ensures Replayable(ops[0]) ==> ReadsBack(f, p, ops[0], w, r, checkpoint, wantsBlobs)
    ensures !Replayable(ops[0]) ==> OneStep(f, p, r, checkpoint, wantsBlobs) == Failed
  {
    AgreeKept(w, r, ops[0], k);
    q := HeadPlaced(f, p, ops[0], w, Log(ops[1..], Remember(ops[0], w)), checkpoint);
    StepReadsBack(f, p, ops[0], w, r, checkpoint, wantsBlobs);
  }

  /** The first operation of a log, and where the rest of the log lies. */
  lemma {:induction false} HeadPlaced(f: seq<byte>, p: nat, e: Event, w: Context, log: seq<byte>, checkpoint: nat) returns (q: nat)
    requires Writable(e) && At(f, p, Render(Written(e, w)) + log)
    requires p + |Render(Written(e, w)) + log| <= checkpoint
    ensures Placed(f, p, e, w, checkpoint) && p < q == End(f, p, Written(e, w))
    ensures At(f, q, log) && q + |log| == p + |Render(Written(e, w)) + log|
  {
    var ts := Written(e, w);
    AtSplit(f, p, Render(ts), log);
    RenderedIsLaid(f, p, ts);
    Peel(f, p, ts.head, ts.tail);
    q := End(f, p, ts);
  }

  lemma {:induction false} ReplayCons
    (f: seq<byte>, p: nat, ops: seq<Event>, w: Context, r: Context, q: nat, end: nat, checkpoint: nat, wantsBlobs: bool)
    requires ops != [] && Writable(ops[0]) && p < q <= end && q == End(f, p, Written(ops[0], w))
    requires Replayable(ops[0]) && ReadsBack(f, p, ops[0], w, r, checkpoint, wantsBlobs)
    requires ReplaysAs(f, q, ops[1..], Remember(ops[0], r), end, checkpoint, wantsBlobs)
    ensures ReplaysAs(f, p, ops, r, end, checkpoint, wantsBlobs)
  {
    var e, rest := ops[0], ops[1..];
    var play := Play(f, q, Remember(e, r), end, checkpoint, wantsBlobs);
    DeliveredCons(f, p, ops, w, r, q, end, checkpoint, wantsBlobs);
    KeptCons(e, Accepted(rest), wantsBlobs);
    assert ops == [e] + rest;
  }

  /** After an operation that is read back, what is delivered of the rest follows. */
  lemma {:induction false} DeliveredCons
    (f: seq<byte>, p: nat, ops: seq<Event>, w: Context, r: Context, q: nat, end: nat, checkpoint: nat, wantsBlobs: bool)
    requires ops != [] && Writable(ops[0]) && p < q <= end && q == End(f, p, Written(ops[0], w))
    requires ReadsBack(f, p, ops[0], w, r, checkpoint, wantsBlobs)
    ensures var play := Play(f, p, r, end, checkpoint, wantsBlobs);
            var rest := Play(f, q, Remember(ops[0], r), end, checkpoint, wantsBlobs);
            && play == Prefixed(Deliveries(ops[0], f, p, wantsBlobs), rest)
            && Operations(play.delivered) == (if Dropped(ops[0], wantsBlobs) then [] else [ops[0]]) + Operations(rest.delivered)
  {
    var e := ops[0];
    var ds := Deliveries(e, f, p, wantsBlobs);
    var rest := Play(f, q, Remember(e, r), end, checkpoint, wantsBlobs);
    assert Play(f, p, r, end, checkpoint, wantsBlobs) == Prefixed(ds, rest);
    OperationsAppend(ds, rest.delivered);
    DeliveriesAreOperations(e, f, p, wantsBlobs);
  }

  lemma {:induction false} DeliveriesAreOperations(e: Event, f: seq<byte>, p: nat, wantsBlobs: bool)
    ensures Operations(Deliveries(e, f, p, wantsBlobs)) == if Dropped(e, wantsBlobs) then [] else [e]
  {
    var ds := Deliveries(e, f, p, wantsBlobs);
    if e.Blob? {
      var first := OnBlob(After(f, p + 1, Num(|e.data|)), |e.data|);
      OperationsAppend([first], if wantsBlobs then [Op(e)] else []);
      assert [first][1..] == [] && [Op(e)][1..] == [];
    } else if ds != [] {
      assert ds[1..] == [];
    }
  }

  lemma {:induction false} KeptCons(e: Event, ops: seq<Event>, wantsBlobs: bool)
    ensures Kept([e] + ops, wantsBlobs) == (if Dropped(e, wantsBlobs) then [] else [e]) + Kept(ops, wantsBlobs)
  {
    assert ([e] + ops)[1..] == ops;
  }

  /** A file that a writer has just written replays up to the first operation that the reader refuses. */
  lemma FileReplays(header: seq<byte>, ops: seq<Event>, wantsBlobs: bool)
    requires |header| == START && AllWritable(ops)
    ensures var f := header + Log(ops, RESET); ReplaysAs(f, START, ops, RESET, |f|, |f|, wantsBlobs)
  {
    var f := header + Log(ops, RESET);
    AtMiddle(header, Log(ops, RESET), []);
    assert f == f + [];
    EverythingIsKnown(ops, RESET);
    ReplayLog(f, START, ops, RESET, RESET, EVERYTHING, |f|, |f|, wantsBlobs);
  }

  /**
   A journal written from a reset context and checkpointed at its end replays to the same
   operations, ends exactly at the checkpoint, and leaves the reader with the writer's context.
   It does so if and only if no non-empty vector update is of the null record.
   */
  lemma {:induction false} JournalRoundTrip(header: seq<byte>, ops: seq<Event>, wantsBlobs: bool)
    requires |header| == START && AllWritable(ops)
    ensures var f := header + Log(ops, RESET);
            var play := Play(f, START, RESET, |f|, |f|, wantsBlobs);
            && (play.Played? <==> forall i :: 0 <= i < |ops| ==> Replayable(ops[i]))
            && (play.Played? ==>
                  Operations(play.delivered) == Kept(ops, wantsBlobs) && play.next == |f| && play.context == RememberAll(ops, RESET))
  {
    FileReplays(header, ops, wantsBlobs);
    AcceptedAll(ops);
  }

  lemma {:induction false} EverythingIsKnown(ops: seq<Event>, w: Context)
    ensures SelfContained(ops, w, EVERYTHING)
  {
    if ops != [] {
      EverythingIsKnown(ops[1..], Remember(ops[0], w));
    }
  }

  lemma AtMiddle(a: seq<byte>, b: seq<byte>, c: seq<byte>)
    ensures At(a + b + c, |a|, b)
  {
  }

  lemma {:induction false} AcceptedAll(ops: seq<Event>)
    ensures Accepted(ops) == ops <==> forall i :: 0 <= i < |ops| ==> Replayable(ops[i])
  {
    if ops != [] {
      AcceptedAll(ops[1..]);
      assert ops == [ops[0]] + ops[1..];
      if Replayable(ops[0]) && Accepted(ops) == ops {
        assert Accepted(ops)[1..] == Accepted(ops[1..]);
      }
      assert forall i :: 0 < i < |ops| ==> ops[i] == ops[1..][i - 1];
    }
  }

  // ---------- splicing ----------

  /** Splicing: what a writer with a reset context wrote lies at `p`, and any reader comes from the log before it. */
  ghost predicate Splices(f: seq<byte>, p: nat, ops: seq<Event>, end: nat, wantsBlobs: bool) {
    forall r: Context :: ReplaysAs(f, p, ops, r, end, |f|, wantsBlobs)
  }

  /**
   A log written from a reset context can follow any other log, so that a reader with whatever
   context delivers its operations, if and only if none of them relies on what no operation
   before it in the same log has set.
   */
  lemma {:induction false} SplicesExactly(f: seq<byte>, p: nat, ops: seq<Event>, end: nat, wantsBlobs: bool)
    requires AllWritable(ops) && At(f, p, Log(ops, RESET)) && end == p + |Log(ops, RESET)|
    ensures Splices(f, p, ops, end, wantsBlobs) <==> SelfContained(ops, RESET, NOTHING)
  {
    if SelfContained(ops, RESET, NOTHING) {
      forall r: Context ensures ReplaysAs(f, p, ops, r, end, |f|, wantsBlobs) {
        ReplayLog(f, p, ops, RESET, r, NOTHING, end, |f|, wantsBlobs);
      }
    } else {
      var r := Context(1, -1, 1);
      SpliceMisread(f, p, ops, RESET, r, NOTHING, end, |f|, wantsBlobs);
      assert !ReplaysAs(f, p, ops, r, end, |f|, wantsBlobs);
    }
  }

  /** Writer and reader differ where nothing has been set. */
  predicate Differ(w: Context, r: Context, k: Known) {
    (!k.record ==> w.table != r.table) && (!k.field ==> w.field != r.field)
  }

  lemma {:induction false} SpliceMisread
    (f: seq<byte>, p: nat, ops: seq<Event>, w: Context, r: Context, k: Known, end: nat, checkpoint: nat, wantsBlobs: bool)
    requires AllWritable(ops) && At(f, p, Log(ops, w)) && AgreeOn(w, r, k) && Differ(w, r, k) && !SelfContained(ops, w, k)
    requires end == p + |Log(ops, w)| <= checkpoint
    ensures Operations(Play(f, p, r, end, checkpoint, wantsBlobs).delivered) != Kept(Accepted(ops), wantsBlobs)
    decreases |ops|
  {
    var e, rest := ops[0], ops[1..];
    var q := HeadPlaced(f, p, e, w, Log(rest, Remember(e, w)), checkpoint);
    if Covered(e, w, k) {
      AgreeKept(w, r, e, k);
      StepReadsBack(f, p, e, w, r, checkpoint, wantsBlobs);
      SpliceMisread(f, q, rest, Remember(e, w), Remember(e, r), Learn(e, k), end, checkpoint, wantsBlobs);
      DeliveredCons(f, p, ops, w, r, q, end, checkpoint, wantsBlobs);
      KeptCons(e, Accepted(rest), wantsBlobs);
      SamePrefix(if Dropped(e, wantsBlobs) then [] else [e],
        Operations(Play(f, q, Remember(e, r), end, checkpoint, wantsBlobs).delivered), Kept(Accepted(rest), wantsBlobs));
    } else {
      ShortRead(f, p, e, w, r, checkpoint, wantsBlobs);
      FirstMisread(f, p, e, w, r, q, end, checkpoint, wantsBlobs);
      KeptCons(e, Accepted(rest), wantsBlobs);
    }
  }

  lemma SamePrefix(a: seq<Event>, b: seq<Event>, c: seq<Event>)
    ensures a + b == a + c ==> b == c
  {
    assert b == (a + b)[|a|..];
    assert c == (a + c)[|a|..];
  }

  lemma FirstMisread(f: seq<byte>, p: nat, e: Event, w: Context, r: Context, q: nat, end: nat, checkpoint: nat, wantsBlobs: bool)
    requires UsesRecord(e, w) && p < q <= end
    requires OneStep(f, p, r, checkpoint, wantsBlobs) == Stepped([Op(Misread(e, w, r))], q, Remember(Misread(e, w, r), r))
    ensures var ops := Operations(Play(f, p, r, end, checkpoint, wantsBlobs).delivered);
            ops != [] && ops[0] == Misread(e, w, r)
  {
    var m := Misread(e, w, r);
    var rest := Play(f, q, Remember(m, r), end, checkpoint, wantsBlobs);
    assert Play(f, p, r, end, checkpoint, wantsBlobs) == Prefixed([Op(m)], rest);
    OperationsAppend([Op(m)], rest.delivered);
    assert [Op(m)][1..] == [];
  }

  /** With nonzero table and field ids a log is self-contained: an unset context never selects a short form. */
  lemma {:induction false} NonzeroIsSelfContained(ops: seq<Event>, w: Context, k: Known)
    requires forall i :: 0 <= i < |ops| ==> Nonzero(ops[i])
    requires (w.table != 0 ==> k.record) && (w.field != 0 ==> k.field)
    ensures SelfContained(ops, w, k)
    decreases |ops|
  {
    if ops != [] {
      NonzeroIsSelfContained(ops[1..], Remember(ops[0], w), Learn(ops[0], k));
    }
  }

  /** So what a writer with a reset context and nonzero ids wrote can follow any log. */
  lemma {:induction false} SpliceReplays(f: seq<byte>, p: nat, ops: seq<Event>, end: nat, wantsBlobs: bool)
    requires AllWritable(ops) && (forall i :: 0 <= i < |ops| ==> Nonzero(ops[i])) && At(f, p, Log(ops, RESET))
    requires end == p + |Log(ops, RESET)|
    ensures Splices(f, p, ops, end, wantsBlobs)
  {
    NonzeroIsSelfContained(ops, RESET, NOTHING);
    SplicesExactly(f, p, ops, end, wantsBlobs);
  }

  /** With table id 0 the short form is chosen, and the reader applies it to its own table. */
  lemma SpliceNeedsNonzeroIds()
    ensures Log([InsertInto(0, 0)], RESET) == [0x08] && !SelfContained([InsertInto(0, 0)], RESET, NOTHING)
    ensures OneStep([0x08], 0, Context(7, 3, 0), 1, false) == Stepped([Op(InsertInto(7, 4))], 1, Context(7, 4, 0))
  {
    var ops := [InsertInto(0, 0)];
    assert ops[1..] == [];
    assert Written(ops[0], RESET) == Cons(Code(0x08), Nil);
    assert Render(Cons(Code(0x08), Nil)) == [0x08] + [];
  }
}
