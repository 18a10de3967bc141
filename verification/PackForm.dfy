/** What a packed journal looks like: what of the input it keeps, and what follows. */
module PackForm {
  import opened Bytes
  import opened JournalFormat
  import opened JournalCodec
  import opened Tables
  import opened Effects
  import opened Pack

  /** Events that a packed journal takes over: those that make tables and fields what they are, and those of the application. */
  predicate TakenOver(e: Event) {
    match e
    case CreateTable(_) => true
    case DropTable(_) => true
    case RenameTable(_, _) => true
    case AddField(_, _, _) => true
    case DropField(_, _) => true
    case RenameField(_, _, _) => true
    case Custom(_) => true
    case _ => false
  }

  /** Places of the events taken over, in their order. */
  function Places(events: seq<Event>, n: nat): (p: seq<nat>)
    requires n <= |events|
    ensures forall i :: 0 <= i < |p| ==> p[i] < n && TakenOver(events[p[i]])
    ensures forall i, j :: 0 <= i < j < |p| ==> p[i] < p[j]
    ensures forall k :: 0 <= k < n && TakenOver(events[k]) ==> k in p
  {
    if n == 0 then [] else Places(events, n - 1) + if TakenOver(events[n - 1]) then [n - 1] else []
  }

  /** The journal begins with exactly these events of the input, in their order; records and values of `db` follow, and nothing else. */
  ghost predicate PackedAs(events: seq<Event>, db: Db, packed: seq<Event>) {
    var places := Places(events, |events|);
    && |places| <= |packed|
    && (forall i :: 0 <= i < |places| ==> packed[i] == events[places[i]])
    && (forall i :: |places| <= i < |packed| ==> Fills(db, packed[i]))
  }

  /** The event inserts, or gives values to, a whole run of used records: at once if it has several, as single events if it has one. */
  predicate Fills(db: Db, e: Event) {
    match e
    case InsertInto(t, r) => IsRunOf(db, t, r, 1)
    case Update(_, t, r, _, _) => IsRunOf(db, t, r, 1)
    case InsertVector(t, r, n) => n > 1 && IsRunOf(db, t, r, n)
    case UpdateVector(_, t, r, _, vs) => |vs| > 1 && IsRunOf(db, t, r, |vs|)
    case _ => false
  }

  predicate IsRunOf(db: Db, t: nat, r: int, n: nat) {
    t in db.tables && r >= 0 && IsRun(db.tables[t].used, r, n)
  }

  ghost predicate AllFill(db: Db, events: seq<Event>) {
    forall i :: 0 <= i < |events| ==> Fills(db, events[i])
  }

  lemma AllFillAppend(db: Db, a: seq<Event>, b: seq<Event>)
    requires AllFill(db, a) && AllFill(db, b)
    ensures AllFill(db, a + b)
  {
  }

  lemma {:induction false} FieldsFill(db: Db, id: nat, f: nat, r: nat, n: nat)
    requires IsRunOf(db, id, r, n)
    ensures AllFill(db, FieldsFrom(id, db.tables[id], f, r, n))
    decreases db.tables[id].lastField + 1 - f
  {
    var t := db.tables[id];
    if f <= t.lastField {
      FieldsFill(db, id, f + 1, r, n);
      AllFillAppend(db, FieldEvents(id, t, f, r, n), FieldsFrom(id, t, f + 1, r, n));
    }
  }

  lemma RunFills(db: Db, id: nat, r: nat)
    requires id in db.tables && UsedAt(db.tables[id].used, r) && !UsedAt(db.tables[id].used, r - 1)
    ensures AllFill(db, RunEvents(id, db.tables[id], r))
  {
    var t := db.tables[id];
    var n := RunLength(t.used, r);
    assert IsRunOf(db, id, r, n);
    FieldsFill(db, id, 1, r, n);
    AllFillAppend(db, [InsertRun(id, r, n)], FieldsFrom(id, t, 1, r, n));
  }

  lemma {:induction false} RunsFill(db: Db, id: nat, r: nat)
    requires id in db.tables && !UsedAt(db.tables[id].used, r - 1)
    ensures AllFill(db, RunsFrom(id, db.tables[id], r))
    decreases |db.tables[id].used| - r
  {
    var t := db.tables[id];
    if r < |t.used| {
      var n := RunLength(t.used, r);
      if !t.used[r] {
        RunsFill(db, id, r + 1);
      } else {
        RunFills(db, id, r);
        if r + n < |t.used| {
          RunsFill(db, id, r + n + 1);
          assert RunsFrom(id, t, r + n) == RunsFrom(id, t, r + n + 1);
        }
        AllFillAppend(db, RunEvents(id, t, r), RunsFrom(id, t, r + n));
      }
    }
  }

  lemma {:induction false} TablesFill(db: Db, id: nat)
    ensures AllFill(db, TablesFrom(db, id))
    decreases db.lastTable + 1 - id
  {
    if id <= db.lastTable {
      TablesFill(db, id + 1);
      if id in db.tables {
        RunsFill(db, id, 0);
      }
      AllFillAppend(db, TableEvents(db, id), TablesFrom(db, id + 1));
    }
  }

  /** The events at given places. */
  function At(events: seq<Event>, places: seq<nat>): (s: seq<Event>)
    requires forall i :: 0 <= i < |places| ==> places[i] < |events|
    ensures |s| == |places| && forall i :: 0 <= i < |s| ==> s[i] == events[places[i]]
  {
    seq(|places|, i requires 0 <= i < |places| => events[places[i]])
  }

  lemma {:induction false} FilterTakesOver(events: seq<Event>, n: nat)
    requires n <= |events|
    ensures SchemaOf(events[..n]) == At(events, Places(events, n))
  {
    if n > 0 {
      FilterTakesOver(events, n - 1);
      var last := [events[n - 1]];
      assert events[..n] == events[..n - 1] + last;
      SchemaAppend(events[..n - 1], last);
      assert last[1..] == [];
      assert SchemaOf(last) == if TakenOver(events[n - 1]) then last else [];
    }
  }

  /** Packing keeps the definitions and the application's own events, in their order, and then fills in the records. */
  lemma PackedForm(events: seq<Event>)
    requires Packed(events).Some?
    ensures PackedAs(events, Replay(EMPTY, events).value, Packed(events).value)
  {
    FilterTakesOver(events, |events|);
    assert events[..|events|] == events;
    TablesFill(Replay(EMPTY, events).value, 1);
  }

  // ---------- in which order ----------

  /** An insertion comes before the values of its records. */
  function Slot(e: Event): nat {
    match e case Update(_, _, _, f, _) => f case UpdateVector(_, _, _, f, _) => f case _ => 0
  }

  /** By table, then by record, then by field. */
  predicate Before(a: Event, b: Event)
    requires OfTable(a) && OfTable(b)
  {
    a.table < b.table || (a.table == b.table && (RecordOf(a) < RecordOf(b) || (RecordOf(a) == RecordOf(b) && Slot(a) < Slot(b))))
  }

  function RecordOf(e: Event): int {
    match e
    case InsertInto(_, r) => r
    case InsertVector(_, r, _) => r
    case Update(_, _, r, _, _) => r
    case UpdateVector(_, _, r, _, _) => r
    case _ => -1
  }

  ghost predicate Sorted(s: seq<Event>) {
    && (forall i :: 0 <= i < |s| ==> OfTable(s[i]))
    && (forall i, j :: 0 <= i < j < |s| ==> Before(s[i], s[j]))
  }

  /** Events of one table and from one record on, or of later ones. */
  ghost predicate From(s: seq<Event>, id: nat, r: int) {
    forall i :: 0 <= i < |s| ==> OfTable(s[i]) && s[i].table == id && RecordOf(s[i]) >= r
  }

  ghost predicate OfRun(s: seq<Event>, id: nat, r: int, f: nat) {
    forall i :: 0 <= i < |s| ==> OfTable(s[i]) && s[i].table == id && RecordOf(s[i]) == r && Slot(s[i]) >= f
  }

  ghost predicate FromTable(s: seq<Event>, id: nat) {
    forall i :: 0 <= i < |s| ==> OfTable(s[i]) && s[i].table >= id
  }

  lemma SortedAppend(a: seq<Event>, b: seq<Event>)
    requires Sorted(a) && Sorted(b)
    requires forall i, j :: 0 <= i < |a| && 0 <= j < |b| ==> Before(a[i], b[j])
    ensures Sorted(a + b)
  {
    var s := a + b;
    forall i, j | 0 <= i < j < |s| ensures Before(s[i], s[j]) {
      if j < |a| {
        assert s[i] == a[i] && s[j] == a[j];
      } else if i < |a| {
        assert s[i] == a[i] && s[j] == b[j - |a|];
      } else {
        assert s[i] == b[i - |a|] && s[j] == b[j - |a|];
      }
    }
  }

  lemma {:induction false} FieldsSorted(id: nat, t: Table, f: nat, r: nat, n: nat)
    ensures var s := FieldsFrom(id, t, f, r, n); OfRun(s, id, r, f) && Sorted(s)
    decreases t.lastField + 1 - f
  {
    if f <= t.lastField {
      FieldsSorted(id, t, f + 1, r, n);
      SortedAppend(FieldEvents(id, t, f, r, n), FieldsFrom(id, t, f + 1, r, n));
    }
  }

  lemma RunSorted(id: nat, t: Table, r: nat)
    ensures var s := RunEvents(id, t, r); OfRun(s, id, r, 0) && Sorted(s)
  {
    var n := RunLength(t.used, r);
    FieldsSorted(id, t, 1, r, n);
    SortedAppend([InsertRun(id, r, n)], FieldsFrom(id, t, 1, r, n));
  }

  lemma {:induction false} RunsSorted(id: nat, t: Table, r: nat)
    ensures var s := RunsFrom(id, t, r); From(s, id, r) && Sorted(s)
    decreases |t.used| - r
  {
    if r < |t.used| {
      if !t.used[r] {
        RunsSorted(id, t, r + 1);
      } else {
        var n := RunLength(t.used, r);
        RunSorted(id, t, r);
        RunsSorted(id, t, r + n);
        SortedAppend(RunEvents(id, t, r), RunsFrom(id, t, r + n));
      }
    }
  }

  lemma {:induction false} TablesSorted(db: Db, id: nat)
    ensures var s := TablesFrom(db, id); FromTable(s, id) && Sorted(s)
    decreases db.lastTable + 1 - id
  {
    if id <= db.lastTable {
      TablesSorted(db, id + 1);
      if id in db.tables {
        RunsSorted(id, db.tables[id], 0);
      }
      SortedAppend(TableEvents(db, id), TablesFrom(db, id + 1));
    }
  }

  /** The data come table by table, record by record, field by field, each only once. */
  lemma DataAreSorted(events: seq<Event>)
    requires Packed(events).Some?
    ensures |Places(events, |events|)| <= |Packed(events).value|
    ensures Sorted(Packed(events).value[|Places(events, |events|)|..])
  {
    FilterTakesOver(events, |events|);
    assert events[..|events|] == events;
    TablesSorted(Replay(EMPTY, events).value, 1);
    assert Packed(events).value[|Places(events, |events|)|..] == Dump(Replay(EMPTY, events).value);
  }

  // ---------- when it throws ----------

  /** Event `i` is not allowed in the database that the events before it give. */
  ghost predicate ThrowsAt(db: Db, events: seq<Event>, i: nat) {
    i < |events| && Replay(db, events[..i]).Some? && !Allows(Replay(db, events[..i]).value, events[i])
  }

  lemma {:induction false} ReplayThrows(db: Db, events: seq<Event>)
    requires Valid(db)
    ensures Replay(db, events).None? <==> exists i :: ThrowsAt(db, events, i)
    decreases |events|
  {
    if events != [] {
      EventDoesSo(db, events[0]);
      if Allows(db, events[0]) {
        StaysValid(db, events[0]);
        var u, rest := Apply(db, events[0]).value, events[1..];
        ReplayThrows(u, rest);
        forall i: nat | i < |rest| ensures ThrowsAt(u, rest, i) <==> ThrowsAt(db, events, i + 1) {
          OneBefore(db, events, i);
        }
        assert !ThrowsAt(db, events, 0) by { assert events[..0] == []; }
        if i: nat :| ThrowsAt(db, events, i) {
          assert i > 0 && ThrowsAt(u, rest, i - 1);
        }
      } else {
        assert events[..0] == [];
        assert ThrowsAt(db, events, 0);
      }
    }
  }

  lemma OneBefore(db: Db, events: seq<Event>, i: nat)
    requires i + 1 < |events| && Apply(db, events[0]).Some?
    ensures Replay(db, events[..i + 1]) == Replay(Apply(db, events[0]).value, events[1..][..i])
  {
    var a := events[..i + 1];
    assert a[0] == events[0] && a[1..] == events[1..][..i];
  }

  /** Packing throws if and only if an event is not allowed where it stands, or the journal has a blob. */
  lemma PackThrows(events: seq<Event>)
    ensures Packed(events).None? <==> (exists i :: ThrowsAt(EMPTY, events, i)) || (exists i :: 0 <= i < |events| && events[i].Blob?)
  {
    ReplayThrows(EMPTY, events);
  }
}
