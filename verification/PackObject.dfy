/** The database as an object that holds table objects, and the loops of packing. */
module PackObject {
  import opened Bytes
  import opened JournalCodec
  import opened Tables
  import opened Effects
  import opened Pack
  import opened PackForm
  import opened TableObject

  /** A vector of no records: whether it is accepted depends on the form of the freedom keeper. */
  predicate EmptyRange(e: Event) {
    (e.InsertVector? || e.DeleteVector?) && e.count == 0
  }

  /** A table has taken an event, or it has thrown and the table is as it was. */
  ghost predicate Outcome(t: Table, e: Event, ok: bool, u: Table) {
    (!EmptyRange(e) ==> ok == ApplyTo(t, e).Some?) && if ok then ApplyTo(t, e) == Some(u) else u == t
  }

  lemma OneChanged(db: Db, e: Event, u: Table)
    requires OfTable(e) && e.table in db.tables
    ensures ApplyTo(db.tables[e.table], e) == Some(u) ==> Apply(db, e) == Some(db.(tables := db.tables[e.table := u]))
    ensures ApplyTo(db.tables[e.table], e) == None <==> Apply(db, e) == None
    ensures u == db.tables[e.table] ==> db.(tables := db.tables[e.table := u]) == db
  {
    assert u == db.tables[e.table] ==> db.tables[e.table := u] == db.tables;
  }

  /** A name begins with a letter or an underscore, goes on with these and digits, and has no two underscores in a row. */
  method CheckIdentifier(s: seq<byte>) returns (ok: bool)
    ensures ok == IsIdentifier(s)
  {
    if s == [] || IsDigit(s[0]) {
      return false;
    }
    var previous: byte := 0;
    for i := 0 to |s|
      invariant previous == if i == 0 then 0 else s[i - 1]
      invariant forall k :: 0 <= k < i ==> s[k] == 95 || IsLetter(s[k]) || IsDigit(s[k])
      invariant forall k :: 0 <= k < i - 1 ==> !(s[k] == 95 && s[k + 1] == 95)
    {
      var c := s[i];
      if c != 95 && !IsLetter(c) && !IsDigit(c) {
        return false;
      }
      if c == 95 && previous == 95 {
        return false;
      }
      previous := c;
    }
    return true;
  }

  /** What a table makes of an event that names it; one that throws leaves the table as it was. */
  method ChangeTable(t: TableObject, e: Event) returns (ok: bool)
    requires t.Valid() && OfTable(e)
    modifies t, t.freedom, t.freedom.lists
    ensures t.Valid() && Outcome(old(t.State()), e, ok, t.State())
  {
    if e.AddField? {
      var valid := CheckIdentifier(e.name);
      if !valid {
        return false;
      }
      ok := t.AddField(e.name, e.fieldType);
    } else if e.DropField? {
      ok := t.DropField(e.field);
    } else if e.RenameField? {
      var valid := CheckIdentifier(e.name);
      if !valid {
        return false;
      }
      ok := t.RenameField(e.field, e.name);
    } else {
      ok := ChangeRecords(t, e);
    }
  }

  method ChangeRecords(t: TableObject, e: Event) returns (ok: bool)
    requires t.Valid() && OfTable(e) && !e.AddField? && !e.DropField? && !e.RenameField?
    modifies t, t.freedom, t.freedom.lists
    ensures t.Valid() && Outcome(old(t.State()), e, ok, t.State())
  {
    match e {
      case InsertInto(_, r) =>
        if r < 0 {
          return false;
        }
        OneRecord(t.State(), r);
        ok := t.InsertRecord(r);
      case DeleteFrom(_, r) => ok := t.DeleteRecord(r);
      case InsertVector(_, r, n) =>
        NoRecords(t.State(), r);
        ok := t.InsertVector(r, n);
      case DeleteVector(_, r, n) =>
        NoRecords(t.State(), r);
        ok := t.DeleteVector(r, n);
      case Update(k, _, r, f, v) => ok := t.UpdateVector(k, r, f, [Single(v, k)]);
      case UpdateVector(k, _, r, f, vs) => ok := t.UpdateVector(k, r, f, vs);
    }
  }

  lemma OneRecord(t: Table, r: nat)
    ensures Tables.InsertVector(t, r, 1) == if Used(t, r) then None else Some(Insert(t, r, 1))
  {
    assert UsedAt(t.used, r) <==> !AllFree(t.used, r, 1);
  }

  lemma NoRecords(t: Table, r: int)
    ensures r >= 0 ==> Tables.InsertVector(t, r, 0) == Some(t) && Tables.DeleteVector(t, r, 0) == Some(t)
  {
  }

  /** Two tables share neither themselves nor their freedom keepers. */
  predicate Apart(t: TableObject, u: TableObject) {
    t != u && t.freedom != u.freedom && t.freedom.lists != u.freedom.lists
  }

  ghost predicate Inside(t: TableObject, repr: set<object>) {
    t in repr && t.freedom in repr && t.freedom.lists in repr
  }

  /** All tables lie in `repr`, and no two share anything. */
  ghost predicate AllApart(tables: map<nat, TableObject>, repr: set<object>) {
    && (forall id <- tables :: Inside(tables[id], repr))
    && (forall i <- tables, j <- tables :: i != j ==> Apart(tables[i], tables[j]))
  }

  lemma OneMoreApart(tables: map<nat, TableObject>, repr: set<object>, id: nat, t: TableObject)
    requires AllApart(tables, repr) && t !in repr && t.freedom !in repr && t.freedom.lists !in repr
    ensures AllApart(tables[id := t], repr + {t, t.freedom, t.freedom.lists})
  {
    forall k <- tables ensures Apart(tables[k], t) && Apart(t, tables[k]) {
      assert Inside(tables[k], repr);
    }
  }

  /** The object is valid and stands for `u`. */
  ghost predicate Holds(t: TableObject, u: Table)
    reads t, t.freedom, t.freedom.lists
  {
    t.Valid() && t.State() == u
  }

  /** Every table object stands for the table of the same id. */
  ghost predicate AllHold(tables: map<nat, TableObject>, values: map<nat, Table>)
    reads set id <- tables :: tables[id], set id <- tables :: tables[id].freedom, set id <- tables :: tables[id].freedom.lists
  {
    tables.Keys == values.Keys && forall id <- tables :: Holds(tables[id], values[id])
  }

  lemma OneMoreHolds(tables: map<nat, TableObject>, values: map<nat, Table>, id: nat, t: TableObject)
    requires t.Valid() && AllHold(tables, values)
    ensures AllHold(tables[id := t], values[id := t.State()])
  {
  }

  class Database {
    var tables: map<nat, TableObject>
    var tableNames: map<nat, seq<byte>>
    var currentTableId: nat
    /** The tables, their freedom keepers and the lists of these. */
    ghost var repr: set<object>
    /** The database that the object stands for. */
    ghost var state: Db

    ghost function State(): Db
      reads this
    {
      state
    }

    ghost predicate Linked()
      reads this, repr
    {
      && this !in repr && AllApart(tables, repr)
      && tableNames == state.names && currentTableId == state.lastTable
      && AllHold(tables, state.tables)
    }

    ghost predicate Valid()
      reads this, repr
    {
      Linked() && Tables.Valid(state)
    }

    constructor ()
      ensures Valid() && State() == EMPTY && fresh(repr)
    {
      tables, tableNames, currentTableId, repr, state := map[], map[], 0, {}, EMPTY;
    }

    /** A new table has the next id; an invalid or used name is refused. */
    method CreateTable(name: seq<byte>) returns (ok: bool)
      requires Valid()
      modifies this
      ensures Valid() && fresh(repr - old(repr))
      ensures ok == Allows(old(State()), JournalCodec.Event.CreateTable(name))
      ensures if ok then TableCreated(old(State()), name, State()) else State() == old(State())
    {
      Expect(JournalCodec.Event.CreateTable(name));
      ok := AddTable(name);
    }

    /** The table and its name are gone, and nothing else. */
    method DropTable(id: nat) returns (ok: bool)
      requires Valid()
      modifies this
      ensures Valid() && repr == old(repr) && ok == (id in old(tables))
      ensures if ok then TableGone(old(State()), id, State()) else State() == old(State())
    {
      Expect(JournalCodec.Event.DropTable(id));
      ok := RemoveTable(id);
    }

    /** The table has the new name, and nothing else changes. */
    method RenameTable(id: nat, name: seq<byte>) returns (ok: bool)
      requires Valid()
      modifies `tableNames, `state
      ensures Valid() && ok == Allows(old(State()), JournalCodec.Event.RenameTable(id, name))
      ensures if ok then TableRenamed(old(State()), id, name, State()) else State() == old(State())
    {
      Expect(JournalCodec.Event.RenameTable(id, name));
      ok := Relabel(id, name);
    }

    /** What an event will do to the database. */
    lemma Expect(e: Event)
      requires Valid()
      ensures Allows(State(), e) <==> Apply(State(), e).Some?
      ensures Allows(State(), e) ==> Becomes(State(), e, Apply(State(), e).value) && Tables.Valid(Apply(State(), e).value)
    {
      EventDoesSo(State(), e);
      if Allows(State(), e) {
        StaysValid(State(), e);
      }
    }

    /** Takes one event: it throws exactly when it is not allowed, and leaves the database as it was; else it does what it should. */
    method Handle(e: Event) returns (ok: bool)
      requires Valid()
      modifies this, repr
      ensures Valid() && fresh(repr - old(repr))
      ensures !EmptyRange(e) ==> ok == Allows(old(State()), e)
      ensures if ok then Becomes(old(State()), e, State()) && Apply(old(State()), e) == Some(State()) else State() == old(State())
    {
      Expect(e);
      ok := Dispatch(e);
    }

    method Dispatch(e: Event) returns (ok: bool)
      requires Linked()
      modifies this, repr
      ensures Linked() && fresh(repr - old(repr)) && (!EmptyRange(e) ==> ok == Apply(old(State()), e).Some?)
      ensures if ok then Apply(old(State()), e) == Some(State()) else State() == old(State())
    {
      if OfTable(e) {
        if e.table !in tables {
          return false;
        }
        ok := HandleOnTable(e);
        return;
      }
      match e {
        case CreateTable(name) => ok := AddTable(name);
        case DropTable(id) => ok := RemoveTable(id);
        case RenameTable(id, name) => ok := Relabel(id, name);
        case _ => ok := true;
      }
    }

    method AddTable(name: seq<byte>) returns (ok: bool)
      requires Linked()
      modifies this
      ensures Linked() && fresh(repr - old(repr)) && ok == CreateTableIn(old(State()), name).Some?
      ensures State() == if ok then CreateTableIn(old(State()), name).value else old(State())
    {
      var valid := CheckIdentifier(name);
      if !valid || NameUsed(tableNames, name) || currentTableId == MAX_ID {
        return false;
      }
      var t := new TableObject();
      Put(name, t);
      return true;
    }

    /** A new table object takes its place in the map. */
    method Put(name: seq<byte>, t: TableObject)
      requires Linked() && t.Valid() && t !in repr && t.freedom !in repr && t.freedom.lists !in repr
      modifies this
      ensures Linked() && repr == old(repr) + {t, t.freedom, t.freedom.lists}
      ensures var id := old(currentTableId) + 1;
              State() == Db(old(State()).tables[id := t.State()], old(State()).names[id := name], id)
    {
      var id := currentTableId + 1;
      ghost var more, values := repr + {t, t.freedom, t.freedom.lists}, state.tables[id := t.State()];
      OneMoreApart(tables, repr, id, t);
      OneMoreHolds(tables, state.tables, id, t);
      Become(tables[id := t], tableNames[id := name], id, more, values);
    }

    method Become(objects: map<nat, TableObject>, names: map<nat, seq<byte>>, last: nat, ghost more: set<object>, ghost values: map<nat, Table>)
      requires this !in more && AllApart(objects, more) && AllHold(objects, values)
      modifies this
      ensures Linked() && repr == more && State() == Db(values, names, last)
    {
      tables, tableNames, currentTableId, repr, state := objects, names, last, more, Db(values, names, last);
    }

    method RemoveTable(id: nat) returns (ok: bool)
      requires Linked()
      modifies this
      ensures Linked() && repr == old(repr) && ok == DropTableIn(old(State()), id).Some?
      ensures State() == if ok then DropTableIn(old(State()), id).value else old(State())
    {
      if id !in tables {
        return false;
      }
      tableNames := tableNames - {id};
      tables := tables - {id};
      state := state.(names := tableNames, tables := state.tables - {id});
      return true;
    }

    method Relabel(id: nat, name: seq<byte>) returns (ok: bool)
      requires Linked()
      modifies `tableNames, `state
      ensures Linked() && ok == RenameTableIn(old(State()), id, name).Some?
      ensures State() == if ok then RenameTableIn(old(State()), id, name).value else old(State())
    {
      var valid := CheckIdentifier(name);
      if !valid || NameUsed(tableNames, name) || id !in tables {
        return false;
      }
      tableNames := tableNames[id := name];
      state := state.(names := tableNames);
      return true;
    }

    /** An event of one table changes that table and no other. */
    method HandleOnTable(e: Event) returns (ok: bool)
      requires Linked() && OfTable(e) && e.table in tables
      modifies `state, repr
      ensures Linked() && (!EmptyRange(e) ==> ok == Apply(old(State()), e).Some?)
      ensures if ok then Apply(old(State()), e) == Some(State()) else State() == old(State())
    {
      ghost var was := State();
      ghost var u;
      ok, u := ChangeOne(e);
      OneChanged(was, e, u);
    }

    method ChangeOne(e: Event) returns (ok: bool, ghost u: Table)
      requires Linked() && OfTable(e) && e.table in tables
      modifies `state, repr
      ensures Linked() && e.table in old(State()).tables
      ensures State() == old(State()).(tables := old(State()).tables[e.table := u])
      ensures Outcome(old(State()).tables[e.table], e, ok, u)
    {
      var t := tables[e.table];
      assert Holds(t, state.tables[e.table]);
      ok := ChangeTable(t, e);
      u := t.State();
      OthersKept(e.table);
      Record(e.table);
    }

    /** The state follows the one table that has changed. */
    ghost method Record(id: nat)
      requires this !in repr && AllApart(tables, repr) && id in tables && tables[id].Valid()
      requires tableNames == state.names && currentTableId == state.lastTable && tables.Keys == state.tables.Keys
      requires forall k <- tables :: k != id ==> Holds(tables[k], state.tables[k])
      modifies `state
      ensures Linked() && state == old(state).(tables := old(state).tables[id := tables[id].State()])
    {
      state := state.(tables := state.tables[id := tables[id].State()]);
    }

    /** When one table has changed, the others are as they were. */
    twostate lemma OthersKept(id: nat)
      requires old(Linked()) && unchanged(this) && id in tables
      requires forall o <- repr :: o != tables[id] && o != tables[id].freedom && o != tables[id].freedom.lists ==> unchanged(o)
      ensures forall k <- tables :: k != id ==> Holds(tables[k], state.tables[k])
    {
      forall k <- tables | k != id ensures Holds(tables[k], state.tables[k]) {
        assert Inside(tables[k], repr) && Apart(tables[k], tables[id]) && old(Holds(tables[k], state.tables[k]));
      }
    }
  }

  /** The values of one run of records, field after field; the events so far are `out`. */
  method DumpFields(id: nat, t: TableObject, r: nat, n: nat, out: seq<Event>) returns (all: seq<Event>)
    requires t.Valid()
    ensures all == out + FieldsFrom(id, t.State(), 1, r, n)
  {
    t.FieldsAreState();
    all := out;
    var f := 1;
    while f <= t.lastField
      invariant 1 <= f && all + FieldsFrom(id, t.State(), f, r, n) == out + FieldsFrom(id, t.State(), 1, r, n)
      decreases t.lastField + 1 - f
    {
      var events := FieldUpdates(id, t, f, r, n);
      Regroup(all, events, FieldsFrom(id, t.State(), f + 1, r, n));
      all := all + events;
      f := f + 1;
    }
  }

  /** A vector of values for a run of several records, a single value for one. */
  method FieldUpdates(id: nat, t: TableObject, f: nat, r: nat, n: nat) returns (events: seq<Event>)
    requires t.Valid()
    ensures events == FieldEvents(id, t.State(), f, r, n)
  {
    t.FieldsAreState();
    events := [];
    if f in t.names && f in t.fields {
      var c := t.fields[f];
      var k := KindOfType(c.fieldType);
      if k.Some? && n > 0 && r + n <= |c.values| {
        if n > 1 {
          events := [UpdateVector(k.value, id, r, f, c.values[r..r + n])];
        } else {
          events := [Update(k.value, id, r, f, Single(c.values[r], k.value))];
        }
      }
    }
  }

  lemma Regroup(a: seq<Event>, b: seq<Event>, c: seq<Event>)
    ensures a + (b + c) == (a + b) + c
  {
  }

  /** Finds the next run of used records from `r` on: where it starts and how long it is. */
  method NextRun(id: nat, t: TableObject, r: nat) returns (start: nat, n: nat)
    requires t.Valid() && r < |t.State().used|
    ensures r <= start <= start + n <= |t.State().used| && start + n > r
    ensures n == RunLength(t.State().used, start) && (n == 0 ==> start == |t.State().used|)
    ensures RunsFrom(id, t.State(), r) == RunsFrom(id, t.State(), start)
  {
    start := r;
    while start < t.GetSize() && !t.IsUsed(start)
      invariant r <= start <= |t.State().used| && RunsFrom(id, t.State(), r) == RunsFrom(id, t.State(), start)
      decreases |t.State().used| - start
    {
      start := start + 1;
    }
    n := RunAt(t, start);
  }

  method RunAt(t: TableObject, start: nat) returns (n: nat)
    requires t.Valid() && start <= |t.State().used|
    ensures start + n <= |t.State().used| && n == RunLength(t.State().used, start)
    ensures n > 0 <==> Used(t.State(), start)
  {
    n := 0;
    while start + n < t.GetSize() && t.IsUsed(start + n)
      invariant start + n <= |t.State().used| && RunLength(t.State().used, start) == n + RunLength(t.State().used, start + n)
      decreases |t.State().used| - start - n
    {
      n := n + 1;
    }
  }

  method DumpTable(id: nat, t: TableObject) returns (out: seq<Event>)
    requires t.Valid()
    ensures out == RunsFrom(id, t.State(), 0)
  {
    out := [];
    var r := 0;
    while r < t.GetSize()
      invariant r <= |t.State().used| && out + RunsFrom(id, t.State(), r) == RunsFrom(id, t.State(), 0)
      decreases |t.State().used| - r
    {
      var start, n := NextRun(id, t, r);
      if n > 0 {
        RunComesNext(out, id, t.State(), start, n);
        out := DumpFields(id, t, start, n, out + [InsertRun(id, start, n)]);
      }
      r := start + n;
    }
    assert RunsFrom(id, t.State(), r) == [];
  }

  lemma RunComesNext(out: seq<Event>, id: nat, t: Table, r: nat, n: nat)
    requires r < |t.used| && n > 0 && n == RunLength(t.used, r)
    ensures out + RunsFrom(id, t, r) == (out + [InsertRun(id, r, n)] + FieldsFrom(id, t, 1, r, n)) + RunsFrom(id, t, r + n)
  {
    Regroup(out, [InsertRun(id, r, n)], FieldsFrom(id, t, 1, r, n));
    Regroup(out, RunEvents(id, t, r), RunsFrom(id, t, r + n));
  }

  method DumpData(db: Database) returns (out: seq<Event>)
    requires db.Valid()
    ensures out == Dump(db.State())
  {
    out := [];
    var id := 1;
    while id <= db.currentTableId
      invariant 1 <= id && out + TablesFrom(db.State(), id) == Dump(db.State())
      decreases db.currentTableId + 1 - id
    {
      if id in db.tableNames && id in db.tables {
        var events := DumpTable(id, db.tables[id]);
        Regroup(out, events, TablesFrom(db.State(), id + 1));
        out := out + events;
      }
      id := id + 1;
    }
  }

  /**
   Plays the journal into a database and, through the schema filter, into the output; then dumps
   the data. It throws if and only if an event does or there is a blob; an event with an empty
   range of records may throw or not.
   */
  method PackJournal(events: seq<Event>) returns (packed: Option<seq<Event>>)
    ensures packed.Some? ==> packed == Packed(events)
    ensures packed.Some? ==> Replay(EMPTY, events).Some? && PackedAs(events, Replay(EMPTY, events).value, packed.value)
    ensures packed.None? ==> Packed(events).None? || exists i :: 0 <= i < |events| && EmptyRange(events[i])
  {
    var db := new Database();
    var ok, out, blobFound := PlayInto(db, events);
    if !ok || blobFound {
      return None;
    }
    var data := DumpData(db);
    PackedForm(events);
    return Some(out + data);
  }

  method PlayOne(db: Database, e: Event) returns (ok: bool)
    requires db.Valid()
    modifies db, db.repr
    ensures db.Valid() && fresh(db.repr - old(db.repr))
    ensures ok ==> Apply(old(db.State()), e) == Some(db.State())
    ensures !ok ==> Apply(old(db.State()), e).None? || EmptyRange(e)
  {
    ghost var was := db.State();
    db.Expect(e);
    ok := db.Handle(e);
  }

  /** Plays the events into a new database and, through the schema filter, into the output. */
  method PlayInto(db: Database, events: seq<Event>) returns (ok: bool, out: seq<Event>, blobFound: bool)
    requires db.Valid() && db.State() == EMPTY
    modifies db, db.repr
    ensures ok ==> db.Valid() && Replay(EMPTY, events) == Some(db.State()) && out == SchemaOf(events) && blobFound == HasBlob(events)
    ensures !ok ==> Replay(EMPTY, events).None? || exists i :: 0 <= i < |events| && EmptyRange(events[i])
  {
    ok, out, blobFound := true, [], false;
    assert events[0..] == events;
    for i := 0 to |events|
      invariant db.Valid() && fresh(db.repr - old(db.repr))
      invariant Replay(db.State(), events[i..]) == Replay(EMPTY, events)
      invariant out + SchemaOf(events[i..]) == SchemaOf(events)
      invariant blobFound == HasBlob(events[..i])
    {
      NextEvent(events, i, db.State());
      BlobSoFar(events, i);
      ok := PlayOne(db, events[i]);
      if !ok {
        return;
      }
      Regroup(out, if IsSchema(events[i]) then [events[i]] else [], SchemaOf(events[i + 1..]));
      out := out + if IsSchema(events[i]) then [events[i]] else [];
      blobFound := blobFound || events[i].Blob?;
    }
    ok := true;
    assert events[..|events|] == events && events[|events|..] == [];
    assert out == out + [] == SchemaOf(events);
  }

  lemma NextEvent(events: seq<Event>, i: nat, db: Db)
    requires i < |events|
    ensures Replay(db, events[i..]) ==
            match Apply(db, events[i]) { case None => None case Some(db') => Replay(db', events[i + 1..]) }
    ensures SchemaOf(events[i..]) == (if IsSchema(events[i]) then [events[i]] else []) + SchemaOf(events[i + 1..])
  {
    var rest := events[i..];
    assert rest[0] == events[i] && rest[1..] == events[i + 1..];
  }

  lemma BlobSoFar(events: seq<Event>, i: nat)
    requires i < |events|
    ensures HasBlob(events[..i + 1]) <==> HasBlob(events[..i]) || events[i].Blob?
  {
    var a, b := events[..i], events[..i + 1];
    assert b[i] == events[i] && forall j :: 0 <= j < i ==> b[j] == a[j];
  }
}
