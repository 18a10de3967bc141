/**
 What each event of a journal does to the database, told by what can be observed afterwards: names,
 types, used records and single values. Everything that an event does not mention stays.
 */
module Effects {
  import opened Bytes
  import opened JournalFormat
  import opened JournalCodec
  import opened Tables

  // ---------- tables ----------

  /** The tables other than `id` are as they were. */
  ghost predicate OtherTables(db: Db, u: Db, id: nat) {
    && (forall k :: k != id ==> (k in u.tables <==> k in db.tables) && (k in u.names <==> k in db.names))
    && (forall k <- db.tables :: k != id ==> u.tables[k] == db.tables[k])
    && (forall k <- db.names :: k != id ==> u.names[k] == db.names[k])
  }

  ghost predicate Free(names: map<nat, seq<byte>>, name: seq<byte>) {
    forall id <- names :: names[id] != name
  }

  /** The next id has a table of that name, without fields or records. */
  ghost predicate TableCreated(db: Db, name: seq<byte>, u: Db) {
    var id := db.lastTable + 1;
    && u.lastTable == id && id in u.tables && id in u.names && u.names[id] == name
    && u.tables[id].fields.Keys == {} && u.tables[id].names.Keys == {} && u.tables[id].used == [] && u.tables[id].lastField == 0
    && OtherTables(db, u, id)
  }

  ghost predicate TableGone(db: Db, id: nat, u: Db) {
    id !in u.tables && id !in u.names && u.lastTable == db.lastTable && OtherTables(db, u, id)
  }

  ghost predicate TableRenamed(db: Db, id: nat, name: seq<byte>, u: Db) {
    && id in u.names && u.names[id] == name && id in u.tables && id in db.tables && u.tables[id] == db.tables[id]
    && u.lastTable == db.lastTable && OtherTables(db, u, id)
  }

  // ---------- one table ----------

  /** The fields other than `f` are as they were, and so are the records. */
  ghost predicate OtherFields(t: Table, u: Table, f: nat) {
    && u.used == t.used
    && (forall k :: k != f ==> (k in u.fields <==> k in t.fields) && (k in u.names <==> k in t.names))
    && (forall k <- t.fields :: k != f ==> u.fields[k] == t.fields[k])
    && (forall k <- t.names :: k != f ==> u.names[k] == t.names[k])
  }

  /** A value for every record from `from` on, all of them the default one. */
  ghost predicate DefaultsFrom(c: Column, from: nat, n: nat) {
    var k := KindOfType(c.fieldType);
    && |c.values| == (if k.Some? then n else 0)
    && (k.Some? ==> forall i :: from <= i < n ==> c.values[i] == Default(k.value))
  }

  ghost predicate FieldAdded(t: Table, name: seq<byte>, ft: FieldType, u: Table) {
    var f := t.lastField + 1;
    && u.lastField == f && f in u.fields && f in u.names && u.names[f] == name
    && u.fields[f].fieldType == ft && DefaultsFrom(u.fields[f], 0, |t.used|)
    && OtherFields(t, u, f)
  }

  ghost predicate FieldGone(t: Table, f: nat, u: Table) {
    f !in u.fields && f !in u.names && u.lastField == t.lastField && OtherFields(t, u, f)
  }

  ghost predicate FieldRenamed(t: Table, f: nat, name: seq<byte>, u: Table) {
    && f in u.names && u.names[f] == name && f in u.fields && f in t.fields && u.fields[f] == t.fields[f]
    && u.lastField == t.lastField && OtherFields(t, u, f)
  }

  /** Only records have changed. */
  predicate SameSchema(t: Table, u: Table) {
    && u.names == t.names && u.lastField == t.lastField && u.fields.Keys == t.fields.Keys
    && forall f <- t.fields :: u.fields[f].fieldType == t.fields[f].fieldType
  }

  /** Every record that existed has the values it had. */
  predicate SameValues(t: Table, u: Table)
    requires t.fields.Keys == u.fields.Keys
  {
    forall f <- t.fields :: t.fields[f].values <= u.fields[f].values
  }

  /** Exactly the records of the range become used; the table grows no further than to hold them, and new records have default values. */
  ghost predicate RecordsInserted(t: Table, r: int, n: nat, u: Table) {
    && SameSchema(t, u) && SameValues(t, u)
    && (forall i: int :: Used(u, i) <==> Used(t, i) || r <= i < r + n)
    && |u.used| == (if n > 0 && r + n > |t.used| then r + n else |t.used|)
    && (forall f <- u.fields :: DefaultsFrom(u.fields[f], |t.used|, |u.used|))
  }

  /** Exactly the records of the range become free, and keep their values. */
  ghost predicate RecordsDeleted(t: Table, r: int, n: nat, u: Table) {
    && u.fields == t.fields && u.names == t.names && u.lastField == t.lastField && |u.used| == |t.used|
    && (forall i: int :: Used(u, i) <==> Used(t, i) && !(r <= i < r + n))
  }

  /** Exactly the values of these records in this field change, to the given ones. */
  ghost predicate ValuesUpdated(t: Table, r: int, f: nat, vs: seq<Value>, u: Table) {
    && f in t.fields && f in u.fields && u.fields[f].fieldType == t.fields[f].fieldType
    && |u.fields[f].values| == |t.fields[f].values| && u.names == t.names && u.lastField == t.lastField
    && (forall i :: 0 <= i < |t.fields[f].values| ==>
          u.fields[f].values[i] == if r <= i < r + |vs| then vs[i - r] else t.fields[f].values[i])
    && OtherFields(t, u, f)
  }

  // ---------- one event ----------

  /** When a table accepts an event that names it. */
  ghost predicate TableAllows(t: Table, e: Event) {
    match e
    case AddField(_, name, _) => IsIdentifier(name) && Free(t.names, name) && t.lastField != 65535
    case DropField(_, f) => f in t.fields
    case RenameField(_, f, name) => IsIdentifier(name) && Free(t.names, name) && f in t.fields
    case InsertInto(_, r) => r >= 0 && !Used(t, r)
    case InsertVector(_, r, n) => r >= 0 && forall i: int :: r <= i < r + n ==> !Used(t, i)
    case DeleteFrom(_, r) => Used(t, r)
    case DeleteVector(_, r, n) => r >= 0 && forall i: int :: r <= i < r + n ==> Used(t, i)
    case Update(k, _, r, f, _) => f in t.fields && Used(t, r) && KindOfType(t.fields[f].fieldType) == Some(k)
    case UpdateVector(k, _, r, f, vs) =>
      f in t.fields && (vs == [] || (Used(t, r) && Used(t, r + |vs| - 1) && KindOfType(t.fields[f].fieldType) == Some(k)))
    case _ => true
  }

  /** What it then makes of it. */
  ghost predicate TableBecomes(t: Table, e: Event, u: Table) {
    match e
    case AddField(_, name, ft) => FieldAdded(t, name, ft, u)
    case DropField(_, f) => FieldGone(t, f, u)
    case RenameField(_, f, name) => FieldRenamed(t, f, name, u)
    case InsertInto(_, r) => RecordsInserted(t, r, 1, u)
    case InsertVector(_, r, n) => RecordsInserted(t, r, n, u)
    case DeleteFrom(_, r) => RecordsDeleted(t, r, 1, u)
    case DeleteVector(_, r, n) => RecordsDeleted(t, r, n, u)
    case Update(k, _, r, f, v) => ValuesUpdated(t, r, f, [Single(v, k)], u)
    case UpdateVector(_, _, r, f, vs) => ValuesUpdated(t, r, f, vs, u)
    case _ => u == t
  }

  ghost predicate Allows(db: Db, e: Event) {
    if OfTable(e) then e.table in db.tables && TableAllows(db.tables[e.table], e)
    else
      match e
      case CreateTable(name) => IsIdentifier(name) && Free(db.names, name) && db.lastTable != 65535
      case DropTable(id) => id in db.tables
      case RenameTable(id, name) => IsIdentifier(name) && Free(db.names, name) && id in db.tables
      case _ => true
  }

  /** The event changes its own table only. */
  ghost predicate OneTableBecomes(db: Db, id: nat, e: Event, u: Db) {
    && u.names == db.names && u.lastTable == db.lastTable && OtherTables(db, u, id)
    && id in db.tables && id in u.tables && TableBecomes(db.tables[id], e, u.tables[id])
  }

  ghost predicate Becomes(db: Db, e: Event, u: Db) {
    if OfTable(e) then OneTableBecomes(db, e.table, e, u)
    else
      match e
      case CreateTable(name) => TableCreated(db, name, u)
      case DropTable(id) => TableGone(db, id, u)
      case RenameTable(id, name) => TableRenamed(db, id, name, u)
      case _ => u == db
  }

  // ---------- the database does this, and only this ----------

  lemma FreeIsUnused(names: map<nat, seq<byte>>, name: seq<byte>)
    ensures Free(names, name) <==> !NameUsed(names, name)
  {
  }

  lemma AddsField(t: Table, e: Event)
    requires ValidTable(t) && e.AddField?
    ensures TableAllows(t, e) <==> ApplyTo(t, e).Some?
    ensures TableAllows(t, e) ==> TableBecomes(t, e, ApplyTo(t, e).value)
  {
    FreeIsUnused(t.names, e.name);
  }

  lemma ChangesField(t: Table, e: Event)
    requires ValidTable(t) && (e.DropField? || e.RenameField?)
    ensures TableAllows(t, e) <==> ApplyTo(t, e).Some?
    ensures TableAllows(t, e) ==> TableBecomes(t, e, ApplyTo(t, e).value)
  {
    if e.RenameField? {
      FreeIsUnused(t.names, e.name);
    }
  }

  lemma RangeFreeOrUsed(t: Table, r: int, n: nat)
    ensures AllFree(t.used, r, n) <==> r >= 0 && forall i: int :: r <= i < r + n ==> !Used(t, i)
    ensures AllUsed(t.used, r, n) <==> r >= 0 && forall i: int :: r <= i < r + n ==> Used(t, i)
  {
    assert forall i: int :: Used(t, i) <==> UsedAt(t.used, i);
    if forall i: int :: r <= i < r + n ==> !Used(t, i) {
      forall i: int | r <= i < r + n ensures !UsedAt(t.used, i) {
        assert !Used(t, i);
      }
    }
    if forall i: int :: r <= i < r + n ==> Used(t, i) {
      forall i: int | r <= i < r + n ensures UsedAt(t.used, i) {
        assert Used(t, i);
      }
    }
  }

  lemma InsertInserts(t: Table, r: nat, n: nat)
    requires ValidTable(t)
    ensures RecordsInserted(t, r, n, Insert(t, r, n))
  {
  }

  lemma InsertsRecords(t: Table, e: Event)
    requires ValidTable(t) && (e.InsertInto? || e.InsertVector?)
    ensures TableAllows(t, e) <==> ApplyTo(t, e).Some?
    ensures TableAllows(t, e) ==> TableBecomes(t, e, ApplyTo(t, e).value)
  {
    var n := if e.InsertInto? then 1 else e.count;
    RangeFreeOrUsed(t, e.record, n);
    if e.record >= 0 {
      InsertInserts(t, e.record, n);
    }
  }

  lemma DeletesRecords(t: Table, e: Event)
    requires ValidTable(t) && (e.DeleteFrom? || e.DeleteVector?)
    ensures TableAllows(t, e) <==> ApplyTo(t, e).Some?
    ensures TableAllows(t, e) ==> TableBecomes(t, e, ApplyTo(t, e).value)
  {
    var n := if e.DeleteFrom? then 1 else e.count;
    RangeFreeOrUsed(t, e.record, n);
  }

  lemma UpdatesValues(t: Table, e: Event)
    requires ValidTable(t) && (e.Update? || e.UpdateVector?)
    ensures TableAllows(t, e) <==> ApplyTo(t, e).Some?
    ensures TableAllows(t, e) ==> TableBecomes(t, e, ApplyTo(t, e).value)
  {
  }

  lemma TableBecomesSo(t: Table, e: Event)
    requires ValidTable(t)
    ensures TableAllows(t, e) <==> ApplyTo(t, e).Some?
    ensures TableAllows(t, e) ==> TableBecomes(t, e, ApplyTo(t, e).value)
  {
    if e.AddField? {
      AddsField(t, e);
    } else if e.DropField? || e.RenameField? {
      ChangesField(t, e);
    } else if e.InsertInto? || e.InsertVector? {
      InsertsRecords(t, e);
    } else if e.DeleteFrom? || e.DeleteVector? {
      DeletesRecords(t, e);
    } else if e.Update? || e.UpdateVector? {
      UpdatesValues(t, e);
    }
  }

  lemma TableEventDoesSo(db: Db, e: Event)
    requires Valid(db) && OfTable(e)
    ensures Allows(db, e) <==> Apply(db, e).Some?
    ensures Allows(db, e) ==> Becomes(db, e, Apply(db, e).value)
  {
    if e.table in db.tables {
      TableBecomesSo(db.tables[e.table], e);
    }
  }

  lemma NamingDoesSo(db: Db, e: Event)
    requires Valid(db) && (e.CreateTable? || e.DropTable? || e.RenameTable?)
    ensures Allows(db, e) <==> Apply(db, e).Some?
    ensures Allows(db, e) ==> Becomes(db, e, Apply(db, e).value)
  {
    if !e.DropTable? {
      FreeIsUnused(db.names, e.name);
    }
  }

  /** An event throws exactly when it is not allowed, and otherwise does what it should. */
  lemma EventDoesSo(db: Db, e: Event)
    requires Valid(db)
    ensures Allows(db, e) <==> Apply(db, e).Some?
    ensures Allows(db, e) ==> Becomes(db, e, Apply(db, e).value)
  {
    if OfTable(e) {
      TableEventDoesSo(db, e);
    } else if e.CreateTable? || e.DropTable? || e.RenameTable? {
      NamingDoesSo(db, e);
    }
  }

  // ---------- and nothing else ----------

  lemma SameOtherFields(t: Table, u: Table, v: Table, f: nat)
    requires OtherFields(t, u, f) && OtherFields(t, v, f) && u.lastField == v.lastField
    requires f in u.fields <==> f in v.fields
    requires f in u.names <==> f in v.names
    requires f in u.fields ==> u.fields[f] == v.fields[f]
    requires f in u.names ==> u.names[f] == v.names[f]
    ensures u == v
  {
    assert u.fields == v.fields && u.names == v.names;
  }

  lemma FieldEventIs(t: Table, e: Event, u: Table)
    requires ValidTable(t) && (e.AddField? || e.DropField? || e.RenameField?) && TableAllows(t, e) && TableBecomes(t, e, u)
    ensures ApplyTo(t, e) == Some(u)
  {
    TableBecomesSo(t, e);
    var v := ApplyTo(t, e).value;
    if e.AddField? {
      AddedColumn(u.fields[v.lastField], v.fields[v.lastField], |t.used|);
      SameOtherFields(t, u, v, v.lastField);
    } else {
      SameOtherFields(t, u, v, e.field);
    }
  }

  lemma AddedColumn(a: Column, b: Column, n: nat)
    requires a.fieldType == b.fieldType && DefaultsFrom(a, 0, n) && DefaultsFrom(b, 0, n)
    ensures a == b
  {
    assert a.values == b.values;
  }

  lemma RecordEventIs(t: Table, e: Event, u: Table)
    requires ValidTable(t) && (e.InsertInto? || e.InsertVector? || e.DeleteFrom? || e.DeleteVector?)
    requires TableAllows(t, e) && TableBecomes(t, e, u)
    ensures ApplyTo(t, e) == Some(u)
  {
    TableBecomesSo(t, e);
    var v := ApplyTo(t, e).value;
    SameFlags(u, v);
    if e.InsertInto? || e.InsertVector? {
      InsertedColumns(t, u, v);
    }
  }

  lemma SameFlags(u: Table, v: Table)
    requires |u.used| == |v.used| && forall i: int :: Used(u, i) <==> Used(v, i)
    ensures u.used == v.used
  {
    forall i | 0 <= i < |u.used| ensures u.used[i] == v.used[i] {
      assert Used(u, i) <==> Used(v, i);
    }
  }

  lemma InsertedColumns(t: Table, u: Table, v: Table)
    requires SameSchema(t, u) && SameSchema(t, v) && SameValues(t, u) && SameValues(t, v) && |u.used| == |v.used|
    requires ValidTable(t)
    requires forall f <- u.fields :: DefaultsFrom(u.fields[f], |t.used|, |u.used|)
    requires forall f <- v.fields :: DefaultsFrom(v.fields[f], |t.used|, |u.used|)
    ensures u.fields == v.fields
  {
    forall f <- t.fields ensures u.fields[f] == v.fields[f] {
      var a, b, c := u.fields[f], v.fields[f], t.fields[f];
      assert DefaultsFrom(a, |t.used|, |u.used|) && DefaultsFrom(b, |t.used|, |u.used|) && ValidColumn(c, |t.used|);
      assert a.values[..|c.values|] == b.values[..|c.values|];
      assert a.values == b.values;
    }
  }

  lemma UpdateIs(t: Table, e: Event, u: Table)
    requires ValidTable(t) && (e.Update? || e.UpdateVector?) && TableAllows(t, e) && TableBecomes(t, e, u)
    ensures ApplyTo(t, e) == Some(u)
  {
    TableBecomesSo(t, e);
    var v := ApplyTo(t, e).value;
    assert u.fields[e.field].values == v.fields[e.field].values;
    assert u.fields == v.fields;
  }

  lemma TableEventIs(t: Table, e: Event, u: Table)
    requires ValidTable(t) && OfTable(e) && TableAllows(t, e) && TableBecomes(t, e, u)
    ensures ApplyTo(t, e) == Some(u)
  {
    if e.AddField? || e.DropField? || e.RenameField? {
      FieldEventIs(t, e, u);
    } else if e.Update? || e.UpdateVector? {
      UpdateIs(t, e, u);
    } else {
      RecordEventIs(t, e, u);
    }
  }

  lemma SameOthers(db: Db, u: Db, v: Db, id: nat)
    requires OtherTables(db, u, id) && OtherTables(db, v, id) && u.lastTable == v.lastTable
    requires id in u.tables <==> id in v.tables
    requires id in u.names <==> id in v.names
    requires id in u.tables ==> u.tables[id] == v.tables[id]
    requires id in u.names ==> u.names[id] == v.names[id]
    ensures u == v
  {
    assert u.tables == v.tables && u.names == v.names;
  }

  /** What an event should do determines the database: it does exactly that. */
  lemma EventDoesOnlyThat(db: Db, e: Event, u: Db)
    requires Valid(db) && Allows(db, e) && Becomes(db, e, u)
    ensures Apply(db, e) == Some(u)
  {
    EventDoesSo(db, e);
    var v := Apply(db, e).value;
    if OfTable(e) {
      TableEventIs(db.tables[e.table], e, u.tables[e.table]);
      SameOthers(db, u, v, e.table);
    } else if e.CreateTable? {
      SameOthers(db, u, v, db.lastTable + 1);
    } else if e.DropTable? || e.RenameTable? {
      SameOthers(db, u, v, e.table);
    }
  }
}
