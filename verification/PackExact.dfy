/**
 How exact packing is, and that its output can be written: the values come back byte for byte
 unless a boolean that is not 0 or 1 stands alone, and the packed journal survives being written
 to a file and read back.
 */
module PackExact {
  import opened Bytes
  import opened CompactInt
  import opened JournalFormat
  import opened JournalCodec
  import opened JournalReplay
  import opened Tables
  import opened Pack

  // ---------- byte for byte ----------

  predicate EqualValues(c: Column, d: Column, used: seq<bool>) {
    forall i :: 0 <= i < |used| && used[i] && i < |d.values| ==> i < |c.values| && c.values[i] == d.values[i]
  }

  ghost predicate EqualTable(s: Table, t: Table) {
    && SameFields(s, t) && UsedRecords(s) == UsedRecords(t)
    && forall f <- t.fields :: EqualValues(s.fields[f], t.fields[f], t.used)
  }

  /** Same tables, fields, used records, and values of used records. */
  ghost predicate EqualDb(s: Db, t: Db) {
    && s.names == t.names && s.lastTable == t.lastTable && s.tables.Keys == t.tables.Keys
    && forall id <- t.tables :: EqualTable(s.tables[id], t.tables[id])
  }

  /** No record that stands alone among free ones has a boolean other than 0 and 1. */
  predicate Clean(c: Column, used: seq<bool>) {
    forall i :: 0 <= i < |used| && i < |c.values| && Alone(used, i) ==> Rewritten(c, used, i) == c.values[i]
  }

  ghost predicate CleanDb(db: Db) {
    forall id <- db.tables, f <- db.tables[id].fields :: Clean(db.tables[id].fields[f], db.tables[id].used)
  }

  lemma RewrittenOnlyIfBoolean(c: Column, used: seq<bool>, i: nat)
    requires i < |c.values| && Rewritten(c, used, i) != c.values[i]
    ensures KindOfType(c.fieldType) == Some(KBoolean) && c.values[i].VFixed? && |c.values[i].raw| == 1
    ensures Alone(used, i) && c.values[i].raw[0] > 1 && Rewritten(c, used, i) == VFixed([1])
  {
  }

  lemma ColumnExactly(c: Column, d: Column, used: seq<bool>)
    requires SameValues(c, d, used, |used|)
    ensures EqualValues(c, d, used) <==> Clean(d, used)
  {
    if EqualValues(c, d, used) {
      forall i | 0 <= i < |used| && i < |d.values| && Alone(used, i) ensures Rewritten(d, used, i) == d.values[i] {
        assert used[i] && c.values[i] == d.values[i];
      }
    } else {
      var i :| 0 <= i < |used| && used[i] && i < |d.values| && !(i < |c.values| && c.values[i] == d.values[i]);
      assert c.values[i] == Rewritten(d, used, i) != d.values[i];
      RewrittenOnlyIfBoolean(d, used, i);
    }
  }

  lemma TableExactly(s: Table, t: Table)
    requires RepackedTable(s, t)
    ensures EqualTable(s, t) <==> forall f <- t.fields :: Clean(t.fields[f], t.used)
  {
    forall f <- t.fields ensures EqualValues(s.fields[f], t.fields[f], t.used) <==> Clean(t.fields[f], t.used) {
      ColumnExactly(s.fields[f], t.fields[f], t.used);
    }
  }

  /** Packing preserves every value byte for byte if and only if no boolean other than 0 and 1 stands alone. */
  lemma PackIsExactIff(events: seq<Event>)
    requires Replay(EMPTY, events).Some? && !HasBlob(events)
    ensures Packed(events).Some? && Replay(EMPTY, Packed(events).value).Some?
    ensures var db := Replay(EMPTY, events).value;
            EqualDb(Replay(EMPTY, Packed(events).value).value, db) <==> CleanDb(db)
  {
    PackPreserves(events);
    var s, t := Replay(EMPTY, Packed(events).value).value, Replay(EMPTY, events).value;
    forall id <- t.tables
      ensures EqualTable(s.tables[id], t.tables[id]) <==> forall f <- t.tables[id].fields :: Clean(t.tables[id].fields[f], t.tables[id].used)
    {
      TableExactly(s.tables[id], t.tables[id]);
    }
  }

  const STRAY: seq<Event> := [
    CreateTable([97]), AddField(1, [98], FieldType(5, 0)), InsertInto(1, 0), UpdateVector(KBoolean, 1, 0, 1, [VFixed([2])])
  ]

  const EMPTY_TABLE := Table(map[], map[], 0, [])

  /** The one table of that journal, with a column of these values. */
  function StrayTable(values: seq<Value>, used: seq<bool>): Table {
    Table(map[1 := Column(FieldType(5, 0), values)], map[1 := [98]], 1, used)
  }

  function StrayDb(t: Table): Db {
    Db(map[1 := t], map[1 := [97]], 1)
  }

  /** A journal, writable and readable, whose only value is the boolean byte 2 of a record that stands alone. */
  lemma StrayBoolean()
    ensures AllWritable(STRAY) && (forall i :: 0 <= i < |STRAY| ==> Replayable(STRAY[i])) && !HasBlob(STRAY)
    ensures Replay(EMPTY, STRAY).Some? && !CleanDb(Replay(EMPTY, STRAY).value)
  {
    StrayReplays();
    StrayIsNotClean(StrayTable([VFixed([2])], [true]));
    StrayIsWritable();
  }

  lemma StrayIsNotClean(t: Table)
    requires t == StrayTable([VFixed([2])], [true])
    ensures !CleanDb(StrayDb(t))
  {
    assert Alone(t.used, 0) && Rewritten(t.fields[1], t.used, 0) == VFixed([1]);
    assert !Clean(t.fields[1], t.used);
    assert StrayDb(t).tables[1] == t && 1 in StrayDb(t).tables && 1 in t.fields;
  }

  lemma StrayIsWritable()
    ensures AllWritable(STRAY) && (forall i :: 0 <= i < |STRAY| ==> Replayable(STRAY[i])) && !HasBlob(STRAY)
  {
    assert AllHaveKind([VFixed([2])], KBoolean);
  }

  lemma StrayCreated()
    ensures Apply(EMPTY, STRAY[0]) == Some(StrayDb(EMPTY_TABLE))
  {
    assert EMPTY.tables[1 := EMPTY_TABLE] == map[1 := EMPTY_TABLE];
    assert EMPTY.names[1 := [97]] == map[1 := [97]];
  }

  lemma StrayField()
    ensures ApplyTo(EMPTY_TABLE, STRAY[1]) == Some(StrayTable([], []))
  {
    var c := Column(FieldType(5, 0), []);
    assert NewColumn(FieldType(5, 0), 0).values == [];
    assert EMPTY_TABLE.fields[1 := c] == map[1 := c];
  }

  lemma StrayInserted()
    ensures ApplyTo(StrayTable([], []), STRAY[2]) == Some(StrayTable([VFixed([0])], [true]))
  {
    var t := StrayTable([], []);
    assert Zeros(1) == [0];
    assert GrowColumn(t.fields[1], 1).values == [VFixed([0])];
    assert Grow(t, 1).fields == StrayTable([VFixed([0])], [true]).fields;
    assert Mark(GrowUsed([], 1), 0, 1, true) == [true];
  }

  lemma StrayUpdated()
    ensures ApplyTo(StrayTable([VFixed([0])], [true]), STRAY[3]) == Some(StrayTable([VFixed([2])], [true]))
  {
    var t := StrayTable([VFixed([0])], [true]);
    var c := Column(FieldType(5, 0), [VFixed([2])]);
    assert Splice([VFixed([0])], 0, [VFixed([2])]) == [VFixed([2])];
    assert t.fields[1 := c] == map[1 := c];
  }

  lemma StrayStep(t: Table, e: Event, u: Table)
    requires OfTable(e) && e.table == 1 && ApplyTo(t, e) == Some(u)
    ensures Apply(StrayDb(t), e) == Some(StrayDb(u))
  {
    assert map[1 := t][1 := u] == map[1 := u];
  }

  lemma StrayReplays()
    ensures Replay(EMPTY, STRAY) == Some(StrayDb(StrayTable([VFixed([2])], [true])))
  {
    StrayCreated();
    StrayField();
    StrayInserted();
    StrayUpdated();
    var t1, t2, t3 := StrayTable([], []), StrayTable([VFixed([0])], [true]), StrayTable([VFixed([2])], [true]);
    StrayStep(EMPTY_TABLE, STRAY[1], t1);
    StrayStep(t1, STRAY[2], t2);
    StrayStep(t2, STRAY[3], t3);
    FourEvents(STRAY, EMPTY, StrayDb(EMPTY_TABLE), StrayDb(t1), StrayDb(t2), StrayDb(t3));
  }

  lemma FourEvents(es: seq<Event>, a: Db, b: Db, c: Db, d: Db, e: Db)
    requires |es| == 4 && Apply(a, es[0]) == Some(b) && Apply(b, es[1]) == Some(c) && Apply(c, es[2]) == Some(d) && Apply(d, es[3]) == Some(e)
    ensures Replay(a, es) == Some(e)
  {
    assert es[1..][1..] == es[2..] && es[2..][1..] == es[3..] && es[3..][1..] == [];
    assert Replay(d, es[3..]) == Some(e);
    assert Replay(c, es[2..]) == Some(e);
    assert Replay(b, es[1..]) == Some(e);
  }

  // ---------- what is dumped can be written ----------

  ghost predicate ColumnKind(c: Column) {
    KindOfType(c.fieldType).Some? ==> AllHaveKind(c.values, KindOfType(c.fieldType).value)
  }

  ghost predicate TypedTable(t: Table) {
    t.lastField <= MAX_ID && forall f <- t.fields :: ColumnKind(t.fields[f])
  }

  /** Every value has the type of its field, and ids have 16 bits. */
  ghost predicate Typed(db: Db) {
    db.lastTable <= MAX_ID && forall id <- db.tables :: TypedTable(db.tables[id])
  }

  lemma DefaultHasKind(k: Kind)
    ensures HasKind(Default(k), k)
  {
  }

  lemma SingleHasKind(v: Value, k: Kind)
    requires HasKind(v, k)
    ensures HasKind(Single(v, k), k) && Single(Single(v, k), k) == Single(v, k)
  {
  }

  lemma GrowTyped(t: Table, n: nat)
    requires TypedTable(t)
    ensures TypedTable(Grow(t, n))
  {
    forall f <- t.fields ensures ColumnKind(GrowColumn(t.fields[f], n)) {
      var c := t.fields[f];
      if KindOfType(c.fieldType).Some? {
        DefaultHasKind(KindOfType(c.fieldType).value);
      }
    }
  }

  lemma UpdateTyped(t: Table, k: Kind, r: int, f: nat, vs: seq<Value>)
    requires TypedTable(t) && AllHaveKind(vs, k) && UpdateFields(t, k, r, f, vs).Some?
    ensures TypedTable(UpdateFields(t, k, r, f, vs).value)
  {
    var u := UpdateFields(t, k, r, f, vs).value;
    forall g <- u.fields ensures ColumnKind(u.fields[g]) {
      assert ColumnKind(t.fields[g]);
    }
  }

  lemma AddFieldTyped(t: Table, name: seq<byte>, ft: FieldType)
    requires TypedTable(t) && Tables.AddField(t, name, ft).Some?
    ensures TypedTable(Tables.AddField(t, name, ft).value)
  {
    if KindOfType(ft).Some? {
      DefaultHasKind(KindOfType(ft).value);
    }
    assert ColumnKind(NewColumn(ft, |t.used|));
  }

  lemma TableStaysTyped(t: Table, e: Event)
    requires TypedTable(t) && Writable(e) && ApplyTo(t, e).Some?
    ensures TypedTable(ApplyTo(t, e).value)
  {
    if e.AddField? {
      AddFieldTyped(t, e.name, e.fieldType);
    } else if e.InsertInto? {
      GrowTyped(t, e.record + 1);
    } else if e.InsertVector? {
      GrowTyped(t, e.record + e.count);
    } else if e.Update? {
      SingleHasKind(e.value, e.kind);
      UpdateTyped(t, e.kind, e.record, e.field, [Single(e.value, e.kind)]);
    } else if e.UpdateVector? {
      UpdateTyped(t, e.kind, e.record, e.field, e.values);
    }
  }

  lemma StaysTyped(db: Db, e: Event)
    requires Typed(db) && Writable(e) && Apply(db, e).Some?
    ensures Typed(Apply(db, e).value)
  {
    if OfTable(e) {
      TableStaysTyped(db.tables[e.table], e);
    }
  }

  lemma {:induction false} ReplayStaysTyped(db: Db, events: seq<Event>)
    requires Typed(db) && AllWritable(events) && Replay(db, events).Some?
    ensures Typed(Replay(db, events).value)
    decreases |events|
  {
    if events != [] {
      StaysTyped(db, events[0]);
      ReplayStaysTyped(Apply(db, events[0]).value, events[1..]);
    }
  }

  /** An event that can be written, is read back, and is delivered. */
  ghost predicate Sound(e: Event) {
    Writable(e) && Replayable(e) && !Dropped(e, false) && !e.Blob?
  }

  ghost predicate AllSound(events: seq<Event>) {
    forall i :: 0 <= i < |events| ==> Sound(events[i])
  }

  lemma FieldSound(id: nat, t: Table, f: nat, r: nat, n: nat)
    requires IsId(id) && TypedTable(t) && f <= t.lastField && r + n < MAX
    ensures AllSound(FieldEvents(id, t, f, r, n))
  {
    if f in t.fields && KindOfType(t.fields[f].fieldType).Some? && r + n <= |t.fields[f].values| && n == 1 {
      assert ColumnKind(t.fields[f]);
      SingleHasKind(t.fields[f].values[r], KindOfType(t.fields[f].fieldType).value);
    }
  }

  lemma {:induction false} FieldsSound(id: nat, t: Table, f: nat, r: nat, n: nat)
    requires IsId(id) && TypedTable(t) && r + n < MAX
    ensures AllSound(FieldsFrom(id, t, f, r, n))
    decreases t.lastField + 1 - f
  {
    if f <= t.lastField {
      FieldSound(id, t, f, r, n);
      FieldsSound(id, t, f + 1, r, n);
    }
  }

  lemma {:induction false} RunsSound(id: nat, t: Table, r: nat)
    requires IsId(id) && TypedTable(t) && |t.used| < MAX
    ensures AllSound(RunsFrom(id, t, r))
    decreases |t.used| - r
  {
    if r < |t.used| {
      if t.used[r] {
        var n := RunLength(t.used, r);
        FieldsSound(id, t, 1, r, n);
        RunsSound(id, t, r + n);
      } else {
        RunsSound(id, t, r + 1);
      }
    }
  }

  /** No table has 2^61 records. */
  ghost predicate Bounded(db: Db) {
    forall id <- db.tables :: |db.tables[id].used| < MAX
  }

  lemma {:induction false} TablesSound(db: Db, id: nat)
    requires Typed(db) && Bounded(db)
    ensures AllSound(TablesFrom(db, id))
    decreases db.lastTable + 1 - id
  {
    if id <= db.lastTable {
      if id in db.tables {
        RunsSound(id, db.tables[id], 0);
      }
      TablesSound(db, id + 1);
    }
  }

  lemma {:induction false} SchemaSound(events: seq<Event>)
    requires AllWritable(events)
    ensures AllSound(SchemaOf(events))
  {
    if events != [] {
      SchemaSound(events[1..]);
    }
  }

  lemma {:induction false} SoundIsKept(events: seq<Event>)
    requires AllSound(events)
    ensures AllWritable(events) && Kept(events, false) == events
  {
    if events != [] {
      SoundIsKept(events[1..]);
      assert events == [events[0]] + events[1..];
      assert Sound(events[0]);
    }
  }

  /** The packed events can all be written, and the reader refuses and drops none of them. */
  lemma PackedIsSound(events: seq<Event>)
    requires AllWritable(events) && Packed(events).Some? && Bounded(Replay(EMPTY, events).value)
    ensures AllSound(Packed(events).value)
  {
    var db := Replay(EMPTY, events).value;
    ReplayStaysTyped(EMPTY, events);
    TablesSound(db, 1);
    SchemaSound(events);
  }

  /**
   From journal to journal: when the packed events are written to a new file and the file is read
   back, the database that results is the original one as packing rewrites it.
   */
  lemma PackedFileReplays(header: seq<byte>, events: seq<Event>)
    requires |header| == START && AllWritable(events) && Packed(events).Some? && Bounded(Replay(EMPTY, events).value)
    ensures AllWritable(Packed(events).value)
    ensures var f := header + Log(Packed(events).value, RESET);
            var play := Play(f, START, RESET, |f|, |f|, false);
            && play.Played? && Operations(play.delivered) == Packed(events).value
            && var db := Replay(EMPTY, Operations(play.delivered));
            db.Some? && RepackedDb(db.value, Replay(EMPTY, events).value)
  {
    var packed := Packed(events).value;
    PackedIsSound(events);
    SoundIsKept(packed);
    JournalRoundTrip(header, packed, false);
    PackPreserves(events);
  }
}
