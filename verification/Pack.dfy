/**
 Packing a journal: its schema events, then the data that the database holds at the end. Replaying
 the packed journal gives the same tables, fields, used records, and values of used records.
 */
module Pack {
  import opened Bytes
  import opened JournalFormat
  import opened JournalCodec
  import opened Tables

  // ---------- what is dumped ----------

  /** The number of used records from `r` on. */
  function RunLength(used: seq<bool>, r: nat): (n: nat)
    ensures r <= |used| ==> r + n <= |used|
    ensures forall i :: r <= i < r + n && i < |used| ==> used[i]
    ensures r + n < |used| ==> !used[r + n]
    decreases |used| - r
  {
    if r < |used| && used[r] then 1 + RunLength(used, r + 1) else 0
  }

  /** The update of one field for a run of records; a field without a column has none. */
  function FieldEvents(id: nat, t: Table, f: nat, r: nat, n: nat): seq<Event> {
    if f !in t.names || f !in t.fields then []
    else
      var c := t.fields[f];
      match KindOfType(c.fieldType)
      case None => []
      case Some(k) =>
        if r + n > |c.values| || n == 0 then []
        else if n > 1 then [UpdateVector(k, id, r, f, c.values[r..r + n])]
        else [Update(k, id, r, f, Single(c.values[r], k))]
  }

  /** `n` used records from `r` on, and no more. */
  predicate IsRun(used: seq<bool>, r: nat, n: nat) {
    && n > 0 && r + n <= |used| && (forall i :: r <= i < r + n ==> used[i])
    && !UsedAt(used, r - 1) && !UsedAt(used, r + n)
  }

  /** A used record between free ones: its values are updated one at a time. */
  predicate Alone(used: seq<bool>, i: int) {
    UsedAt(used, i) && !UsedAt(used, i - 1) && !UsedAt(used, i + 1)
  }

  /** What packing makes of a value: a boolean that is updated alone goes through `bool`. */
  function Rewritten(c: Column, used: seq<bool>, i: nat): Value
    requires i < |c.values|
  {
    match KindOfType(c.fieldType)
    case None => c.values[i]
    case Some(k) => if Alone(used, i) then Single(c.values[i], k) else c.values[i]
  }

  /** The values of a run as they are emitted. */
  function Emitted(c: Column, k: Kind, r: nat, n: nat): (vs: seq<Value>)
    requires r + n <= |c.values|
    ensures |vs| == n
  {
    if n == 1 then [Single(c.values[r], k)] else c.values[r..r + n]
  }

  /** Fields from `f` on, in the order of their ids. */
  function FieldsFrom(id: nat, t: Table, f: nat, r: nat, n: nat): seq<Event>
    decreases t.lastField + 1 - f
  {
    if f > t.lastField then [] else FieldEvents(id, t, f, r, n) + FieldsFrom(id, t, f + 1, r, n)
  }

  function InsertRun(id: nat, r: nat, n: nat): Event {
    if n > 1 then InsertVector(id, r, n) else InsertInto(id, r)
  }

  /** The run of used records that starts at `r`: they are inserted, then given their values. */
  function RunEvents(id: nat, t: Table, r: nat): seq<Event> {
    var n := RunLength(t.used, r);
    [InsertRun(id, r, n)] + FieldsFrom(id, t, 1, r, n)
  }

  /** Records from `r` on, run by run. */
  function RunsFrom(id: nat, t: Table, r: nat): seq<Event>
    decreases |t.used| - r
  {
    if r >= |t.used| then []
    else if !t.used[r] then RunsFrom(id, t, r + 1)
    else
      RunEvents(id, t, r) + RunsFrom(id, t, r + RunLength(t.used, r))
  }

  function TablesFrom(db: Db, id: nat): seq<Event>
    decreases db.lastTable + 1 - id
  {
    if id > db.lastTable then []
    else TableEvents(db, id) + TablesFrom(db, id + 1)
  }

  function TableEvents(db: Db, id: nat): seq<Event> {
    if id in db.names && id in db.tables then RunsFrom(id, db.tables[id], 0) else []
  }

  function Dump(db: Db): seq<Event> {
    TablesFrom(db, 1)
  }

  predicate IsSchema(e: Event) {
    e.CreateTable? || e.DropTable? || e.RenameTable? || e.AddField? || e.DropField? || e.RenameField? || e.Custom?
  }

  function SchemaOf(events: seq<Event>): seq<Event> {
    if events == [] then []
    else (if IsSchema(events[0]) then [events[0]] else []) + SchemaOf(events[1..])
  }

  predicate HasBlob(events: seq<Event>) {
    exists i :: 0 <= i < |events| && events[i].Blob?
  }

  /** The packed journal; `None` if the journal cannot be replayed or has blobs. */
  function Packed(events: seq<Event>): Option<seq<Event>> {
    match Replay(EMPTY, events)
    case None => None
    case Some(db) => if HasBlob(events) then None else Some(SchemaOf(events) + Dump(db))
  }

  // ---------- the schema ----------

  function StripTable(t: Table): Table {
    t.(fields := map f | f in t.fields :: t.fields[f].(values := []), used := [])
  }

  /** The same tables and fields without any record. */
  function Strip(db: Db): Db {
    db.(tables := map id | id in db.tables :: StripTable(db.tables[id]))
  }

  lemma StripGrown(t: Table, n: nat)
    ensures StripTable(Grow(t, n)) == StripTable(t)
  {
    assert StripTable(Grow(t, n)).fields == StripTable(t).fields;
  }

  lemma StripUpdated(t: Table, k: Kind, r: int, f: nat, vs: seq<Value>)
    requires UpdateFields(t, k, r, f, vs).Some?
    ensures StripTable(UpdateFields(t, k, r, f, vs).value) == StripTable(t)
  {
    assert StripTable(UpdateFields(t, k, r, f, vs).value).fields == StripTable(t).fields;
  }

  lemma StripData(t: Table, e: Event)
    requires ApplyTo(t, e).Some? && !IsSchema(e)
    ensures StripTable(ApplyTo(t, e).value) == StripTable(t)
  {
    match e
    case InsertInto(_, r) => StripGrown(t, r + 1);
    case InsertVector(_, r, n) => StripGrown(t, r + n);
    case Update(k, _, r, f, v) => StripUpdated(t, k, r, f, [v]);
    case UpdateVector(k, _, r, f, vs) => StripUpdated(t, k, r, f, vs);
    case _ =>
  }

  lemma StripSchema(t: Table, e: Event)
    requires ApplyTo(t, e).Some? && IsSchema(e)
    ensures ApplyTo(StripTable(t), e) == Some(StripTable(ApplyTo(t, e).value))
  {
    var s, t' := StripTable(t), ApplyTo(t, e).value;
    if e.AddField? {
      var c := NewColumn(e.fieldType, 0);
      assert c.values == [];
      assert StripTable(t').fields == s.fields[t'.lastField := c];
    } else if e.DropField? {
      assert StripTable(t').fields == s.fields - {e.field};
    } else {
      assert StripTable(t').fields == s.fields;
    }
  }

  lemma StripOne(db: Db, id: nat, t: Table)
    requires id in db.tables
    ensures Strip(db).tables[id] == StripTable(db.tables[id])
    ensures Strip(db.(tables := db.tables[id := t])).tables == Strip(db).tables[id := StripTable(t)]
    ensures StripTable(t) == StripTable(db.tables[id]) ==> Strip(db).tables[id := StripTable(t)] == Strip(db).tables
  {
  }

  /** Schema events do to the schema what they do to the database; the others do nothing to it. */
  lemma StripStep(db: Db, e: Event)
    requires Apply(db, e).Some?
    ensures if IsSchema(e) then Apply(Strip(db), e) == Some(Strip(Apply(db, e).value))
            else Strip(Apply(db, e).value) == Strip(db)
  {
    var s, db' := Strip(db), Apply(db, e).value;
    if OfTable(e) {
      if IsSchema(e) {
        StripSchema(db.tables[e.table], e);
      } else {
        StripData(db.tables[e.table], e);
      }
      StripOne(db, e.table, db'.tables[e.table]);
    } else if e.CreateTable? {
      assert Strip(db').tables == s.tables[db'.lastTable := Table(map[], map[], 0, [])];
    } else if e.DropTable? {
      assert Strip(db').tables == s.tables - {e.table};
    }
  }

  lemma {:induction false} SchemaReplays(db: Db, events: seq<Event>)
    requires Replay(db, events).Some?
    ensures Replay(Strip(db), SchemaOf(events)) == Some(Strip(Replay(db, events).value))
    decreases |events|
  {
    if events != [] {
      StripStep(db, events[0]);
      SchemaReplays(Apply(db, events[0]).value, events[1..]);
      if IsSchema(events[0]) {
        assert SchemaOf(events)[0] == events[0] && SchemaOf(events)[1..] == SchemaOf(events[1..]);
      } else {
        assert SchemaOf(events) == SchemaOf(events[1..]);
      }
    }
  }

  // ---------- events of one table ----------

  function ReplayOn(t: Table, events: seq<Event>): Option<Table>
    decreases |events|
  {
    if events == [] then Some(t)
    else match ApplyTo(t, events[0]) case None => None case Some(t') => ReplayOn(t', events[1..])
  }

  lemma {:induction false} ReplayOnAppend(t: Table, a: seq<Event>, b: seq<Event>)
    requires ReplayOn(t, a).Some?
    ensures ReplayOn(t, a + b) == ReplayOn(ReplayOn(t, a).value, b)
    decreases |a|
  {
    if a == [] {
      assert a + b == b;
    } else {
      ReplayOnAppend(ApplyTo(t, a[0]).value, a[1..], b);
      assert (a + b)[0] == a[0] && (a + b)[1..] == a[1..] + b;
    }
  }

  ghost predicate AllOf(events: seq<Event>, id: nat) {
    forall i :: 0 <= i < |events| ==> OfTable(events[i]) && events[i].table == id && !IsSchema(events[i])
  }

  /** Events of one table change that table and nothing else. */
  lemma {:induction false} ReplayOneTable(db: Db, id: nat, events: seq<Event>)
    requires id in db.tables && AllOf(events, id) && ReplayOn(db.tables[id], events).Some?
    ensures Replay(db, events) == Some(db.(tables := db.tables[id := ReplayOn(db.tables[id], events).value]))
    decreases |events|
  {
    if events == [] {
      assert db.tables[id := db.tables[id]] == db.tables;
    } else {
      var t := ApplyTo(db.tables[id], events[0]).value;
      var db' := db.(tables := db.tables[id := t]);
      ReplayOneTable(db', id, events[1..]);
      var last := ReplayOn(t, events[1..]).value;
      assert db.tables[id := t][id := last] == db.tables[id := last];
    }
  }

  lemma {:induction false} FieldsAreOf(id: nat, t: Table, f: nat, r: nat, n: nat)
    ensures AllOf(FieldsFrom(id, t, f, r, n), id)
    decreases t.lastField + 1 - f
  {
    if f <= t.lastField {
      FieldsAreOf(id, t, f + 1, r, n);
    }
  }

  lemma {:induction false} RunsAreOf(id: nat, t: Table, r: nat)
    ensures AllOf(RunsFrom(id, t, r), id)
    decreases |t.used| - r
  {
    if r < |t.used| {
      if t.used[r] {
        var n := RunLength(t.used, r);
        FieldsAreOf(id, t, 1, r, n);
        RunsAreOf(id, t, r + n);
      } else {
        RunsAreOf(id, t, r + 1);
      }
    }
  }

  // ---------- a table is rebuilt ----------

  ghost predicate SameFields(s: Table, t: Table) {
    && s.names == t.names && s.lastField == t.lastField && s.fields.Keys == t.fields.Keys
    && forall f <- t.fields :: s.fields[f].fieldType == t.fields[f].fieldType
  }

  /** For used records below `n` the first column has the values of the second, as packing rewrites them. */
  predicate SameValues(c: Column, d: Column, used: seq<bool>, n: nat) {
    forall i :: 0 <= i < n && i < |used| && used[i] && i < |d.values| ==> i < |c.values| && c.values[i] == Rewritten(d, used, i)
  }

  /** `s` is what has been rebuilt of `t` before record `r`. */
  ghost predicate Rebuilt(s: Table, t: Table, r: nat) {
    ValidTable(s) && SameColumns(s, t, r) && MarkedUpTo(s, t, r)
  }

  /** The same records are used below `r`. */
  ghost predicate MarkedUpTo(s: Table, t: Table, r: nat) {
    |s.used| <= r <= |t.used| && forall i :: 0 <= i < r ==> (Used(s, i) <==> t.used[i])
  }

  /** The run `[r, r + n)` is inserted, and fields before `g` have their values. */
  ghost predicate Filling(s: Table, t: Table, g: nat, r: nat, n: nat) {
    && SameFields(s, t) && ValidTable(s) && |s.used| == r + n <= |t.used|
    && (forall i :: 0 <= i < r + n ==> s.used[i] == t.used[i])
    && (forall f <- t.fields :: SameValues(s.fields[f], t.fields[f], t.used, if f < g then r + n else r))
  }

  ghost predicate SameColumns(g: Table, t: Table, r: nat) {
    SameFields(g, t) && forall f <- t.fields :: SameValues(g.fields[f], t.fields[f], t.used, r)
  }

  ghost predicate SameMarks(g: Table, t: Table, r: nat, n: nat) {
    |g.used| == r + n <= |t.used| && forall i :: 0 <= i < r ==> g.used[i] == t.used[i]
  }

  lemma RunStarts(s: Table, t: Table, r: nat, n: nat)
    requires ValidTable(t) && Rebuilt(s, t, r) && IsRun(t.used, r, n)
    ensures Filling(Insert(s, r, n), t, 1, r, n)
  {
    var g := MakesRoom(s, t, r, n);
    InsertFills(g, t, r, n);
  }

  lemma MakesRoom(s: Table, t: Table, r: nat, n: nat) returns (g: Table)
    requires ValidTable(s) && SameColumns(s, t, r) && MarkedUpTo(s, t, r) && n > 0 && r + n <= |t.used|
    ensures ValidTable(g) && SameColumns(g, t, r) && SameMarks(g, t, r, n)
    ensures Insert(s, r, n) == g.(used := Mark(g.used, r, n, true))
  {
    g := Grow(s, r + n);
    GrowValid(s, r + n);
    GrowSame(s, t, r, r + n);
    GrowMarks(s, t, r, n);
  }

  lemma RunIsFree(s: Table, id: nat, r: nat, n: nat)
    requires |s.used| <= r && n > 0
    ensures ApplyTo(s, InsertRun(id, r, n)) == Some(Insert(s, r, n))
  {
  }

  lemma InsertFills(g: Table, t: Table, r: nat, n: nat)
    requires ValidTable(t) && ValidTable(g) && SameColumns(g, t, r) && SameMarks(g, t, r, n) && IsRun(t.used, r, n)
    ensures Filling(g.(used := Mark(g.used, r, n, true)), t, 1, r, n)
  {
  }

  lemma GrowMarks(s: Table, t: Table, r: nat, n: nat)
    requires MarkedUpTo(s, t, r) && n > 0 && r + n <= |t.used|
    ensures SameMarks(Grow(s, r + n), t, r, n)
  {
    forall i | 0 <= i < r ensures Grow(s, r + n).used[i] == t.used[i] {
      assert Used(s, i) <==> t.used[i];
    }
  }

  lemma GrowSame(s: Table, t: Table, r: nat, m: nat)
    requires SameColumns(s, t, r)
    ensures SameColumns(Grow(s, m), t, r)
  {
  }

  lemma SplicedIsSame(c: Column, d: Column, used: seq<bool>, r: nat, vs: seq<Value>)
    requires SameValues(c, d, used, r) && |c.values| >= r + |vs| && r + |vs| <= |d.values|
    requires forall j :: 0 <= j < |vs| ==> vs[j] == Rewritten(d, used, r + j)
    ensures SameValues(c.(values := Splice(c.values, r, vs)), d, used, r + |vs|)
  {
    forall i | r <= i < r + |vs| ensures Splice(c.values, r, vs)[i] == Rewritten(d, used, i) {
      assert vs[i - r] == Rewritten(d, used, r + (i - r));
    }
  }

  /** A run is emitted as packing rewrites it. */
  lemma EmittedIsRewritten(c: Column, k: Kind, used: seq<bool>, r: nat, n: nat)
    requires IsRun(used, r, n) && r + n <= |c.values| && KindOfType(c.fieldType) == Some(k)
    ensures forall j :: 0 <= j < n ==> Emitted(c, k, r, n)[j] == Rewritten(c, used, r + j)
  {
    forall i | r <= i < r + n ensures Alone(used, i) <==> n == 1 {
      assert i > r ==> UsedAt(used, i - 1);
      assert i + 1 < r + n ==> UsedAt(used, i + 1);
    }
  }

  lemma ColumnFills(s: Table, t: Table, g: nat, r: nat, n: nat, d: Column)
    requires Filling(s, t, g, r, n) && g in t.fields && d.fieldType == t.fields[g].fieldType
    requires |d.values| == |s.fields[g].values| && SameValues(d, t.fields[g], t.used, r + n)
    ensures Filling(s.(fields := s.fields[g := d]), t, g + 1, r, n)
  {
    var s' := s.(fields := s.fields[g := d]);
    assert forall f <- t.fields :: f != g ==> s'.fields[f] == s.fields[f];
  }

  lemma UpdateIs(s: Table, k: Kind, r: nat, g: nat, vs: seq<Value>)
    requires vs != [] && Used(s, r) && Used(s, r + |vs| - 1) && g in s.fields
    requires KindOfType(s.fields[g].fieldType) == Some(k) && r + |vs| <= |s.fields[g].values|
    ensures UpdateFields(s, k, r, g, vs) ==
            Some(s.(fields := s.fields[g := s.fields[g].(values := Splice(s.fields[g].values, r, vs))]))
  {
  }

  lemma UpdateFills(s: Table, t: Table, k: Kind, g: nat, r: nat, n: nat, vs: seq<Value>)
    requires ValidTable(t) && Filling(s, t, g, r, n) && IsRun(t.used, r, n)
    requires g in t.fields && KindOfType(t.fields[g].fieldType) == Some(k) && vs == Emitted(t.fields[g], k, r, n)
    ensures UpdateFields(s, k, r, g, vs).Some? && Filling(UpdateFields(s, k, r, g, vs).value, t, g + 1, r, n)
  {
    var c := s.fields[g];
    var d := c.(values := Splice(c.values, r, vs));
    EmittedIsRewritten(t.fields[g], k, t.used, r, n);
    SplicedIsSame(c, t.fields[g], t.used, r, vs);
    ColumnFills(s, t, g, r, n, d);
    UpdateIs(s, k, r, g, vs);
  }

  lemma FieldFilled(s: Table, t: Table, id: nat, g: nat, r: nat, n: nat) returns (u: Table)
    requires ValidTable(t) && Filling(s, t, g, r, n) && IsRun(t.used, r, n)
    ensures ReplayOn(s, FieldEvents(id, t, g, r, n)) == Some(u) && Filling(u, t, g + 1, r, n)
  {
    if g in t.fields && KindOfType(t.fields[g].fieldType).Some? {
      var k := KindOfType(t.fields[g].fieldType).value;
      var vs := Emitted(t.fields[g], k, r, n);
      UpdateFills(s, t, k, g, r, n, vs);
      OneFieldEvent(s, t, id, k, g, r, n, vs);
      u := UpdateFields(s, k, r, g, vs).value;
    } else {
      u := s;
      NothingToFill(s, t, g, r, n);
    }
  }

  lemma NothingToFill(s: Table, t: Table, g: nat, r: nat, n: nat)
    requires ValidTable(t) && Filling(s, t, g, r, n)
    requires g in t.fields ==> KindOfType(t.fields[g].fieldType) == None
    ensures Filling(s, t, g + 1, r, n)
  {
    forall f <- t.fields ensures SameValues(s.fields[f], t.fields[f], t.used, if f < g + 1 then r + n else r) {
      if f == g {
        assert ValidColumn(t.fields[g], |t.used|) && |t.fields[g].values| == 0;
      } else {
        assert SameValues(s.fields[f], t.fields[f], t.used, if f < g then r + n else r);
      }
    }
  }

  lemma OneFieldEvent(s: Table, t: Table, id: nat, k: Kind, g: nat, r: nat, n: nat, vs: seq<Value>)
    requires ValidTable(t) && n > 0 && r + n <= |t.used| && g in t.fields
    requires KindOfType(t.fields[g].fieldType) == Some(k) && vs == Emitted(t.fields[g], k, r, n)
    ensures ReplayOn(s, FieldEvents(id, t, g, r, n)) == UpdateFields(s, k, r, g, vs)
  {
    var events := FieldEvents(id, t, g, r, n);
    assert events[1..] == [];
    assert ApplyTo(s, events[0]) == UpdateFields(s, k, r, g, vs);
  }

  lemma {:induction false} FieldsFilled(s: Table, t: Table, id: nat, g: nat, r: nat, n: nat) returns (u: Table)
    requires ValidTable(t) && Filling(s, t, g, r, n) && IsRun(t.used, r, n)
    ensures ReplayOn(s, FieldsFrom(id, t, g, r, n)) == Some(u) && Rebuilt(u, t, r + n)
    decreases t.lastField + 1 - g
  {
    if g <= t.lastField {
      var s' := FieldFilled(s, t, id, g, r, n);
      u := FieldsFilled(s', t, id, g + 1, r, n);
      ReplayOnAppend(s, FieldEvents(id, t, g, r, n), FieldsFrom(id, t, g + 1, r, n));
    } else {
      u := s;
      AllFilled(s, t, g, r, n);
    }
  }

  lemma AllFilled(s: Table, t: Table, g: nat, r: nat, n: nat)
    requires ValidTable(t) && Filling(s, t, g, r, n) && IsRun(t.used, r, n) && g > t.lastField
    ensures Rebuilt(s, t, r + n)
  {
  }

  /** No run of used records is cut at `r`. */
  predicate Boundary(used: seq<bool>, r: nat) {
    !UsedAt(used, r - 1) || !UsedAt(used, r)
  }

  lemma RunFound(used: seq<bool>, r: nat)
    requires r < |used| && used[r] && Boundary(used, r)
    ensures IsRun(used, r, RunLength(used, r)) && Boundary(used, r + RunLength(used, r))
  {
  }

  lemma {:induction false} RunsRebuild(s: Table, t: Table, id: nat, r: nat) returns (u: Table)
    requires ValidTable(t) && Rebuilt(s, t, r) && Boundary(t.used, r)
    ensures ReplayOn(s, RunsFrom(id, t, r)) == Some(u) && Rebuilt(u, t, |t.used|)
    decreases |t.used| - r
  {
    if r >= |t.used| {
      u := s;
      NoMoreRuns(s, t, id, r);
    } else if !t.used[r] {
      FreeSkipped(s, t, id, r);
      u := RunsRebuild(s, t, id, r + 1);
    } else {
      var s', n := NextRunRebuilt(s, t, id, r);
      u := RunsRebuild(s', t, id, r + n);
      assert Rebuilt(u, t, |t.used|);
    }
  }

  lemma NextRunRebuilt(s: Table, t: Table, id: nat, r: nat) returns (s': Table, n: nat)
    requires ValidTable(t) && Rebuilt(s, t, r) && Boundary(t.used, r) && r < |t.used| && t.used[r]
    ensures n > 0 && Rebuilt(s', t, r + n) && Boundary(t.used, r + n)
    ensures ReplayOn(s, RunsFrom(id, t, r)) == ReplayOn(s', RunsFrom(id, t, r + n))
  {
    n := RunLength(t.used, r);
    RunFound(t.used, r);
    s' := RunRebuilds(s, t, id, r, n);
    ReplayOnAppend(s, RunEvents(id, t, r), RunsFrom(id, t, r + n));
  }

  lemma FreeSkipped(s: Table, t: Table, id: nat, r: nat)
    requires Rebuilt(s, t, r) && r < |t.used| && !t.used[r]
    ensures Rebuilt(s, t, r + 1) && RunsFrom(id, t, r) == RunsFrom(id, t, r + 1)
  {
  }

  lemma NoMoreRuns(s: Table, t: Table, id: nat, r: nat)
    requires r >= |t.used|
    ensures ReplayOn(s, RunsFrom(id, t, r)) == Some(s)
  {
  }

  lemma RunRebuilds(s: Table, t: Table, id: nat, r: nat, n: nat) returns (u: Table)
    requires ValidTable(t) && Rebuilt(s, t, r) && n == RunLength(t.used, r) && IsRun(t.used, r, n)
    ensures ReplayOn(s, RunEvents(id, t, r)) == Some(u) && Rebuilt(u, t, r + n)
  {
    RunIsFree(s, id, r, n);
    RunStarts(s, t, r, n);
    var first, rest := InsertRun(id, r, n), FieldsFrom(id, t, 1, r, n);
    u := FieldsFilled(Insert(s, r, n), t, id, 1, r, n);
    ReplayOnCons(s, first, rest, Insert(s, r, n));
  }

  lemma ReplayOnCons(t: Table, e: Event, rest: seq<Event>, u: Table)
    requires ApplyTo(t, e) == Some(u)
    ensures ReplayOn(t, [e] + rest) == ReplayOn(u, rest)
  {
    assert ([e] + rest)[1..] == rest;
  }

  // ---------- the database is rebuilt ----------

  function UsedRecords(t: Table): set<nat> {
    set r: nat | r < |t.used| && t.used[r]
  }

  /** Same fields, same used records, and for these the same values as packing rewrites them. */
  ghost predicate RepackedTable(s: Table, t: Table) {
    && SameFields(s, t) && UsedRecords(s) == UsedRecords(t)
    && forall f <- t.fields :: SameValues(s.fields[f], t.fields[f], t.used, |t.used|)
  }

  ghost predicate RepackedDb(s: Db, t: Db) {
    && s.names == t.names && s.lastTable == t.lastTable && s.tables.Keys == t.tables.Keys
    && forall id <- t.tables :: RepackedTable(s.tables[id], t.tables[id])
  }

  lemma TableRebuilt(t: Table, id: nat)
    requires ValidTable(t)
    ensures ReplayOn(StripTable(t), RunsFrom(id, t, 0)).Some?
    ensures RepackedTable(ReplayOn(StripTable(t), RunsFrom(id, t, 0)).value, t)
  {
    var s := RunsRebuild(StripTable(t), t, id, 0);
    assert forall r :: 0 <= r < |t.used| ==> (Used(s, r) <==> t.used[r]);
    assert UsedRecords(s) == UsedRecords(t);
  }

  /** Tables before `next` are rebuilt, the others are still empty. */
  ghost predicate RebuiltUpTo(s: Db, t: Db, next: nat) {
    && s.names == t.names && s.lastTable == t.lastTable && s.tables.Keys == t.tables.Keys
    && forall id <- t.tables :: if id < next then RepackedTable(s.tables[id], t.tables[id]) else s.tables[id] == StripTable(t.tables[id])
  }

  lemma NextTableRebuilt(s: Db, t: Db, id: nat)
    requires Valid(t) && RebuiltUpTo(s, t, id)
    ensures Replay(s, TableEvents(t, id)).Some? && RebuiltUpTo(Replay(s, TableEvents(t, id)).value, t, id + 1)
  {
    if id in t.tables {
      TableRebuilt(t.tables[id], id);
      RunsAreOf(id, t.tables[id], 0);
      ReplayOneTable(s, id, TableEvents(t, id));
    }
  }

  lemma {:induction false} TablesRebuild(s: Db, t: Db, id: nat)
    requires Valid(t) && RebuiltUpTo(s, t, id)
    ensures Replay(s, TablesFrom(t, id)).Some? && RebuiltUpTo(Replay(s, TablesFrom(t, id)).value, t, t.lastTable + 1)
    decreases t.lastTable + 1 - id
  {
    if id <= t.lastTable {
      NextTableRebuilt(s, t, id);
      var first, others := TableEvents(t, id), TablesFrom(t, id + 1);
      TablesRebuild(Replay(s, first).value, t, id + 1);
      ReplayAppend(s, first, others);
    } else {
      AllRebuilt(s, t, id);
    }
  }

  lemma AllRebuilt(s: Db, t: Db, id: nat)
    requires Valid(t) && RebuiltUpTo(s, t, id) && id > t.lastTable
    ensures RebuiltUpTo(s, t, t.lastTable + 1)
  {
  }

  /** Packing preserves meaning, for every journal without blobs that can be replayed. */
  lemma {:induction false} PackPreserves(events: seq<Event>)
    requires Replay(EMPTY, events).Some? && !HasBlob(events)
    ensures Packed(events).Some?
    ensures var packed := Replay(EMPTY, Packed(events).value);
            packed.Some? && RepackedDb(packed.value, Replay(EMPTY, events).value) && Valid(packed.value)
  {
    var db := Replay(EMPTY, events).value;
    ReplayStaysValid(EMPTY, events);
    SchemaReplays(EMPTY, events);
    assert Strip(EMPTY) == EMPTY by { assert Strip(EMPTY).tables == map[]; }
    TablesRebuild(Strip(db), db, 1);
    ReplayAppend(EMPTY, SchemaOf(events), Dump(db));
    ReplayStaysValid(EMPTY, Packed(events).value);
  }

  // ---------- packing twice ----------

  lemma UsedAlike(s: Table, t: Table, r: int)
    requires UsedRecords(s) == UsedRecords(t)
    ensures Used(s, r) <==> Used(t, r)
  {
    assert Used(s, r) ==> r in UsedRecords(s);
    assert Used(t, r) ==> r in UsedRecords(t);
  }

  lemma {:induction false} RunAlike(s: Table, t: Table, r: nat)
    requires UsedRecords(s) == UsedRecords(t)
    ensures RunLength(s.used, r) == RunLength(t.used, r)
    decreases |s.used| - r
  {
    UsedAlike(s, t, r);
    if r < |s.used| && s.used[r] {
      RunAlike(s, t, r + 1);
    }
  }

  lemma FieldAlike(s: Table, t: Table, id: nat, f: nat, r: nat, n: nat)
    requires ValidTable(s) && ValidTable(t) && RepackedTable(s, t) && r + n <= |s.used| && IsRun(t.used, r, n)
    ensures FieldEvents(id, s, f, r, n) == FieldEvents(id, t, f, r, n)
  {
    if f in t.fields && KindOfType(t.fields[f].fieldType).Some? {
      var c, d, k := s.fields[f], t.fields[f], KindOfType(t.fields[f].fieldType).value;
      EmittedIsRewritten(d, k, t.used, r, n);
      assert forall j :: 0 <= j < n ==> c.values[r + j] == Emitted(d, k, r, n)[j];
      if n > 1 {
        assert c.values[r..r + n] == Emitted(d, k, r, n);
      }
    }
  }

  lemma {:induction false} FieldsAlike(s: Table, t: Table, id: nat, f: nat, r: nat, n: nat)
    requires ValidTable(s) && ValidTable(t) && RepackedTable(s, t) && r + n <= |s.used| && IsRun(t.used, r, n)
    ensures FieldsFrom(id, s, f, r, n) == FieldsFrom(id, t, f, r, n)
    decreases t.lastField + 1 - f
  {
    if f <= t.lastField {
      FieldAlike(s, t, id, f, r, n);
      FieldsAlike(s, t, id, f + 1, r, n);
    }
  }

  lemma {:induction false} NothingLeft(t: Table, id: nat, r: nat)
    requires forall i :: r <= i < |t.used| ==> !t.used[i]
    ensures RunsFrom(id, t, r) == []
    decreases |t.used| - r
  {
    if r < |t.used| {
      NothingLeft(t, id, r + 1);
    }
  }

  lemma {:induction false} RunsAlike(s: Table, t: Table, id: nat, r: nat)
    requires ValidTable(s) && ValidTable(t) && RepackedTable(s, t) && Boundary(t.used, r)
    ensures RunsFrom(id, s, r) == RunsFrom(id, t, r)
    decreases |s.used| - r
  {
    if r >= |s.used| {
      forall i | r <= i < |t.used| ensures !t.used[i] {
        UsedAlike(s, t, i);
      }
      NothingLeft(t, id, r);
    } else {
      UsedAlike(s, t, r);
      if s.used[r] {
        var n := RunLength(s.used, r);
        OneRunAlike(s, t, id, r);
        RunsAlike(s, t, id, r + n);
      } else {
        RunsAlike(s, t, id, r + 1);
        FreeAlike(s, id, r);
        FreeAlike(t, id, r);
      }
    }
  }

  lemma FreeAlike(t: Table, id: nat, r: nat)
    requires !Used(t, r)
    ensures RunsFrom(id, t, r) == RunsFrom(id, t, r + 1)
  {
  }

  lemma OneRunAlike(s: Table, t: Table, id: nat, r: nat)
    requires ValidTable(s) && ValidTable(t) && RepackedTable(s, t) && Boundary(t.used, r) && r < |s.used| && s.used[r] && Used(t, r)
    ensures var n := RunLength(s.used, r);
            n > 0 && n == RunLength(t.used, r) && Boundary(t.used, r + n) && RunEvents(id, s, r) == RunEvents(id, t, r)
  {
    RunAlike(s, t, r);
    RunFound(t.used, r);
    FieldsAlike(s, t, id, 1, r, RunLength(s.used, r));
  }

  lemma {:induction false} TablesAlike(s: Db, t: Db, id: nat)
    requires Valid(s) && Valid(t) && RepackedDb(s, t)
    ensures TablesFrom(s, id) == TablesFrom(t, id)
    decreases t.lastTable + 1 - id
  {
    if id <= t.lastTable {
      if id in t.tables {
        RunsAlike(s.tables[id], t.tables[id], id, 0);
      }
      TablesAlike(s, t, id + 1);
    }
  }

  lemma {:induction false} SchemaAppend(a: seq<Event>, b: seq<Event>)
    ensures SchemaOf(a + b) == SchemaOf(a) + SchemaOf(b)
  {
    if a == [] {
      assert a + b == b;
    } else {
      var first, rest := if IsSchema(a[0]) then [a[0]] else [], a[1..];
      SchemaAppend(rest, b);
      assert (a + b)[0] == a[0] && (a + b)[1..] == rest + b;
      assert SchemaOf(a + b) == first + SchemaOf(rest + b);
      assert first + (SchemaOf(rest) + SchemaOf(b)) == (first + SchemaOf(rest)) + SchemaOf(b);
    }
  }

  lemma {:induction false} SchemaTwice(a: seq<Event>)
    ensures SchemaOf(SchemaOf(a)) == SchemaOf(a) && !HasBlob(SchemaOf(a))
  {
    if a != [] {
      SchemaTwice(a[1..]);
      if IsSchema(a[0]) {
        assert SchemaOf(a)[0] == a[0] && SchemaOf(a)[1..] == SchemaOf(a[1..]);
      } else {
        assert SchemaOf(a) == SchemaOf(a[1..]);
      }
    }
  }

  lemma {:induction false} NoSchema(a: seq<Event>)
    requires forall i :: 0 <= i < |a| ==> !IsSchema(a[i])
    ensures SchemaOf(a) == []
  {
    if a != [] {
      NoSchema(a[1..]);
    }
  }

  lemma {:induction false} DumpIsData(db: Db, id: nat)
    ensures forall e <- TablesFrom(db, id) :: OfTable(e) && !IsSchema(e)
    decreases db.lastTable + 1 - id
  {
    if id <= db.lastTable {
      if id in db.tables {
        RunsAreOf(id, db.tables[id], 0);
      }
      DumpIsData(db, id + 1);
    }
  }

  /** A packed journal is left as it is by packing. */
  lemma {:induction false} PackIsIdempotent(events: seq<Event>)
    requires Packed(events).Some?
    ensures Packed(Packed(events).value) == Packed(events)
  {
    var db, packed := Replay(EMPTY, events).value, Packed(events).value;
    PackPreserves(events);
    ReplayStaysValid(EMPTY, events);
    TablesAlike(Replay(EMPTY, packed).value, db, 1);
    DumpIsData(db, 1);
    NoSchema(Dump(db));
    SchemaTwice(events);
    SchemaAppend(SchemaOf(events), Dump(db));
    assert SchemaOf(packed) == SchemaOf(events) + [] == SchemaOf(events);
    NoBlobAppend(SchemaOf(events), Dump(db));
  }

  lemma NoBlobAppend(a: seq<Event>, b: seq<Event>)
    requires !HasBlob(a) && forall e <- b :: OfTable(e)
    ensures !HasBlob(a + b)
  {
    forall i | 0 <= i < |a + b| ensures !(a + b)[i].Blob? {
      if i >= |a| {
        assert (a + b)[i] == b[i - |a|] && b[i - |a|] in b;
      } else {
        assert (a + b)[i] == a[i];
      }
    }
  }
}
