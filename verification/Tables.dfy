/** The interpreted database: tables, fields, records, and what each event of a journal does to them. */
module Tables {
  import opened Bytes
  import opened JournalFormat
  import opened JournalCodec

  /** The column of a field has a value for each record; a field of the null type, or of an unknown one, has none. */
  datatype Column = Column(fieldType: FieldType, values: seq<Value>)

  /** `used[r]` says whether record `r` is used: it stands for the freedom keeper. */
  datatype Table = Table(fields: map<nat, Column>, names: map<nat, seq<byte>>, lastField: nat, used: seq<bool>)

  datatype Db = Db(tables: map<nat, Table>, names: map<nat, seq<byte>>, lastTable: nat)

  const EMPTY := Db(map[], map[], 0)
  const MAX_ID: nat := 65535

  function KindOfType(ft: FieldType): Option<Kind> {
    if 1 <= ft.id <= 10 then Some(KindOf(ft.id - 1)) else None
  }

  function Default(k: Kind): Value {
    match k
    case KString => VString([])
    case KReference => VReference(-1)
    case KBlob => VBlob(0, 0)
    case _ => VFixed(Zeros(Width(k)))
  }

  // ---------- names ----------

  predicate IsLetter(c: byte) { 97 <= c <= 122 || 65 <= c <= 90 }
  predicate IsDigit(c: byte) { 48 <= c <= 57 }

  predicate IsIdentifier(s: seq<byte>) {
    && s != [] && !IsDigit(s[0])
    && (forall i :: 0 <= i < |s| ==> s[i] == 95 || IsLetter(s[i]) || IsDigit(s[i]))
    && (forall i :: 0 <= i < |s| - 1 ==> !(s[i] == 95 && s[i + 1] == 95))
  }

  /** Identifiers byte by byte: what may follow one. */
  lemma IdentifierGrows(s: seq<byte>, c: byte)
    ensures !IsIdentifier([])
    ensures IsIdentifier(s + [c]) <==>
            if s == [] then c == 95 || IsLetter(c)
            else IsIdentifier(s) && (IsLetter(c) || IsDigit(c) || (c == 95 && s[|s| - 1] != 95))
  {
    var t := s + [c];
    assert t[|s|] == c && t[0] == if s == [] then c else s[0];
    if IsIdentifier(t) && s != [] {
      assert forall i :: 0 <= i < |s| ==> s[i] == t[i];
      assert t[|s| - 1] == s[|s| - 1];
    }
  }

  predicate NameUsed(names: map<nat, seq<byte>>, name: seq<byte>) {
    exists id :: id in names && names[id] == name
  }

  // ---------- tables ----------

  function AddField(t: Table, name: seq<byte>, ft: FieldType): Option<Table> {
    if NameUsed(t.names, name) || t.lastField == MAX_ID then None
    else
      var f := t.lastField + 1;
      Some(t.(fields := t.fields[f := NewColumn(ft, |t.used|)], names := t.names[f := name], lastField := f))
  }

  function NewColumn(ft: FieldType, n: nat): Column {
    Column(ft, match KindOfType(ft) case None => [] case Some(k) => seq(n, _ => Default(k)))
  }

  function DropField(t: Table, f: nat): Option<Table> {
    if f !in t.fields then None else Some(t.(fields := t.fields - {f}, names := t.names - {f}))
  }

  function RenameField(t: Table, f: nat, name: seq<byte>): Option<Table> {
    if f !in t.names || NameUsed(t.names, name) then None else Some(t.(names := t.names[f := name]))
  }

  function GrowColumn(c: Column, n: nat): Column {
    match KindOfType(c.fieldType)
    case None => c
    case Some(k) => if n <= |c.values| then c else c.(values := c.values + seq(n - |c.values|, _ => Default(k)))
  }

  function GrowUsed(used: seq<bool>, n: nat): (r: seq<bool>)
    ensures |r| == if n <= |used| then |used| else n
  {
    if n <= |used| then used else used + seq(n - |used|, _ => false)
  }

  function Grow(t: Table, n: nat): Table {
    if n <= |t.used| then t
    else t.(fields := map f | f in t.fields :: GrowColumn(t.fields[f], n), used := GrowUsed(t.used, n))
  }

  /** Records `[r, r + n)` become used or free. */
  function Mark(used: seq<bool>, r: nat, n: nat, b: bool): (m: seq<bool>)
    requires r + n <= |used|
    ensures |m| == |used| && forall i :: 0 <= i < |m| ==> m[i] == if r <= i < r + n then b else used[i]
  {
    seq(|used|, i requires 0 <= i < |used| => if r <= i < r + n then b else used[i])
  }

  predicate UsedAt(used: seq<bool>, r: int) {
    0 <= r < |used| && used[r]
  }

  predicate Used(t: Table, r: int) {
    UsedAt(t.used, r)
  }

  /** Records that do not exist yet count as free. */
  predicate AllFree(used: seq<bool>, r: int, n: nat) {
    r >= 0 && forall i :: r <= i < r + n ==> !UsedAt(used, i)
  }

  predicate AllUsed(used: seq<bool>, r: int, n: nat) {
    r >= 0 && forall i :: r <= i < r + n ==> UsedAt(used, i)
  }

  function Insert(t: Table, r: nat, n: nat): Table {
    if n == 0 then t
    else
      var g := Grow(t, r + n);
      g.(used := Mark(g.used, r, n, true))
  }

  function InsertVector(t: Table, r: int, n: nat): Option<Table> {
    if AllFree(t.used, r, n) then Some(Insert(t, r, n)) else None
  }

  function DeleteVector(t: Table, r: int, n: nat): Option<Table> {
    if !AllUsed(t.used, r, n) then None
    else if n == 0 then Some(t)
    else
      assert UsedAt(t.used, r + n - 1);
      Some(t.(used := Mark(t.used, r, n, false)))
  }

  /** Writing `vs` from record `r` on. */
  function Splice(values: seq<Value>, r: nat, vs: seq<Value>): (s: seq<Value>)
    requires r + |vs| <= |values|
    ensures |s| == |values| && forall i :: 0 <= i < |s| ==> s[i] == if r <= i < r + |vs| then vs[i - r] else values[i]
  {
    values[..r] + vs + values[r + |vs|..]
  }

  /** An update names a field of its type; of the records of a vector only the first and the last must be used. */
  function UpdateFields(t: Table, k: Kind, r: int, f: nat, vs: seq<Value>): Option<Table> {
    if f !in t.fields then None
    else if vs == [] then Some(t)
    else if !Used(t, r) || !Used(t, r + |vs| - 1) then None
    else
      var c := t.fields[f];
      if KindOfType(c.fieldType) != Some(k) || r + |vs| > |c.values| then None
      else Some(t.(fields := t.fields[f := c.(values := Splice(c.values, r, vs))]))
  }

  // ---------- the database ----------


  function CreateTableIn(db: Db, name: seq<byte>): Option<Db> {
    if !IsIdentifier(name) || NameUsed(db.names, name) || db.lastTable == MAX_ID then None
    else
      var id := db.lastTable + 1;
      Some(Db(db.tables[id := Table(map[], map[], 0, [])], db.names[id := name], id))
  }

  function DropTableIn(db: Db, id: nat): Option<Db> {
    if id !in db.tables then None else Some(db.(tables := db.tables - {id}, names := db.names - {id}))
  }

  function RenameTableIn(db: Db, id: nat, name: seq<byte>): Option<Db> {
    if !IsIdentifier(name) || NameUsed(db.names, name) || id !in db.tables then None
    else Some(db.(names := db.names[id := name]))
  }

  /** What a table does with an event that names it. */
  function ApplyTo(t: Table, e: Event): Option<Table> {
    match e
    case AddField(_, name, ft) => if IsIdentifier(name) then AddField(t, name, ft) else None
    case DropField(_, f) => DropField(t, f)
    case RenameField(_, f, name) => if IsIdentifier(name) then RenameField(t, f, name) else None
    case InsertInto(_, r) => InsertVector(t, r, 1)
    case DeleteFrom(_, r) => DeleteVector(t, r, 1)
    case InsertVector(_, r, n) => InsertVector(t, r, n)
    case DeleteVector(_, r, n) => DeleteVector(t, r, n)
    case Update(k, _, r, f, v) => UpdateFields(t, k, r, f, [Single(v, k)])   // a boolean comes as a `bool`
    case UpdateVector(k, _, r, f, vs) => UpdateFields(t, k, r, f, vs)
    case _ => Some(t)
  }

  predicate OfTable(e: Event) {
    e.AddField? || e.DropField? || e.RenameField? || e.InsertInto? || e.DeleteFrom? || e.InsertVector? || e.DeleteVector?
    || e.Update? || e.UpdateVector?
  }

  /** The database after an event; `None` if it throws. */
  function Apply(db: Db, e: Event): Option<Db> {
    if OfTable(e) then
      if e.table !in db.tables then None
      else
        match ApplyTo(db.tables[e.table], e)
        case None => None
        case Some(t) => Some(db.(tables := db.tables[e.table := t]))
    else
      match e
      case CreateTable(name) => CreateTableIn(db, name)
      case DropTable(id) => DropTableIn(db, id)
      case RenameTable(id, name) => RenameTableIn(db, id, name)
      case _ => Some(db)
  }

  function Replay(db: Db, events: seq<Event>): Option<Db>
    decreases |events|
  {
    if events == [] then Some(db)
    else match Apply(db, events[0]) case None => None case Some(db') => Replay(db', events[1..])
  }

  lemma {:induction false} ReplayAppend(db: Db, a: seq<Event>, b: seq<Event>)
    requires Replay(db, a).Some?
    ensures Replay(db, a + b) == Replay(Replay(db, a).value, b)
    decreases |a|
  {
    if a == [] {
      assert a + b == b;
    } else {
      ReplayAppend(Apply(db, a[0]).value, a[1..], b);
      assert (a + b)[0] == a[0] && (a + b)[1..] == a[1..] + b;
    }
  }

  // ---------- columns are as long as the table ----------

  ghost predicate ValidTable(t: Table) {
    && t.fields.Keys == t.names.Keys
    && (forall f <- t.fields :: 1 <= f <= t.lastField)
    && (forall f <- t.fields :: ValidColumn(t.fields[f], |t.used|))
  }

  predicate ValidColumn(c: Column, n: nat) {
    |c.values| == if KindOfType(c.fieldType).Some? then n else 0
  }

  ghost predicate Valid(db: Db) {
    && db.tables.Keys == db.names.Keys
    && (forall id <- db.tables :: 1 <= id <= db.lastTable)
    && (forall id <- db.tables :: ValidTable(db.tables[id]))
  }

  lemma GrowValid(t: Table, n: nat)
    requires ValidTable(t)
    ensures ValidTable(Grow(t, n))
  {
  }

  lemma TableStaysValid(t: Table, e: Event)
    requires ValidTable(t) && ApplyTo(t, e).Some?
    ensures ValidTable(ApplyTo(t, e).value)
  {
    match e
    case InsertInto(_, r) => GrowValid(t, r + 1);
    case InsertVector(_, r, n) => GrowValid(t, r + n);
    case Update(k, _, r, f, v) => UpdateValid(t, k, r, f, [Single(v, k)]);
    case UpdateVector(k, _, r, f, vs) => UpdateValid(t, k, r, f, vs);
    case _ =>
  }

  lemma UpdateValid(t: Table, k: Kind, r: int, f: nat, vs: seq<Value>)
    requires ValidTable(t) && UpdateFields(t, k, r, f, vs).Some?
    ensures ValidTable(UpdateFields(t, k, r, f, vs).value)
  {
  }

  /** Every event keeps every column as long as its table's freedom keeper. */
  lemma StaysValid(db: Db, e: Event)
    requires Valid(db) && Apply(db, e).Some?
    ensures Valid(Apply(db, e).value)
  {
    if OfTable(e) {
      TableStaysValid(db.tables[e.table], e);
    }
  }

  lemma {:induction false} ReplayStaysValid(db: Db, events: seq<Event>)
    requires Valid(db) && Replay(db, events).Some?
    ensures Valid(Replay(db, events).value)
    decreases |events|
  {
    if events != [] {
      StaysValid(db, events[0]);
      ReplayStaysValid(Apply(db, events[0]).value, events[1..]);
    }
  }

  // ---------- names and ids ----------

  ghost predicate Distinct(names: map<nat, seq<byte>>) {
    forall a <- names, b <- names :: a != b ==> names[a] != names[b]
  }

  /** No two tables have the same name, and no two fields of a table. */
  ghost predicate Named(db: Db) {
    Distinct(db.names) && forall id <- db.tables :: Distinct(db.tables[id].names)
  }

  lemma NewNameIsDistinct(names: map<nat, seq<byte>>, id: nat, name: seq<byte>)
    requires Distinct(names) && !NameUsed(names, name)
    ensures Distinct(names[id := name])
  {
  }

  lemma FieldNamesStayDistinct(t: Table, e: Event)
    requires Distinct(t.names) && ApplyTo(t, e).Some?
    ensures Distinct(ApplyTo(t, e).value.names)
  {
    if e.AddField? {
      NewNameIsDistinct(t.names, t.lastField + 1, e.name);
    } else if e.RenameField? {
      NewNameIsDistinct(t.names, e.field, e.name);
    }
  }

  /** Creating, renaming and dropping keep names apart. */
  lemma NamesStayDistinct(db: Db, e: Event)
    requires Named(db) && Apply(db, e).Some?
    ensures Named(Apply(db, e).value)
  {
    if OfTable(e) {
      FieldNamesStayDistinct(db.tables[e.table], e);
    } else if e.CreateTable? {
      NewNameIsDistinct(db.names, db.lastTable + 1, e.name);
    } else if e.RenameTable? {
      NewNameIsDistinct(db.names, e.table, e.name);
    }
  }

  /** In every database that a journal gives, names of tables, and of the fields of a table, are distinct. */
  lemma {:induction false} ReplayNamesStayDistinct(db: Db, events: seq<Event>)
    requires Named(db) && Replay(db, events).Some?
    ensures Named(Replay(db, events).value)
    decreases |events|
  {
    if events != [] {
      NamesStayDistinct(db, events[0]);
      ReplayNamesStayDistinct(Apply(db, events[0]).value, events[1..]);
    }
  }

  /** The id has been given to a table, which is gone. */
  predicate TableDropped(db: Db, id: nat) {
    id <= db.lastTable && id !in db.tables
  }

  /** The id has been given to a field, which is gone, or its table is. */
  predicate FieldDropped(db: Db, id: nat, f: nat) {
    TableDropped(db, id) || (id in db.tables && f <= db.tables[id].lastField && f !in db.tables[id].fields)
  }

  lemma FieldIdsGrow(t: Table, e: Event, f: nat)
    requires ApplyTo(t, e).Some? && f <= t.lastField && f !in t.fields
    ensures f <= ApplyTo(t, e).value.lastField && f !in ApplyTo(t, e).value.fields
  {
  }

  lemma DroppedOnce(db: Db, e: Event, id: nat, f: nat)
    requires Valid(db) && Apply(db, e).Some?
    ensures TableDropped(db, id) ==> TableDropped(Apply(db, e).value, id)
    ensures FieldDropped(db, id, f) ==> FieldDropped(Apply(db, e).value, id, f)
  {
    if OfTable(e) && id == e.table && f <= db.tables[id].lastField && f !in db.tables[id].fields {
      FieldIdsGrow(db.tables[id], e, f);
    }
  }

  /** The id of a dropped table or field is never given again. */
  lemma {:induction false} DroppedStaysDropped(db: Db, events: seq<Event>, id: nat, f: nat)
    requires Valid(db) && Replay(db, events).Some?
    ensures TableDropped(db, id) ==> TableDropped(Replay(db, events).value, id)
    ensures FieldDropped(db, id, f) ==> FieldDropped(Replay(db, events).value, id, f)
    decreases |events|
  {
    if events != [] {
      DroppedOnce(db, events[0], id, f);
      StaysValid(db, events[0]);
      DroppedStaysDropped(Apply(db, events[0]).value, events[1..], id, f);
    }
  }
}
