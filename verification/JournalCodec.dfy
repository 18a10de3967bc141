/**
 Operations of the journal. The writer remembers the table, record and field of the last operation
 and writes a shorter form when the next one continues it; the reader rebuilds the same memory.
 */
module JournalCodec {
  import opened Bytes
  import opened CompactInt
  import opened JournalFormat

  const START: nat := 41

  datatype FieldType = FieldType(id: byte, table: nat)

  const REFERENCE_TYPE: byte := 4

  datatype Event =
    | CreateTable(name: seq<byte>)
    | DropTable(table: nat)
    | RenameTable(table: nat, name: seq<byte>)
    | AddField(table: nat, name: seq<byte>, fieldType: FieldType)
    | DropField(table: nat, field: nat)
    | RenameField(table: nat, field: nat, name: seq<byte>)
    | Custom(name: seq<byte>)
    | Comment(name: seq<byte>)
    | Timestamp(time: seq<byte>)
    | ValidData
    | InsertInto(table: nat, record: int)
    | DeleteFrom(table: nat, record: int)
    | InsertVector(table: nat, record: int, count: nat)
    | DeleteVector(table: nat, record: int, count: nat)
    | Update(kind: Kind, table: nat, record: int, field: nat, value: Value)
    | UpdateVector(kind: Kind, table: nat, record: int, field: nat, values: seq<Value>)
    | Blob(data: seq<byte>)

  /** What reading a journal tells its listener: operations, and where each blob lies. */
  datatype Delivery = Op(event: Event) | OnBlob(position: nat, size: nat)

  /** Table and record of the last operation, field of the last update. */
  datatype Context = Context(table: nat, record: int, field: nat)

  const RESET := Context(0, -1, 0)

  predicate IsName(s: seq<byte>) {
    |s| < MAX
  }

  /** A single boolean passes through `bool`, so only 0 and 1 are left of it. */
  function Single(v: Value, k: Kind): Value {
    if k == KBoolean && v.VFixed? && |v.raw| == 1 then VFixed([if v.raw[0] == 0 then 0 else 1]) else v
  }

  /** The operations that a writer accepts: ids of 16 bits, record ids from -1 on, sizes that fit. */
  ghost predicate Writable(e: Event) {
    match e
    case CreateTable(name) => IsName(name)
    case DropTable(t) => IsId(t)
    case RenameTable(t, name) => IsId(t) && IsName(name)
    case AddField(t, name, ft) =>
      IsId(t) && IsName(name) && (if ft.id == REFERENCE_TYPE then IsId(ft.table) else ft.table == 0)
    case DropField(t, f) => IsId(t) && IsId(f)
    case RenameField(t, f, name) => IsId(t) && IsId(f) && IsName(name)
    case Custom(name) => IsName(name)
    case Comment(name) => IsName(name)
    case Timestamp(time) => |time| == 8
    case ValidData => true
    case InsertInto(t, r) => IsId(t) && IsRecord(r)
    case DeleteFrom(t, r) => IsId(t) && IsRecord(r)
    case InsertVector(t, r, n) => IsId(t) && IsRecord(r) && n < MAX
    case DeleteVector(t, r, n) => IsId(t) && IsRecord(r) && n < MAX
    case Update(k, t, r, f, v) => IsId(t) && IsRecord(r) && IsId(f) && HasKind(v, k) && Single(v, k) == v
    case UpdateVector(k, t, r, f, vs) => IsId(t) && IsRecord(r) && IsId(f) && AllHaveKind(vs, k) && |vs| < MAX
    case Blob(data) => |data| < MAX
  }

  // ---------- writing ----------

  /** Codes of the four update operations of a type follow each other. */
  function UpdateCode(k: Kind): (c: byte)
    ensures 0x81 <= c && c + 3 <= 0xa8
  {
    0x81 + 4 * Rank(k)
  }

  function TypeTokens(ft: FieldType): Tokens {
    Cons(Code(ft.id), if ft.id == REFERENCE_TYPE then Cons(Num(ft.table), Nil) else Nil)
  }

  /** The three forms of an update: same record as before, next record and same field, or written out in full. */
  function UpdateHead(k: Kind, t: nat, r: int, f: nat, c: Context, rest: Tokens): Tokens
    requires IsRecord(r)
  {
    if t == c.table && r == c.record then Cons(Code(UpdateCode(k) + 1), Cons(Num(f), rest))
    else if t == c.table && r == c.record + 1 && f == c.field then Cons(Code(UpdateCode(k) + 2), rest)
    else Cons(Code(UpdateCode(k)), Triple(t, r, f, rest))
  }

  function Pair(a: nat, b: nat, rest: Tokens): (ts: Tokens)
    ensures a < MAX && b < MAX && Fit(rest) ==> Fit(ts)
  {
    Cons(Num(a), Cons(Num(b), rest))
  }

  function Triple(t: nat, r: int, f: nat, rest: Tokens): (ts: Tokens)
    requires IsRecord(r)
    ensures t < MAX && f < MAX && Fit(rest) ==> Fit(ts)
  {
    Cons(Num(t), Pair(r + 1, f, rest))
  }

  /** What is written for an operation, given what the writer remembers. */
  ghost function Written(e: Event, c: Context): (ts: Tokens)
    requires Writable(e)
    ensures Fit(ts) && ts.Cons? && ts.head.Code?
  {
    match e
    case CreateTable(name) => Cons(Code(0x01), StringTokens(name))
    case DropTable(t) => Cons(Code(0x02), Cons(Num(t), Nil))
    case AddField(t, name, ft) =>
      FitAppend(StringTokens(name), TypeTokens(ft));
      Cons(Code(0x03), Cons(Num(t), Append(StringTokens(name), TypeTokens(ft))))
    case DropField(t, f) => Cons(Code(0x04), Pair(t, f, Nil))
    case InsertInto(t, r) =>
      if t == c.table && r == c.record + 1 then Cons(Code(0x08), Nil)
      else Cons(Code(0x05), Pair(t, r + 1, Nil))
    case DeleteFrom(t, r) => Cons(Code(0x06), Pair(t, r + 1, Nil))
    case Comment(name) => Cons(Code(0x0a), StringTokens(name))
    case Timestamp(time) => Cons(Code(0x0b), Cons(Raw(time), Nil))
    case RenameTable(t, name) => Cons(Code(0x0c), Cons(Num(t), StringTokens(name)))
    case RenameField(t, f, name) => Cons(Code(0x0d), Pair(t, f, StringTokens(name)))
    case ValidData => Cons(Code(0x0e), Nil)
    case InsertVector(t, r, n) => Cons(Code(0x0f), Triple(t, r, n, Nil))
    case Custom(name) => Cons(Code(0x10), StringTokens(name))
    case Blob(data) => Cons(Code(0x13), StringTokens(data))
    case DeleteVector(t, r, n) => Cons(Code(0x14), Triple(t, r, n, Nil))
    case Update(k, t, r, f, v) => UpdateHead(k, t, r, f, c, ValueTokens(v, k))
    case UpdateVector(k, t, r, f, vs) =>
      Cons(Code(UpdateCode(k) + 3), Triple(t, r, f, Cons(Num(|vs|), ValuesTokens(vs, k))))
  }

  /** The writer's memory after an operation. */
  function Remember(e: Event, c: Context): Context {
    match e
    case InsertInto(t, r) => Context(t, r, c.field)
    case InsertVector(t, r, _) => Context(t, r, c.field)
    case Update(_, t, r, f, _) => Context(t, r, f)
    case UpdateVector(_, t, r, f, _) => Context(t, r, f)
    case _ => c
  }

  // ---------- reading ----------

  datatype Step = Stepped(delivered: seq<Delivery>, next: nat, context: Context) | Failed

  function Deliver(e: Event, next: nat, c: Context): Step {
    Stepped([Op(e)], next, c)
  }

  function ReadType(f: seq<byte>, p: nat): (r: Parsed<FieldType>)
    ensures r.Parsed? ==> r.next >= p
  {
    if p >= |f| then Bad
    else if f[p] == REFERENCE_TYPE then
      match ReadId(f, p + 1) case Bad => Bad case Parsed(t, q) => Parsed(FieldType(REFERENCE_TYPE, t), q)
    else Parsed(FieldType(f[p], 0), p + 1)
  }

  function StepNamed(f: seq<byte>, p: nat, code: byte, c: Context, checkpoint: nat): (s: Step)
    ensures s.Stepped? ==> s.next >= p
  {
    match ReadString(f, p, checkpoint)
    case Bad => Failed
    case Parsed(name, q) =>
      Deliver(if code == 0x01 then CreateTable(name) else if code == 0x0a then Comment(name) else Custom(name), q, c)
  }

  /** Operations that start with a table id. */
  function StepTable(f: seq<byte>, p: nat, code: byte, c: Context, checkpoint: nat): (s: Step)
    ensures s.Stepped? ==> s.next >= p
  {
    match ReadId(f, p)
    case Bad => Failed
    case Parsed(t, q) =>
      if code == 0x02 then Deliver(DropTable(t), q, c)
      else if code == 0x0c then
        match ReadString(f, q, checkpoint) case Bad => Failed case Parsed(name, q') => Deliver(RenameTable(t, name), q', c)
      else if code == 0x03 then
        match ReadString(f, q, checkpoint)
        case Bad => Failed
        case Parsed(name, q') =>
          match ReadType(f, q') case Bad => Failed case Parsed(ft, q'') => Deliver(AddField(t, name, ft), q'', c)
      else if code == 0x04 then
        match ReadId(f, q) case Bad => Failed case Parsed(fld, q') => Deliver(DropField(t, fld), q', c)
      else
        match ReadId(f, q)
        case Bad => Failed
        case Parsed(fld, q') =>
          match ReadString(f, q', checkpoint) case Bad => Failed case Parsed(name, q'') => Deliver(RenameField(t, fld, name), q'', c)
  }

  /** Operations on records. */
  function StepRecord(f: seq<byte>, p: nat, code: byte, c: Context): (s: Step)
    ensures s.Stepped? ==> s.next >= p
  {
    match ReadId(f, p)
    case Bad => Failed
    case Parsed(t, q) =>
      match ReadReference(f, q)
      case Bad => Failed
      case Parsed(r, q') =>
        if code == 0x05 then Deliver(InsertInto(t, r), q', Context(t, r, c.field))
        else if code == 0x06 then Deliver(DeleteFrom(t, r), q', c)
        else
          match ReadCompact(f, q')
          case Bad => Failed
          case Parsed(n, q'') =>
            if code == 0x0f then Deliver(InsertVector(t, r, n), q'', Context(t, r, c.field))
            else Deliver(DeleteVector(t, r, n), q'', c)
  }

  /** The value of an update whose table, record and field are known. */
  function StepValue(f: seq<byte>, p: nat, k: Kind, c: Context, checkpoint: nat): (s: Step)
    ensures s.Stepped? ==> s.next >= p
  {
    match ReadValue(f, p, k, checkpoint)
    case Bad => Failed
    case Parsed(v, q) => Deliver(Update(k, c.table, c.record, c.field, Single(v, k)), q, c)
  }

  /** The full form of an update: table, record and field come first. */
  function ReadTriple(f: seq<byte>, p: nat): (s: Parsed<Context>)
    ensures s.Parsed? ==> s.next >= p
  {
    match ReadId(f, p)
    case Bad => Bad
    case Parsed(t, q) =>
      match ReadReference(f, q)
      case Bad => Bad
      case Parsed(r, q') =>
        match ReadId(f, q') case Bad => Bad case Parsed(fld, q'') => Parsed(Context(t, r, fld), q'')
  }

  function StepVector(f: seq<byte>, p: nat, k: Kind, checkpoint: nat): (s: Step)
    ensures s.Stepped? ==> s.next >= p
  {
    match ReadTriple(f, p)
    case Bad => Failed
    case Parsed(c, q) =>
      match ReadCompact(f, q)
      case Bad => Failed
      case Parsed(n, q') =>
        if n == 0 then Stepped([], q', c)
        else if n > checkpoint then Failed          // "update_vector too big"
        else if c.record < 0 then Failed            // "update_vector out of range"
        else
          match ReadValues(f, q', k, n, checkpoint)
          case Bad => Failed
          case Parsed(vs, q'') => Deliver(UpdateVector(k, c.table, c.record, c.field, vs), q'', c)
  }

  function StepUpdate(f: seq<byte>, p: nat, k: Kind, form: nat, c: Context, checkpoint: nat): (s: Step)
    ensures s.Stepped? ==> s.next >= p
  {
    if form == 0 then
      match ReadTriple(f, p) case Bad => Failed case Parsed(c', q) => StepValue(f, q, k, c', checkpoint)
    else if form == 1 then
      match ReadId(f, p) case Bad => Failed case Parsed(fld, q) => StepValue(f, q, k, c.(field := fld), checkpoint)
    else if form == 2 then StepValue(f, p, k, c.(record := c.record + 1), checkpoint)
    else StepVector(f, p, k, checkpoint)
  }

  /** A blob is announced, then delivered to a listener that wants its data. */
  function StepBlob(f: seq<byte>, p: nat, c: Context, checkpoint: nat, wantsBlobs: bool): (s: Step)
    ensures s.Stepped? ==> s.next >= p
  {
    match ReadCompact(f, p)
    case Bad => Failed
    case Parsed(size, q) =>
      if wantsBlobs && size < checkpoint then
        match ReadRaw(f, q, size)
        case Bad => Failed
        case Parsed(data, q') => Stepped([OnBlob(q, size), Op(Blob(data))], q', c)
      else Stepped([OnBlob(q, size)], q + size, c)
  }

  /** `one_step`: read one operation at `p`. */
  function OneStep(f: seq<byte>, p: nat, c: Context, checkpoint: nat, wantsBlobs: bool): (s: Step)
    ensures s.Stepped? ==> s.next > p
  {
    if p >= |f| then Failed
    else
      var code, q := f[p], p + 1;
      if code == 0x01 || code == 0x0a || code == 0x10 then StepNamed(f, q, code, c, checkpoint)
      else if code == 0x02 || code == 0x03 || code == 0x04 || code == 0x0c || code == 0x0d then
        StepTable(f, q, code, c, checkpoint)
      else if code == 0x05 || code == 0x06 || code == 0x0f || code == 0x14 then StepRecord(f, q, code, c)
      else if code == 0x08 then Deliver(InsertInto(c.table, c.record + 1), q, c.(record := c.record + 1))
      else if code == 0x0b then
        match ReadRaw(f, q, 8) case Bad => Failed case Parsed(time, q') => Deliver(Timestamp(time), q', c)
      else if code == 0x0e then Deliver(ValidData, q, c)
      else if code == 0x13 then StepBlob(f, q, c, checkpoint, wantsBlobs)
      else if 0x81 <= code <= 0xa8 then
        StepUpdate(f, q, KindOf((code - 0x81) / 4), (code - 0x81) % 4, c, checkpoint)
      else Failed
  }

  // ---------- one operation is read back ----------

  /** Whether the reader can deliver it: a vector update must start at a record. */
  predicate Replayable(e: Event) {
    e.UpdateVector? && e.values != [] ==> e.record >= 0
  }

  /** What the reader makes of an operation found at `p`: an empty vector update is dropped. */
  function Deliveries(e: Event, f: seq<byte>, p: nat, wantsBlobs: bool): seq<Delivery> {
    match e
    case UpdateVector(_, _, _, _, vs) => if vs == [] then [] else [Op(e)]
    case Blob(data) => [OnBlob(After(f, p + 1, Num(|data|)), |data|)] + if wantsBlobs then [Op(e)] else []
    case _ => [Op(e)]
  }

  /** The form that is written leaves out the table and record. */
  predicate UsesRecord(e: Event, w: Context) {
    match e
    case InsertInto(t, r) => t == w.table && r == w.record + 1
    case Update(_, t, r, f, _) => t == w.table && (r == w.record || (r == w.record + 1 && f == w.field))
    case _ => false
  }

  /** It leaves out the field too. */
  predicate UsesField(e: Event, w: Context) {
    e.Update? && e.table == w.table && e.record == w.record + 1 && e.field == w.field
  }

  /** The reader remembers what the form leaves out as the writer does. */
  predicate InSync(w: Context, r: Context, e: Event) {
    && (UsesRecord(e, w) ==> r.table == w.table && r.record == w.record)
    && (UsesField(e, w) ==> r.field == w.field)
  }

  /** Which parts of the context operations have set. */
  datatype Known = Known(record: bool, field: bool)

  const NOTHING := Known(false, false)
  const EVERYTHING := Known(true, true)

  function Learn(e: Event, k: Known): Known {
    Known(k.record || e.InsertInto? || e.InsertVector? || e.Update? || e.UpdateVector?,
          k.field || e.Update? || e.UpdateVector?)
  }

  predicate AgreeOn(w: Context, r: Context, k: Known) {
    && (k.record ==> r.table == w.table && r.record == w.record)
    && (k.field ==> r.field == w.field)
  }

  /** The operation is written without relying on what was not set. */
  predicate Covered(e: Event, w: Context, k: Known) {
    (UsesRecord(e, w) ==> k.record) && (UsesField(e, w) ==> k.field)
  }

  /** What operations have set they have set alike in writer and reader. */
  lemma AgreeKept(w: Context, r: Context, e: Event, k: Known)
    requires AgreeOn(w, r, k)
    ensures AgreeOn(Remember(e, w), Remember(e, r), Learn(e, k))
    ensures Covered(e, w, k) ==> InSync(w, r, e)
  {
  }

  predicate Nonzero(e: Event) {
    match e
    case InsertInto(t, _) => t != 0
    case InsertVector(t, _, _) => t != 0
    case Update(_, t, _, f, _) => t != 0 && f != 0
    case UpdateVector(_, t, _, f, _) => t != 0 && f != 0
    case _ => true
  }

  /** The operation `e` written with memory `w` lies at `p`, below the checkpoint. */
  ghost predicate Placed(f: seq<byte>, p: nat, e: Event, w: Context, checkpoint: nat) {
    Writable(e) && Laid(f, p, Written(e, w)) && End(f, p, Written(e, w)) <= checkpoint
  }

  /** Reading at `p` with memory `r` gives `e` and stops where it ends. */
  ghost predicate ReadsBack(f: seq<byte>, p: nat, e: Event, w: Context, r: Context, checkpoint: nat, wantsBlobs: bool)
    requires Writable(e)
  {
    OneStep(f, p, r, checkpoint, wantsBlobs) ==
    Stepped(Deliveries(e, f, p, wantsBlobs), End(f, p, Written(e, w)), Remember(e, r))
  }

  lemma NamedBack(f: seq<byte>, p: nat, e: Event, w: Context, r: Context, checkpoint: nat, wantsBlobs: bool)
    requires Placed(f, p, e, w, checkpoint) && (e.CreateTable? || e.Comment? || e.Custom?)
    ensures ReadsBack(f, p, e, w, r, checkpoint, wantsBlobs)
  {
    Peel(f, p, Written(e, w).head, StringTokens(e.name));
    StringBack(f, p + 1, e.name, checkpoint);
  }

  lemma TypeBack(f: seq<byte>, p: nat, ft: FieldType)
    requires (if ft.id == REFERENCE_TYPE then IsId(ft.table) else ft.table == 0) && Laid(f, p, TypeTokens(ft))
    ensures ReadType(f, p) == Parsed(ft, End(f, p, TypeTokens(ft)))
  {
    if ft.id == REFERENCE_TYPE {
      Peel(f, p, Code(ft.id), Cons(Num(ft.table), Nil));
      Peel(f, p + 1, Num(ft.table), Nil);
      IdBack(f, p + 1, ft.table);
    } else {
      Peel(f, p, Code(ft.id), Nil);
    }
  }

  lemma AddFieldBack(f: seq<byte>, p: nat, e: Event, w: Context, r: Context, checkpoint: nat, wantsBlobs: bool)
    requires Placed(f, p, e, w, checkpoint) && e.AddField?
    ensures ReadsBack(f, p, e, w, r, checkpoint, wantsBlobs)
  {
    var name, ft := StringTokens(e.name), TypeTokens(e.fieldType);
    Peel(f, p, Code(0x03), Cons(Num(e.table), Append(name, ft)));
    Peel(f, p + 1, Num(e.table), Append(name, ft));
    IdBack(f, p + 1, e.table);
    var q := After(f, p + 1, Num(e.table));
    AppendLaid(f, q, name, ft);
    StringBack(f, q, e.name, checkpoint);
    TypeBack(f, End(f, q, name), e.fieldType);
  }

  lemma DropTableBack(f: seq<byte>, p: nat, e: Event, w: Context, r: Context, checkpoint: nat, wantsBlobs: bool)
    requires Placed(f, p, e, w, checkpoint) && e.DropTable?
    ensures ReadsBack(f, p, e, w, r, checkpoint, wantsBlobs)
  {
    Peel(f, p, Code(0x02), Cons(Num(e.table), Nil));
    Peel(f, p + 1, Num(e.table), Nil);
    IdBack(f, p + 1, e.table);
  }

  lemma RenameTableBack(f: seq<byte>, p: nat, e: Event, w: Context, r: Context, checkpoint: nat, wantsBlobs: bool)
    requires Placed(f, p, e, w, checkpoint) && e.RenameTable?
    ensures ReadsBack(f, p, e, w, r, checkpoint, wantsBlobs)
  {
    Peel(f, p, Code(0x0c), Cons(Num(e.table), StringTokens(e.name)));
    Peel(f, p + 1, Num(e.table), StringTokens(e.name));
    IdBack(f, p + 1, e.table);
    StringBack(f, After(f, p + 1, Num(e.table)), e.name, checkpoint);
  }

  lemma FieldBack(f: seq<byte>, p: nat, e: Event, w: Context, r: Context, checkpoint: nat, wantsBlobs: bool)
    requires Placed(f, p, e, w, checkpoint) && (e.DropField? || e.RenameField?)
    ensures ReadsBack(f, p, e, w, r, checkpoint, wantsBlobs)
  {
    var rest := if e.DropField? then Nil else StringTokens(e.name);
    Peel(f, p, Written(e, w).head, Cons(Num(e.table), Cons(Num(e.field), rest)));
    Peel(f, p + 1, Num(e.table), Cons(Num(e.field), rest));
    IdBack(f, p + 1, e.table);
    var q := After(f, p + 1, Num(e.table));
    Peel(f, q, Num(e.field), rest);
    IdBack(f, q, e.field);
    if e.RenameField? {
      StringBack(f, After(f, q, Num(e.field)), e.name, checkpoint);
    }
  }

  lemma RecordBack(f: seq<byte>, p: nat, e: Event, w: Context, r: Context, checkpoint: nat, wantsBlobs: bool)
    requires Placed(f, p, e, w, checkpoint) && (e.InsertInto? || e.DeleteFrom?)
    requires InSync(w, r, e)
    ensures ReadsBack(f, p, e, w, r, checkpoint, wantsBlobs)
  {
    if UsesRecord(e, w) {
      Peel(f, p, Code(0x08), Nil);
    } else {
      Peel(f, p, Written(e, w).head, Cons(Num(e.table), Cons(Num(e.record + 1), Nil)));
      Peel(f, p + 1, Num(e.table), Cons(Num(e.record + 1), Nil));
      IdBack(f, p + 1, e.table);
      var q := After(f, p + 1, Num(e.table));
      Peel(f, q, Num(e.record + 1), Nil);
      RecordIdBack(f, q, e.record);
    }
  }

  lemma RecordVectorBack(f: seq<byte>, p: nat, e: Event, w: Context, r: Context, checkpoint: nat, wantsBlobs: bool)
    requires Placed(f, p, e, w, checkpoint) && (e.InsertVector? || e.DeleteVector?)
    ensures ReadsBack(f, p, e, w, r, checkpoint, wantsBlobs)
  {
    Peel(f, p, Written(e, w).head, Triple(e.table, e.record, e.count, Nil));
    Peel(f, p + 1, Num(e.table), Cons(Num(e.record + 1), Cons(Num(e.count), Nil)));
    IdBack(f, p + 1, e.table);
    var q := After(f, p + 1, Num(e.table));
    Peel(f, q, Num(e.record + 1), Cons(Num(e.count), Nil));
    RecordIdBack(f, q, e.record);
    Peel(f, After(f, q, Num(e.record + 1)), Num(e.count), Nil);
  }

  lemma SmallBack(f: seq<byte>, p: nat, e: Event, w: Context, r: Context, checkpoint: nat, wantsBlobs: bool)
    requires Placed(f, p, e, w, checkpoint) && (e.Timestamp? || e.ValidData?)
    ensures ReadsBack(f, p, e, w, r, checkpoint, wantsBlobs)
  {
    if e.Timestamp? {
      Peel(f, p, Code(0x0b), Cons(Raw(e.time), Nil));
      Peel(f, p + 1, Raw(e.time), Nil);
    } else {
      Peel(f, p, Code(0x0e), Nil);
    }
  }

  lemma BlobBack(f: seq<byte>, p: nat, e: Event, w: Context, r: Context, checkpoint: nat, wantsBlobs: bool)
    requires Placed(f, p, e, w, checkpoint) && e.Blob?
    ensures ReadsBack(f, p, e, w, r, checkpoint, wantsBlobs)
  {
    Peel(f, p, Code(0x13), StringTokens(e.data));
    Peel(f, p + 1, Num(|e.data|), Cons(Raw(e.data), Nil));
    Peel(f, After(f, p + 1, Num(|e.data|)), Raw(e.data), Nil);
  }

  lemma TripleBack(f: seq<byte>, p: nat, t: nat, r: int, fld: nat, rest: Tokens) returns (q: nat)
    requires IsId(t) && IsRecord(r) && IsId(fld) && Laid(f, p, Triple(t, r, fld, rest))
    ensures ReadTriple(f, p) == Parsed(Context(t, r, fld), q) && Laid(f, q, rest) && p <= q
    ensures End(f, p, Triple(t, r, fld, rest)) == End(f, q, rest)
  {
    Peel(f, p, Num(t), Cons(Num(r + 1), Cons(Num(fld), rest)));
    IdBack(f, p, t);
    var q1 := After(f, p, Num(t));
    Peel(f, q1, Num(r + 1), Cons(Num(fld), rest));
    RecordIdBack(f, q1, r);
    var q2 := After(f, q1, Num(r + 1));
    Peel(f, q2, Num(fld), rest);
    IdBack(f, q2, fld);
    q := After(f, q2, Num(fld));
  }

  lemma CodeOfUpdate(k: Kind, form: nat)
    requires form < 4
    ensures var c := UpdateCode(k) + form; KindOf((c - 0x81) / 4) == k && (c - 0x81) % 4 == form
  {
  }

  /** What a reader with memory `r` makes of a form that leaves out what the writer remembers as `w`. */
  function Misread(e: Event, w: Context, r: Context): Event
    requires UsesRecord(e, w)
  {
    match e
    case InsertInto(_, _) => InsertInto(r.table, r.record + 1)
    case Update(k, t, rec, f, v) =>
      if rec == w.record then Update(k, r.table, r.record, f, v) else Update(k, r.table, r.record + 1, r.field, v)
  }

  lemma AppendRead(f: seq<byte>, p: nat, e: Event, w: Context, r: Context, checkpoint: nat, wantsBlobs: bool)
    requires Placed(f, p, e, w, checkpoint) && e.InsertInto? && UsesRecord(e, w)
    ensures OneStep(f, p, r, checkpoint, wantsBlobs) ==
            Stepped([Op(Misread(e, w, r))], End(f, p, Written(e, w)), Remember(Misread(e, w, r), r))
  {
    Peel(f, p, Code(0x08), Nil);
  }

  lemma UpdateLastRead(f: seq<byte>, p: nat, e: Event, w: Context, r: Context, checkpoint: nat, wantsBlobs: bool)
    requires Placed(f, p, e, w, checkpoint) && e.Update? && e.table == w.table && e.record == w.record
    ensures OneStep(f, p, r, checkpoint, wantsBlobs) ==
            Stepped([Op(Misread(e, w, r))], End(f, p, Written(e, w)), Remember(Misread(e, w, r), r))
  {
    var ts := ValueTokens(e.value, e.kind);
    CodeOfUpdate(e.kind, 1);
    Peel(f, p, Code(UpdateCode(e.kind) + 1), Cons(Num(e.field), ts));
    Peel(f, p + 1, Num(e.field), ts);
    IdBack(f, p + 1, e.field);
    ValueBack(f, After(f, p + 1, Num(e.field)), e.value, e.kind, checkpoint);
  }

  lemma UpdateNextRead(f: seq<byte>, p: nat, e: Event, w: Context, r: Context, checkpoint: nat, wantsBlobs: bool)
    requires Placed(f, p, e, w, checkpoint) && UsesField(e, w)
    ensures OneStep(f, p, r, checkpoint, wantsBlobs) ==
            Stepped([Op(Misread(e, w, r))], End(f, p, Written(e, w)), Remember(Misread(e, w, r), r))
  {
    CodeOfUpdate(e.kind, 2);
    Peel(f, p, Code(UpdateCode(e.kind) + 2), ValueTokens(e.value, e.kind));
    ValueBack(f, p + 1, e.value, e.kind, checkpoint);
  }

  /** A short form is read with the reader's own memory in place of what it leaves out. */
  lemma ShortRead(f: seq<byte>, p: nat, e: Event, w: Context, r: Context, checkpoint: nat, wantsBlobs: bool)
    requires Placed(f, p, e, w, checkpoint) && UsesRecord(e, w)
    ensures OneStep(f, p, r, checkpoint, wantsBlobs) ==
            Stepped([Op(Misread(e, w, r))], End(f, p, Written(e, w)), Remember(Misread(e, w, r), r))
  {
    if e.InsertInto? {
      AppendRead(f, p, e, w, r, checkpoint, wantsBlobs);
    } else if e.record == w.record {
      UpdateLastRead(f, p, e, w, r, checkpoint, wantsBlobs);
    } else {
      UpdateNextRead(f, p, e, w, r, checkpoint, wantsBlobs);
    }
  }

  lemma UpdateFullBack(f: seq<byte>, p: nat, e: Event, w: Context, r: Context, checkpoint: nat, wantsBlobs: bool)
    requires Placed(f, p, e, w, checkpoint) && e.Update?
    requires !(e.table == w.table && (e.record == w.record || (e.record == w.record + 1 && e.field == w.field)))
    ensures ReadsBack(f, p, e, w, r, checkpoint, wantsBlobs)
  {
    var ts := ValueTokens(e.value, e.kind);
    CodeOfUpdate(e.kind, 0);
    Peel(f, p, Code(UpdateCode(e.kind)), Triple(e.table, e.record, e.field, ts));
    var q := TripleBack(f, p + 1, e.table, e.record, e.field, ts);
    ValueBack(f, q, e.value, e.kind, checkpoint);
  }

  lemma UpdateBack(f: seq<byte>, p: nat, e: Event, w: Context, r: Context, checkpoint: nat, wantsBlobs: bool)
    requires Placed(f, p, e, w, checkpoint) && e.Update? && InSync(w, r, e)
    ensures ReadsBack(f, p, e, w, r, checkpoint, wantsBlobs)
  {
    if UsesRecord(e, w) {
      ShortRead(f, p, e, w, r, checkpoint, wantsBlobs);
    } else {
      UpdateFullBack(f, p, e, w, r, checkpoint, wantsBlobs);
    }
  }

  /** The fields of a vector update up to its size. */
  lemma VectorHead(f: seq<byte>, p: nat, e: Event, w: Context, r: Context, checkpoint: nat, wantsBlobs: bool) returns (q: nat, q': nat)
    requires Placed(f, p, e, w, checkpoint) && e.UpdateVector?
    ensures OneStep(f, p, r, checkpoint, wantsBlobs) == StepVector(f, p + 1, e.kind, checkpoint)
    ensures ReadTriple(f, p + 1) == Parsed(Context(e.table, e.record, e.field), q)
    ensures ReadCompact(f, q) == Parsed(|e.values|, q')
    ensures Laid(f, q', ValuesTokens(e.values, e.kind))
    ensures End(f, p, Written(e, w)) == End(f, q', ValuesTokens(e.values, e.kind))
  {
    var ts := ValuesTokens(e.values, e.kind);
    CodeOfUpdate(e.kind, 3);
    Peel(f, p, Code(UpdateCode(e.kind) + 3), Triple(e.table, e.record, e.field, Cons(Num(|e.values|), ts)));
    q := TripleBack(f, p + 1, e.table, e.record, e.field, Cons(Num(|e.values|), ts));
    Peel(f, q, Num(|e.values|), ts);
    q' := After(f, q, Num(|e.values|));
  }

  lemma VectorBack(f: seq<byte>, p: nat, e: Event, w: Context, r: Context, checkpoint: nat, wantsBlobs: bool)
    requires Placed(f, p, e, w, checkpoint) && e.UpdateVector?
    ensures Replayable(e) ==> ReadsBack(f, p, e, w, r, checkpoint, wantsBlobs)
    ensures !Replayable(e) ==> OneStep(f, p, r, checkpoint, wantsBlobs) == Failed
  {
    var q, q' := VectorHead(f, p, e, w, r, checkpoint, wantsBlobs);
    ValuesBack(f, q', e.values, e.kind, checkpoint);
  }

  /**
   One operation, wherever it lies below the checkpoint: the reader delivers it and remembers what
   the writer remembers; no size guard fires. The exception is a non-empty vector update of the
   null record, which the reader refuses.
   */
  lemma StepReadsBack(f: seq<byte>, p: nat, e: Event, w: Context, r: Context, checkpoint: nat, wantsBlobs: bool)
    requires Placed(f, p, e, w, checkpoint) && InSync(w, r, e)
    ensures Replayable(e) ==> ReadsBack(f, p, e, w, r, checkpoint, wantsBlobs)
    ensures !Replayable(e) ==> OneStep(f, p, r, checkpoint, wantsBlobs) == Failed
  {
    match e {
      case CreateTable(_) => NamedBack(f, p, e, w, r, checkpoint, wantsBlobs);
      case Comment(_) => NamedBack(f, p, e, w, r, checkpoint, wantsBlobs);
      case Custom(_) => NamedBack(f, p, e, w, r, checkpoint, wantsBlobs);
      case DropTable(_) => DropTableBack(f, p, e, w, r, checkpoint, wantsBlobs);
      case RenameTable(_, _) => RenameTableBack(f, p, e, w, r, checkpoint, wantsBlobs);
      case AddField(_, _, _) => AddFieldBack(f, p, e, w, r, checkpoint, wantsBlobs);
      case DropField(_, _) => FieldBack(f, p, e, w, r, checkpoint, wantsBlobs);
      case RenameField(_, _, _) => FieldBack(f, p, e, w, r, checkpoint, wantsBlobs);
      case Timestamp(_) => SmallBack(f, p, e, w, r, checkpoint, wantsBlobs);
      case ValidData => SmallBack(f, p, e, w, r, checkpoint, wantsBlobs);
      case InsertInto(_, _) => RecordBack(f, p, e, w, r, checkpoint, wantsBlobs);
      case DeleteFrom(_, _) => RecordBack(f, p, e, w, r, checkpoint, wantsBlobs);
      case InsertVector(_, _, _) => RecordVectorBack(f, p, e, w, r, checkpoint, wantsBlobs);
      case DeleteVector(_, _, _) => RecordVectorBack(f, p, e, w, r, checkpoint, wantsBlobs);
      case Update(_, _, _, _, _) => UpdateBack(f, p, e, w, r, checkpoint, wantsBlobs);
      case UpdateVector(_, _, _, _, _) => VectorBack(f, p, e, w, r, checkpoint, wantsBlobs);
      case Blob(_) => BlobBack(f, p, e, w, r, checkpoint, wantsBlobs);
    }
  }
}
