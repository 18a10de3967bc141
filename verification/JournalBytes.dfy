/** The bytes of the format, and what reading makes of arbitrary bytes. */
module JournalBytes {
  import opened Bytes
  import opened CompactInt
  import opened JournalFormat
  import opened JournalCodec
  import opened Tables

  // ---------- codes ----------

  /** Each type has four codes for updates: full, same record, next record, vector. */
  function FirstUpdateCode(k: Kind): int {
    match k
    case KString => 129 case KInt32 => 133 case KInt64 => 137 case KReference => 141 case KBoolean => 145
    case KFloat32 => 149 case KFloat64 => 153 case KInt8 => 157 case KInt16 => 161 case KBlob => 165
  }

  /** The byte that a writer may put first for an operation. */
  predicate CodeOf(e: Event, code: byte) {
    match e
    case CreateTable(_) => code == 1
    case DropTable(_) => code == 2
    case AddField(_, _, _) => code == 3
    case DropField(_, _) => code == 4
    case InsertInto(_, _) => code == 5 || code == 8
    case DeleteFrom(_, _) => code == 6
    case Comment(_) => code == 10
    case Timestamp(_) => code == 11
    case RenameTable(_, _) => code == 12
    case RenameField(_, _, _) => code == 13
    case ValidData => code == 14
    case InsertVector(_, _, _) => code == 15
    case Custom(_) => code == 16
    case Blob(_) => code == 19
    case DeleteVector(_, _, _) => code == 20
    case Update(k, _, _, _, _) => FirstUpdateCode(k) <= code <= FirstUpdateCode(k) + 2
    case UpdateVector(k, _, _, _, _) => code == FirstUpdateCode(k) + 3
  }

  /** An insertion or an update that continues the last one has a shorter form, with a code of its own. */
  predicate FormOf(e: Event, c: Context, code: byte) {
    match e
    case InsertInto(t, r) => code == if t == c.table && r == c.record + 1 then 8 else 5
    case Update(k, t, r, f, _) =>
      code == FirstUpdateCode(k) +
              if t == c.table && r == c.record then 1
              else if t == c.table && r == c.record + 1 && f == c.field then 2
              else 0
    case _ => true
  }

  /** Every operation starts with its code. */
  lemma OperationsStartWithCode(e: Event, c: Context)
    requires Writable(e)
    ensures var r := Render(Written(e, c)); r != [] && CodeOf(e, r[0]) && FormOf(e, c, r[0])
  {
    var ts := Written(e, c);
    assert Render(ts) == RenderOne(ts.head) + Render(ts.tail);
    assert Render(Nil) == [];
  }

  /** Small integers are written most significant byte first; the top three bits of the first byte count the others. */
  lemma SmallIntegers(x: nat)
    requires x < 0x200000
    ensures Encode(x) ==
            if x < 0x20 then [x]
            else if x < 0x2000 then [0x20 + x / 0x100, x % 0x100]
            else [0x40 + x / 0x10000, x / 0x100 % 0x100, x % 0x100]
  {
    assert Shift(x, 0) == x && Shift(x, 1) == x / 256 && Shift(x, 2) == Shift(x / 256, 1) == x / 256 / 256;
    assert BigEndian(x, 0) == [];
    assert BigEndian(x, 1) == [x % 256];
    assert BigEndian(x, 2) == [x / 256 % 256, x % 256];
    Lengths(x);
  }

  lemma Lengths(x: nat)
    requires x < 0x200000
    ensures ExtraBytes(x, 0) == if x < 0x20 then 0 else if x < 0x2000 then 1 else 2
  {
    assert Shift(x, 0) == x && Shift(x, 1) == x / 256 && Shift(x, 2) == Shift(x / 256, 1) == x / 256 / 256;
  }

  // ---------- small operations, byte by byte ----------

  predicate Small(x: int) { 0 <= x < 32 }

  lemma OneNumber(n: nat, rest: Tokens)
    requires Small(n) && Fit(rest)
    ensures Fit(Cons(Num(n), rest)) && Render(Cons(Num(n), rest)) == [n] + Render(rest)
  {
    SmallIntegers(n);
  }

  lemma Numbers(code: byte, a: nat, b: nat, rest: Tokens)
    requires Small(a) && Small(b) && Fit(rest)
    ensures Fit(Cons(Code(code), Pair(a, b, rest)))
    ensures Render(Cons(Code(code), Pair(a, b, rest))) == [code, a, b] + Render(rest)
  {
    OneNumber(b, rest);
    OneNumber(a, Cons(Num(b), rest));
  }

  lemma LastNumber(n: nat)
    requires Small(n)
    ensures Fit(Cons(Num(n), Nil)) && Render(Cons(Num(n), Nil)) == [n] && Render(Nil) == []
  {
    OneNumber(n, Nil);
  }

  lemma Sized(n: nat, raw: seq<byte>)
    requires Small(n)
    ensures Fit(Cons(Num(n), Cons(Raw(raw), Nil))) && Render(Cons(Num(n), Cons(Raw(raw), Nil))) == [n] + raw
  {
    assert raw + [] == raw;
    OneNumber(n, Cons(Raw(raw), Nil));
  }

  /** With small ids the bytes of an operation can be read off: code, table, record plus one, and a count. */
  lemma SmallRecordOperations(t: nat, r: int, n: nat, c: Context)
    requires Small(t) && Small(r + 1) && Small(n)
    ensures Render(Written(InsertVector(t, r, n), c)) == [15, t, r + 1, n]
    ensures Render(Written(DeleteVector(t, r, n), c)) == [20, t, r + 1, n]
  {
    LastNumber(n);
    Numbers(15, t, r + 1, Cons(Num(n), Nil));
    Numbers(20, t, r + 1, Cons(Num(n), Nil));
  }

  lemma SmallPairs(t: nat, r: int, f: nat, c: Context)
    requires Small(t) && Small(r + 1) && Small(f)
    ensures Render(Written(DropField(t, f), c)) == [4, t, f]
    ensures Render(Written(DeleteFrom(t, r), c)) == [6, t, r + 1]
    ensures !(t == c.table && r == c.record + 1) ==> Render(Written(InsertInto(t, r), c)) == [5, t, r + 1]
  {
    LastNumber(0);
    Numbers(4, t, f, Nil);
    Numbers(6, t, r + 1, Nil);
    Numbers(5, t, r + 1, Nil);
  }

  /** A new writer takes the last record to be -1 of table 0. */
  lemma FirstInsertion(r: nat)
    requires Small(r + 1)
    ensures Render(Written(InsertInto(1, r), RESET)) == [5, 1, r + 1]
    ensures Render(Written(InsertInto(0, r), RESET)) == if r == 0 then [8] else [5, 0, r + 1]
  {
    SmallPairs(1, r, 0, RESET);
    SmallPairs(0, r, 0, RESET);
    OperationsStartWithCode(InsertInto(0, r), RESET);
    LastNumber(0);
  }

  /** Names follow with their size in front. */
  lemma SmallNames(t: nat, f: nat, name: seq<byte>, c: Context)
    requires Small(t) && Small(f) && Small(|name|)
    ensures Render(Written(CreateTable(name), c)) == [1, |name|] + name
    ensures Render(Written(RenameTable(t, name), c)) == [12, t, |name|] + name
    ensures Render(Written(RenameField(t, f, name), c)) == [13, t, f, |name|] + name
  {
    Sized(|name|, name);
    OneNumber(t, StringTokens(name));
    Numbers(13, t, f, StringTokens(name));
  }

  /** The full form of an update: code, table, record plus one, field, value. */
  lemma SmallUpdate(t: nat, r: int, f: nat, b: byte, c: Context)
    requires Small(t) && Small(r + 1) && Small(f) && t != c.table
    ensures Render(Written(Update(KInt8, t, r, f, VFixed([b])), c)) == [157, t, r + 1, f, b]
  {
    Sized(f, [b]);
    Numbers(157, t, r + 1, Cons(Num(f), Cons(Raw([b]), Nil)));
  }

  /** What a new record has in a field would be written as zero bytes, whatever the type. */
  lemma DefaultsAreZeros(k: Kind)
    ensures HasKind(Default(k), k)
    ensures forall i :: 0 <= i < |Render(ValueTokens(Default(k), k))| ==> Render(ValueTokens(Default(k), k))[i] == 0
  {
    SmallIntegers(0);
    var ts := ValueTokens(Default(k), k);
    assert Render(ts) == RenderOne(ts.head) + Render(ts.tail);
    if ts.tail.Cons? {
      assert Render(ts.tail) == RenderOne(ts.tail.head) + Render(ts.tail.tail);
    }
    assert Render(Nil) == [];
  }

  /** The types of fields are numbered from 1 in this order; what a value takes at least, and exactly if its size is fixed. */
  lemma TypesAreNumbered(table: nat)
    ensures KindOfType(FieldType(0, table)) == None && KindOfType(FieldType(11, table)) == None
    ensures KindOfType(FieldType(1, table)) == Some(KString) && KindOfType(FieldType(10, table)) == Some(KBlob)
    ensures KindOfType(FieldType(2, table)) == Some(KInt32) && KindOfType(FieldType(3, table)) == Some(KInt64)
    ensures KindOfType(FieldType(4, table)) == Some(KReference) && KindOfType(FieldType(5, table)) == Some(KBoolean)
    ensures KindOfType(FieldType(6, table)) == Some(KFloat32) && KindOfType(FieldType(7, table)) == Some(KFloat64)
    ensures KindOfType(FieldType(8, table)) == Some(KInt8) && KindOfType(FieldType(9, table)) == Some(KInt16)
    ensures REFERENCE_TYPE == 4
  {
  }

  /** A value of a fixed size is the bits of its type, in bytes; the others have no fixed size. */
  lemma FixedSizes(v: Value, k: Kind)
    requires HasKind(v, k)
    ensures 8 * |Render(ValueTokens(v, k))| ==
            match k
            case KInt8 => 8 case KInt16 => 16 case KInt32 => 32 case KInt64 => 64 case KFloat32 => 32 case KFloat64 => 64
            case KBoolean => 8
            case _ => 8 * |Render(ValueTokens(v, k))|
    ensures v.VFixed? ==> Render(ValueTokens(v, k)) == v.raw
  {
    if v.VFixed? {
      OneRaw(v.raw);
    }
  }

  lemma OneRaw(raw: seq<byte>)
    ensures Render(Cons(Raw(raw), Nil)) == raw
  {
    assert raw + [] == raw;
  }

  // ---------- arbitrary bytes ----------

  /** Strings are shorter than the checkpoint, or empty. */
  predicate Short(s: seq<byte>, checkpoint: nat) {
    s == [] || |s| < checkpoint
  }

  predicate ShortValue(v: Value, checkpoint: nat) {
    v.VString? ==> Short(v.text, checkpoint)
  }

  /** What may be delivered to a listener: ids of 16 bits, and nothing bigger than the file. */
  predicate Bounded(e: Event, checkpoint: nat) {
    match e
    case CreateTable(name) => Short(name, checkpoint)
    case Comment(name) => Short(name, checkpoint)
    case Custom(name) => Short(name, checkpoint)
    case DropTable(t) => t < 65536
    case RenameTable(t, name) => t < 65536 && Short(name, checkpoint)
    case AddField(t, name, ft) => t < 65536 && Short(name, checkpoint) && ft.table < 65536
    case DropField(t, f) => t < 65536 && f < 65536
    case RenameField(t, f, name) => t < 65536 && f < 65536 && Short(name, checkpoint)
    case InsertInto(t, _) => t < 65536
    case DeleteFrom(t, r) => t < 65536 && r >= -1
    case InsertVector(t, r, _) => t < 65536 && r >= -1
    case DeleteVector(t, r, _) => t < 65536 && r >= -1
    case Update(_, t, _, f, v) => t < 65536 && f < 65536 && ShortValue(v, checkpoint)
    case UpdateVector(_, t, r, f, vs) =>
      t < 65536 && f < 65536 && r >= 0 && 0 < |vs| <= checkpoint && forall i :: 0 <= i < |vs| ==> ShortValue(vs[i], checkpoint)
    case Blob(data) => Short(data, checkpoint)
    case Timestamp(time) => |time| == 8
    case ValidData => true
  }

  predicate BoundedContext(c: Context) {
    c.table < 65536 && c.field < 65536 && c.record >= -1
  }

  ghost predicate BoundedStep(s: Step, checkpoint: nat) {
    s.Stepped? ==>
      && BoundedContext(s.context)
      && forall i :: 0 <= i < |s.delivered| && s.delivered[i].Op? ==> Bounded(s.delivered[i].event, checkpoint)
  }

  lemma {:induction false} ValuesAreBounded(f: seq<byte>, p: nat, k: Kind, n: nat, checkpoint: nat)
    ensures var r := ReadValues(f, p, k, n, checkpoint);
            r.Parsed? ==> |r.value| == n && forall i :: 0 <= i < n ==> ShortValue(r.value[i], checkpoint)
    decreases n
  {
    if n > 0 {
      var v := ReadValue(f, p, k, checkpoint);
      if v.Parsed? {
        ValuesAreBounded(f, v.next, k, n - 1, checkpoint);
      }
    }
  }

  lemma TableStepIsBounded(f: seq<byte>, p: nat, code: byte, c: Context, checkpoint: nat)
    requires BoundedContext(c)
    ensures BoundedStep(StepTable(f, p, code, c, checkpoint), checkpoint)
  {
  }

  lemma RecordStepIsBounded(f: seq<byte>, p: nat, code: byte, c: Context, checkpoint: nat)
    requires BoundedContext(c)
    ensures BoundedStep(StepRecord(f, p, code, c), checkpoint)
  {
  }

  lemma VectorStepIsBounded(f: seq<byte>, p: nat, k: Kind, checkpoint: nat)
    ensures BoundedStep(StepVector(f, p, k, checkpoint), checkpoint)
  {
    var c := ReadTriple(f, p);
    if c.Parsed? {
      var n := ReadCompact(f, c.next);
      if n.Parsed? {
        ValuesAreBounded(f, n.next, k, n.value, checkpoint);
      }
    }
  }

  lemma ValueStepIsBounded(f: seq<byte>, p: nat, k: Kind, c: Context, checkpoint: nat)
    requires BoundedContext(c)
    ensures BoundedStep(StepValue(f, p, k, c, checkpoint), checkpoint)
  {
  }

  lemma UpdateStepIsBounded(f: seq<byte>, p: nat, k: Kind, form: nat, c: Context, checkpoint: nat)
    requires BoundedContext(c)
    ensures BoundedStep(StepUpdate(f, p, k, form, c, checkpoint), checkpoint)
  {
    if form == 0 {
      var t := ReadTriple(f, p);
      if t.Parsed? {
        ValueStepIsBounded(f, t.next, k, t.value, checkpoint);
      }
    } else if form == 1 {
      var field := ReadId(f, p);
      if field.Parsed? {
        ValueStepIsBounded(f, field.next, k, c.(field := field.value), checkpoint);
      }
    } else if form == 2 {
      ValueStepIsBounded(f, p, k, c.(record := c.record + 1), checkpoint);
    } else {
      VectorStepIsBounded(f, p, k, checkpoint);
    }
  }

  /** Whatever the bytes of a file, one step delivers only operations within these bounds. */
  lemma StepIsBounded(f: seq<byte>, p: nat, c: Context, checkpoint: nat, wantsBlobs: bool)
    requires BoundedContext(c)
    ensures BoundedStep(OneStep(f, p, c, checkpoint, wantsBlobs), checkpoint)
  {
    if p < |f| {
      var code, q := f[p], p + 1;
      if code == 2 || code == 3 || code == 4 || code == 12 || code == 13 {
        TableStepIsBounded(f, q, code, c, checkpoint);
      } else if code == 5 || code == 6 || code == 15 || code == 20 {
        RecordStepIsBounded(f, q, code, c, checkpoint);
      } else if 0x81 <= code <= 0xa8 {
        UpdateStepIsBounded(f, q, KindOf((code - 0x81) / 4), (code - 0x81) % 4, c, checkpoint);
      }
    }
  }

  predicate IsCode(code: byte) {
    1 <= code <= 6 || code == 8 || 10 <= code <= 16 || code == 19 || code == 20 || 129 <= code <= 168
  }

  lemma CodesOfOperations(e: Event, code: byte)
    requires CodeOf(e, code)
    ensures IsCode(code)
  {
  }

  /** A byte that is the code of no operation stops the reader. */
  lemma UnknownCodeFails(f: seq<byte>, p: nat, c: Context, checkpoint: nat, wantsBlobs: bool)
    requires p < |f| && !IsCode(f[p])
    ensures OneStep(f, p, c, checkpoint, wantsBlobs) == Failed
  {
  }
}
