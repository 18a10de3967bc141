/**
 The reading half of `Readonly_Journal`, through its file buffer. What a method reads is what the
 function of the same name reads in the flat bytes, and the buffer is left where that one ends;
 after a failure only the bytes of the file are the same.
 */
module JournalReader {
  import opened Bytes
  import opened JournalFormat
  import opened JournalCodec
  import opened JournalReplay
  import opened JournalWriter
  import FileBuffer

  /** The buffer is ready to read `f` from position `p`. */
  ghost predicate StandsAt(b: FileBuffer.BufferedFile, f: seq<byte>, p: nat)
    reads b, b.data
  {
    b.Valid() && b.Reading() && b.View() == FileBuffer.Flat(f, p)
  }

  /** Reading `f` gave what the specification found, or failed as it did. */
  ghost predicate Got<T>(b: FileBuffer.BufferedFile, f: seq<byte>, spec: Parsed<T>, r: Option<T>)
    reads b, b.data
  {
    && b.Valid() && b.Reading() && b.View().bytes == f
    && (r.Some? <==> spec.Parsed?)
    && (spec.Parsed? ==> r == Some(spec.value) && b.View().position == spec.next)
  }

  /** The two ways to find a compact integer agree. */
  lemma CompactIsFound(f: seq<byte>, p: nat)
    ensures var a, b := FileBuffer.CompactAt(FileBuffer.Flat(f, p)), ReadCompact(f, p);
            && (a.Some? <==> b.Parsed?)
            && (b.Parsed? ==> b.value == a.value.0 && b.next == p + a.value.1)
  {
    if p < |f| {
      var extra := f[p] / 32;
      FileBuffer.SlowDecode(FileBuffer.Flat(f, p), f[p]);
      if p + 1 + extra <= |f| {
        ReadExtraIsFromBytes(f, p + 1, f[p] % 32, f[p + 1..p + 1 + extra]);
      } else {
        ReadExtraFails(f, p + 1, f[p] % 32, extra);
      }
    }
  }

  lemma {:induction false} ReadExtraFails(f: seq<byte>, p: nat, value: nat, extra: nat)
    requires p + extra > |f| && p <= |f|
    ensures ReadExtra(f, p, value, extra) == Bad
    decreases extra
  {
    if p < |f| {
      ReadExtraFails(f, p + 1, value * 256 + f[p], extra - 1);
    }
  }

  method CompactIn(b: FileBuffer.BufferedFile, ghost f: seq<byte>, ghost p: nat) returns (r: Option<nat>)
    requires StandsAt(b, f, p)
    modifies b, b.data
    ensures Got(b, f, ReadCompact(f, p), r)
  {
    CompactIsFound(f, p);
    r := b.CompactReadFrom();
  }

  method RawIn(b: FileBuffer.BufferedFile, n: nat, ghost f: seq<byte>, ghost p: nat) returns (r: Option<seq<byte>>)
    requires StandsAt(b, f, p) && (n > 0 || p <= |f|)
    modifies b, b.data
    ensures Got(b, f, ReadRaw(f, p, n), r)
  {
    assert p <= |f| ==> f[p..p] == [];
    r := b.ReadData(n);
  }

  method IdIn(b: FileBuffer.BufferedFile, ghost f: seq<byte>, ghost p: nat) returns (r: Option<nat>)
    requires StandsAt(b, f, p)
    modifies b, b.data
    ensures Got(b, f, ReadId(f, p), r)
  {
    var x := CompactIn(b, f, p);
    r := if x.Some? then Some(x.value % 65536) else None;
  }

  method ReferenceIn(b: FileBuffer.BufferedFile, ghost f: seq<byte>, ghost p: nat) returns (r: Option<int>)
    requires StandsAt(b, f, p)
    modifies b, b.data
    ensures Got(b, f, ReadReference(f, p), r)
  {
    var x := CompactIn(b, f, p);
    if x.None? {
      return None;
    }
    var stored: int := x.value;
    r := Some(stored - 1);
  }

  method StringIn(b: FileBuffer.BufferedFile, checkpoint: nat, ghost f: seq<byte>, ghost p: nat) returns (r: Option<seq<byte>>)
    requires StandsAt(b, f, p)
    modifies b, b.data
    ensures Got(b, f, ReadString(f, p, checkpoint), r)
  {
    var size := CompactIn(b, f, p);
    if size.None? {
      return None;
    }
    if 0 < size.value < checkpoint {
      r := RawIn(b, size.value, f, ReadCompact(f, p).next);
    } else {
      r := Some([]);
    }
  }

  method TypeIn(b: FileBuffer.BufferedFile, ghost f: seq<byte>, ghost p: nat) returns (r: Option<FieldType>)
    requires StandsAt(b, f, p)
    modifies b, b.data
    ensures Got(b, f, ReadType(f, p), r)
  {
    var id := b.ReadByte();
    if id.None? {
      return None;
    }
    if id.value != REFERENCE_TYPE {
      return Some(FieldType(id.value, 0));
    }
    var t := IdIn(b, f, p + 1);
    r := if t.Some? then Some(FieldType(REFERENCE_TYPE, t.value)) else None;
  }

  method BlobIn(b: FileBuffer.BufferedFile, ghost f: seq<byte>, ghost p: nat) returns (r: Option<Value>)
    requires StandsAt(b, f, p)
    modifies b, b.data
    ensures Got(b, f, ReadBlob(f, p), r)
  {
    var position := CompactIn(b, f, p);
    if position.None? {
      return None;
    }
    var size := CompactIn(b, f, ReadCompact(f, p).next);
    r := if size.Some? then Some(VBlob(position.value, size.value)) else None;
  }

  method ValueIn(b: FileBuffer.BufferedFile, k: Kind, checkpoint: nat, ghost f: seq<byte>, ghost p: nat) returns (r: Option<Value>)
    requires StandsAt(b, f, p)
    modifies b, b.data
    ensures Got(b, f, ReadValue(f, p, k, checkpoint), r)
  {
    if k == KString {
      var s := StringIn(b, checkpoint, f, p);
      r := if s.Some? then Some(VString(s.value)) else None;
    } else if k == KReference {
      var x := ReferenceIn(b, f, p);
      r := if x.Some? then Some(VReference(x.value)) else None;
    } else if k == KBlob {
      r := BlobIn(b, f, p);
    } else {
      var raw := RawIn(b, Width(k), f, p);
      r := if raw.Some? then Some(VFixed(raw.value)) else None;
    }
  }

  ghost function Following<T>(done: seq<T>, rest: Parsed<seq<T>>): Parsed<seq<T>> {
    match rest case Bad => Bad case Parsed(more, q) => Parsed(done + more, q)
  }

  lemma NothingBefore(rest: Parsed<seq<Value>>)
    ensures Following([], rest) == rest
  {
    assert rest.Parsed? ==> [] + rest.value == rest.value;
  }

  lemma NothingLeft(f: seq<byte>, q: nat, k: Kind, checkpoint: nat, done: seq<Value>)
    ensures Following(done, ReadValues(f, q, k, 0, checkpoint)) == Parsed(done, q)
  {
    assert done + [] == done;
  }

  lemma ValuesNext(f: seq<byte>, q: nat, k: Kind, n: nat, checkpoint: nat, done: seq<Value>)
    requires n > 0
    ensures Following(done, ReadValues(f, q, k, n, checkpoint)) ==
            match ReadValue(f, q, k, checkpoint)
            case Bad => Bad
            case Parsed(v, q') => Following(done + [v], ReadValues(f, q', k, n - 1, checkpoint))
  {
    var one := ReadValue(f, q, k, checkpoint);
    if one.Parsed? {
      var rest := ReadValues(f, one.next, k, n - 1, checkpoint);
      if rest.Parsed? {
        assert done + ([one.value] + rest.value) == (done + [one.value]) + rest.value;
      }
    }
  }

  /** The loop that fills a vector; for a type of fixed size the source reads its memory at once, which is the same bytes. */
  method ValuesIn(b: FileBuffer.BufferedFile, k: Kind, n: nat, checkpoint: nat, ghost f: seq<byte>, ghost p: nat)
    returns (r: Option<seq<Value>>)
    requires StandsAt(b, f, p)
    modifies b, b.data
    ensures Got(b, f, ReadValues(f, p, k, n, checkpoint), r)
  {
    var vs: seq<Value> := [];
    ghost var q, whole := p, ReadValues(f, p, k, n, checkpoint);
    NothingBefore(whole);
    for i := 0 to n
      invariant StandsAt(b, f, q)
      invariant whole == Following(vs, ReadValues(f, q, k, n - i, checkpoint))
    {
      ValuesNext(f, q, k, n - i, checkpoint, vs);
      var v := ValueIn(b, k, checkpoint, f, q);
      if v.None? {
        return None;
      }
      vs := vs + [v.value];
      q := ReadValue(f, q, k, checkpoint).next;
    }
    NothingLeft(f, q, k, checkpoint, vs);
    r := Some(vs);
  }

  method TripleIn(b: FileBuffer.BufferedFile, ghost f: seq<byte>, ghost p: nat) returns (r: Option<Context>)
    requires StandsAt(b, f, p)
    modifies b, b.data
    ensures Got(b, f, ReadTriple(f, p), r)
  {
    var t := IdIn(b, f, p);
    if t.None? {
      return None;
    }
    ghost var q := ReadId(f, p).next;
    var record := ReferenceIn(b, f, q);
    if record.None? {
      return None;
    }
    var field := IdIn(b, f, ReadReference(f, q).next);
    r := if field.Some? then Some(Context(t.value, record.value, field.value)) else None;
  }

  class Reader {
    const buffer: FileBuffer.BufferedFile
    const checkpoint: nat
    const wantsBlobs: bool
    var tableOfLastOperation: nat
    var recordOfLastOperation: int
    var fieldOfLastUpdate: nat

    ghost function Memory(): Context
      reads this
    {
      Context(tableOfLastOperation, recordOfLastOperation, fieldOfLastUpdate)
    }

    constructor (file: seq<byte>, c: nat, wants: bool)
      ensures fresh(buffer) && fresh(buffer.data) && StandsAt(buffer, file, START)
      ensures checkpoint == c && wantsBlobs == wants && Memory() == RESET
    {
      var b := new FileBuffer.BufferedFile(file);
      b.SetPosition(START);
      buffer, checkpoint, wantsBlobs := b, c, wants;
      tableOfLastOperation, recordOfLastOperation, fieldOfLastUpdate := 0, -1, 0;
    }

    /** A step in `f` did what the specification does, or failed as it does. */
    ghost predicate Did(f: seq<byte>, spec: Step, r: Option<seq<Delivery>>)
      reads this, buffer, buffer.data
    {
      && buffer.Valid() && buffer.Reading() && buffer.View().bytes == f
      && (r.Some? <==> spec.Stepped?)
      && (spec.Stepped? ==> r == Some(spec.delivered) && buffer.View().position == spec.next && Memory() == spec.context)
    }

    method NamedStep(code: byte, ghost f: seq<byte>, ghost p: nat) returns (r: Option<seq<Delivery>>)
      requires StandsAt(buffer, f, p)
      modifies buffer, buffer.data
      ensures Did(f, StepNamed(f, p, code, old(Memory()), checkpoint), r)
    {
      var name := StringIn(buffer, checkpoint, f, p);
      if name.None? {
        return None;
      }
      r := Some([Op(if code == 0x01 then CreateTable(name.value)
                    else if code == 0x0a then Comment(name.value) else Custom(name.value))]);
    }

    method TableStep(code: byte, ghost f: seq<byte>, ghost p: nat) returns (r: Option<seq<Delivery>>)
      requires StandsAt(buffer, f, p)
      modifies buffer, buffer.data
      ensures Did(f, StepTable(f, p, code, old(Memory()), checkpoint), r)
    {
      var t := IdIn(buffer, f, p);
      if t.None? {
        return None;
      }
      ghost var q := ReadId(f, p).next;
      if code == 0x02 {
        r := Some([Op(DropTable(t.value))]);
      } else if code == 0x0c {
        var name := StringIn(buffer, checkpoint, f, q);
        r := if name.Some? then Some([Op(RenameTable(t.value, name.value))]) else None;
      } else if code == 0x03 {
        r := AddFieldStep(t.value, f, q);
      } else {
        r := FieldStep(code, t.value, f, q);
      }
    }

    method AddFieldStep(t: nat, ghost f: seq<byte>, ghost q: nat) returns (r: Option<seq<Delivery>>)
      requires StandsAt(buffer, f, q)
      modifies buffer, buffer.data
      ensures Did(f, FieldAdded(f, q, t, old(Memory()), checkpoint), r)
    {
      var name := StringIn(buffer, checkpoint, f, q);
      if name.None? {
        return None;
      }
      var ft := TypeIn(buffer, f, ReadString(f, q, checkpoint).next);
      r := if ft.Some? then Some([Op(AddField(t, name.value, ft.value))]) else None;
    }

    method FieldStep(code: byte, t: nat, ghost f: seq<byte>, ghost q: nat) returns (r: Option<seq<Delivery>>)
      requires StandsAt(buffer, f, q)
      modifies buffer, buffer.data
      ensures Did(f, FieldChanged(f, q, code, t, old(Memory()), checkpoint), r)
    {
      var field := IdIn(buffer, f, q);
      if field.None? {
        return None;
      }
      if code == 0x04 {
        return Some([Op(DropField(t, field.value))]);
      }
      var name := StringIn(buffer, checkpoint, f, ReadId(f, q).next);
      r := if name.Some? then Some([Op(RenameField(t, field.value, name.value))]) else None;
    }

    method RecordStep(code: byte, ghost f: seq<byte>, ghost p: nat) returns (r: Option<seq<Delivery>>)
      requires StandsAt(buffer, f, p)
      modifies this, buffer, buffer.data
      ensures Did(f, StepRecord(f, p, code, old(Memory())), r)
    {
      var t := IdIn(buffer, f, p);
      if t.None? {
        return None;
      }
      ghost var q := ReadId(f, p).next;
      var record := ReferenceIn(buffer, f, q);
      if record.None? {
        return None;
      }
      var e;
      if code == 0x05 {
        e := InsertInto(t.value, record.value);
      } else if code == 0x06 {
        e := DeleteFrom(t.value, record.value);
      } else {
        var n := CompactIn(buffer, f, ReadReference(f, q).next);
        if n.None? {
          return None;
        }
        e := if code == 0x0f then InsertVector(t.value, record.value, n.value) else DeleteVector(t.value, record.value, n.value);
      }
      if code == 0x05 || code == 0x0f {
        tableOfLastOperation, recordOfLastOperation := t.value, record.value;
      }
      r := Some([Op(e)]);
    }

    /** `perform_update`: the value for the record and field remembered. */
    method ValueStep(k: Kind, ghost f: seq<byte>, ghost p: nat) returns (r: Option<seq<Delivery>>)
      requires StandsAt(buffer, f, p)
      modifies buffer, buffer.data
      ensures Did(f, StepValue(f, p, k, old(Memory()), checkpoint), r)
    {
      var v := ValueIn(buffer, k, checkpoint, f, p);
      if v.None? {
        return None;
      }
      r := Some([Op(Update(k, tableOfLastOperation, recordOfLastOperation, fieldOfLastUpdate, Single(v.value, k)))]);
    }

    method TripleStep(ghost f: seq<byte>, ghost p: nat) returns (ok: bool)
      requires StandsAt(buffer, f, p)
      modifies this, buffer, buffer.data
      ensures buffer.Valid() && buffer.Reading() && buffer.View().bytes == f
      ensures ok <==> ReadTriple(f, p).Parsed?
      ensures ok ==> Memory() == ReadTriple(f, p).value && buffer.View().position == ReadTriple(f, p).next
    {
      var c := TripleIn(buffer, f, p);
      if c.None? {
        return false;
      }
      tableOfLastOperation, recordOfLastOperation, fieldOfLastUpdate := c.value.table, c.value.record, c.value.field;
      ok := true;
    }

    method VectorStep(k: Kind, ghost f: seq<byte>, ghost p: nat) returns (r: Option<seq<Delivery>>)
      requires StandsAt(buffer, f, p)
      modifies this, buffer, buffer.data
      ensures Did(f, StepVector(f, p, k, checkpoint), r)
    {
      var ok := TripleStep(f, p);
      if !ok {
        return None;
      }
      ghost var q := ReadTriple(f, p).next;
      var n := CompactIn(buffer, f, q);
      if n.None? {
        return None;
      }
      if n.value == 0 {
        return Some([]);
      }
      if n.value > checkpoint || recordOfLastOperation < 0 {
        return None;
      }
      var vs := ValuesIn(buffer, k, n.value, checkpoint, f, ReadCompact(f, q).next);
      if vs.None? {
        return None;
      }
      r := Some([Op(UpdateVector(k, tableOfLastOperation, recordOfLastOperation, fieldOfLastUpdate, vs.value))]);
    }

    method UpdateStep(k: Kind, form: nat, ghost f: seq<byte>, ghost p: nat) returns (r: Option<seq<Delivery>>)
      requires StandsAt(buffer, f, p)
      modifies this, buffer, buffer.data
      ensures Did(f, StepUpdate(f, p, k, form, old(Memory()), checkpoint), r)
    {
      if form == 0 {
        var ok := TripleStep(f, p);
        if !ok {
          return None;
        }
        r := ValueStep(k, f, ReadTriple(f, p).next);
      } else if form == 1 {
        var field := IdIn(buffer, f, p);
        if field.None? {
          return None;
        }
        fieldOfLastUpdate := field.value;
        r := ValueStep(k, f, ReadId(f, p).next);
      } else if form == 2 {
        recordOfLastOperation := recordOfLastOperation + 1;
        r := ValueStep(k, f, p);
      } else {
        r := VectorStep(k, f, p);
      }
    }

    method BlobStep(ghost f: seq<byte>, ghost p: nat) returns (r: Option<seq<Delivery>>)
      requires StandsAt(buffer, f, p)
      modifies buffer, buffer.data
      ensures Did(f, StepBlob(f, p, old(Memory()), checkpoint, wantsBlobs), r)
    {
      var size := CompactIn(buffer, f, p);
      if size.None? {
        return None;
      }
      ghost var q := ReadCompact(f, p).next;
      CompactInside(f, p);
      var place := OnBlob(buffer.GetPosition(), size.value);
      if wantsBlobs && size.value < checkpoint {
        var data := RawIn(buffer, size.value, f, q);
        r := if data.Some? then Some([place, Op(Blob(data.value))]) else None;
      } else {
        buffer.Ignore(size.value);
        r := Some([place]);
      }
    }

    /** `one_step`. */
    method OneStepIn(ghost f: seq<byte>, ghost p: nat) returns (r: Option<seq<Delivery>>)
      requires StandsAt(buffer, f, p)
      modifies this, buffer, buffer.data
      ensures Did(f, OneStep(f, p, old(Memory()), checkpoint, wantsBlobs), r)
    {
      var next := buffer.ReadByte();
      if next.None? {
        return None;
      }
      r := StepOf(next.value, f, p);
    }

    /** The rest of an operation, after its code. */
    method StepOf(code: byte, ghost f: seq<byte>, ghost p: nat) returns (r: Option<seq<Delivery>>)
      requires p < |f| && f[p] == code && StandsAt(buffer, f, p + 1)
      modifies this, buffer, buffer.data
      ensures Did(f, OneStep(f, p, old(Memory()), checkpoint, wantsBlobs), r)
    {
      ghost var q := p + 1;
      if code == 0x01 || code == 0x0a || code == 0x10 {
        r := NamedStep(code, f, q);
      } else if code == 0x02 || code == 0x03 || code == 0x04 || code == 0x0c || code == 0x0d {
        r := TableStep(code, f, q);
      } else if code == 0x05 || code == 0x06 || code == 0x0f || code == 0x14 {
        r := RecordStep(code, f, q);
      } else if code == 0x08 {
        recordOfLastOperation := recordOfLastOperation + 1;
        r := Some([Op(InsertInto(tableOfLastOperation, recordOfLastOperation))]);
      } else if code == 0x0b {
        var time := RawIn(buffer, 8, f, q);
        r := if time.Some? then Some([Op(Timestamp(time.value))]) else None;
      } else if code == 0x0e {
        r := Some([Op(ValidData)]);
      } else if code == 0x13 {
        r := BlobStep(f, q);
      } else if 0x81 <= code <= 0xa8 {
        r := UpdateStep(KindOf((code - 0x81) / 4), (code - 0x81) % 4, f, q);
      } else {
        r := None;
      }
    }

    /** `raw_play_until`: step until the end is reached; `ok` is false if a step throws. */
    method RawPlayUntil(end: nat, ghost f: seq<byte>, ghost p: nat) returns (ok: bool, delivered: seq<Delivery>)
      requires StandsAt(buffer, f, p)
      modifies this, buffer, buffer.data
      ensures buffer.Valid() && buffer.Reading() && buffer.View().bytes == f
      ensures Play(f, p, old(Memory()), end, checkpoint, wantsBlobs) ==
              if ok then Played(delivered, buffer.View().position, Memory()) else Broken(delivered)
    {
      delivered := [];
      ghost var at, whole := p, Play(f, p, Memory(), end, checkpoint, wantsBlobs);
      assert [] + whole.delivered == whole.delivered;
      while buffer.GetPosition() < end
        invariant StandsAt(buffer, f, at)
        invariant whole == Prefixed(delivered, Play(f, at, Memory(), end, checkpoint, wantsBlobs))
        decreases end - at
      {
        ghost var step := OneStep(f, at, Memory(), checkpoint, wantsBlobs);
        var ds := OneStepIn(f, at);
        if ds.None? {
          assert delivered + [] == delivered;
          return false, delivered;
        }
        PrefixedTwice(delivered, ds.value, Play(f, step.next, Memory(), end, checkpoint, wantsBlobs));
        delivered := delivered + ds.value;
        at := step.next;
      }
      assert delivered + [] == delivered;
      ok := true;
    }
  }

  /** The part of `StepTable` that adds a field. */
  ghost function FieldAdded(f: seq<byte>, q: nat, t: nat, c: Context, checkpoint: nat): Step {
    match ReadString(f, q, checkpoint)
    case Bad => Failed
    case Parsed(name, q') =>
      match ReadType(f, q') case Bad => Failed case Parsed(ft, q'') => Deliver(AddField(t, name, ft), q'', c)
  }

  /** The part of `StepTable` that drops or renames a field. */
  ghost function FieldChanged(f: seq<byte>, q: nat, code: byte, t: nat, c: Context, checkpoint: nat): Step {
    match ReadId(f, q)
    case Bad => Failed
    case Parsed(field, q') =>
      if code == 0x04 then Deliver(DropField(t, field), q', c)
      else
        match ReadString(f, q', checkpoint) case Bad => Failed case Parsed(name, q'') => Deliver(RenameField(t, field, name), q'', c)
  }

  lemma CompactInside(f: seq<byte>, p: nat)
    ensures ReadCompact(f, p).Parsed? ==> ReadCompact(f, p).next <= |f|
  {
    CompactIsFound(f, p);
  }

  /**
   Operations are written through a buffer to a new file, and the file is replayed through another:
   what a listener gets is what was written, up to the first operation that the reader refuses.
   */
  method WriteThenReplay(header: seq<byte>, ops: seq<Event>, wantsBlobs: bool) returns (ok: bool, delivered: seq<Delivery>)
    requires |header| == START && AllWritable(ops)
    ensures ok <==> Accepted(ops) == ops
    ensures Operations(delivered) == Kept(Accepted(ops), wantsBlobs)
  {
    var file := WriteJournal(header, ops);
    var reader := new Reader(file, |file|, wantsBlobs);
    ok, delivered := reader.RawPlayUntil(|file|, file, START);
    FileReplays(header, ops, wantsBlobs);
  }

  method WriteJournal(header: seq<byte>, ops: seq<Event>) returns (file: seq<byte>)
    requires AllWritable(ops)
    ensures file == header + Log(ops, RESET)
  {
    var writer := new Writer(header);
    writer.WriteAll(ops);
    writer.Flush();
    file := writer.buffer.file;
  }
}
