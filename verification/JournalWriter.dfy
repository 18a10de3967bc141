/** The writing half of `Writable_Journal`: fields for what was written last, and a method per operation. */
module JournalWriter {
  import opened Bytes
  import opened CompactInt
  import FileBuffer
  import opened JournalFormat
  import opened JournalCodec
  import opened JournalReplay

  datatype BlobPlace = BlobPlace(position: nat, size: nat)

  lemma AppendTwo(a: Token, b: Token, rest: Tokens)
    ensures Append(Cons(a, Cons(b, Nil)), rest) == Cons(a, Cons(b, rest))
  {
    assert Append(Cons(b, Nil), rest) == Cons(b, rest);
  }

  lemma OverlayEnd(data: seq<byte>, bytes: seq<byte>)
    ensures Overlay(data, |data|, bytes) == data + bytes
  {
  }

  class Writer {
    const buffer: FileBuffer.BufferedFile
    /** The whole file, with what is still buffered. */
    ghost var out: seq<byte>
    var tableOfLastOperation: nat
    var recordOfLastOperation: int
    var fieldOfLastUpdate: nat

    ghost function Memory(): Context
      reads this
    {
      Context(tableOfLastOperation, recordOfLastOperation, fieldOfLastUpdate)
    }

    /** The buffer stands at the end of the file, and nothing of it was read. */
    ghost predicate Valid()
      reads this, buffer, buffer.data
    {
      buffer.Valid() && buffer.Writing() && buffer.View() == FileBuffer.Flat(out, |out|)
    }

    constructor (header: seq<byte>)
      ensures Valid() && fresh(buffer) && fresh(buffer.data)
      ensures out == header && Memory() == RESET
    {
      var b := new FileBuffer.BufferedFile(header);
      b.SetPosition(|header|);
      buffer := b;
      out := header;
      tableOfLastOperation, recordOfLastOperation, fieldOfLastUpdate := 0, -1, 0;
    }

    /** Bytes that the buffer was given at the end of the file. */
    ghost method Note(bytes: seq<byte>)
      requires buffer.Valid() && buffer.Writing() && buffer.View() == FileBuffer.Written(FileBuffer.Flat(out, |out|), bytes)
      modifies this`out
      ensures Valid() && out == old(out) + bytes
    {
      OverlayEnd(out, bytes);
      out := out + bytes;
    }

    method PutToken(t: Token)
      requires Valid() && (t.Num? ==> t.x < MAX)
      modifies this`out, buffer, buffer.data
      ensures Valid() && out == old(out) + RenderOne(t)
    {
      match t {
        case Code(c) => buffer.Write([c]);
        case Num(x) => buffer.CompactWriteTo(x);
        case Raw(s) => buffer.WriteData(s);
      }
      Note(RenderOne(t));
    }

    /** Writes one token of several: with those still to come, the result is the same as before. */
    method Put(t: Token, ghost rest: Tokens)
      requires Valid() && Fit(Cons(t, rest))
      modifies this`out, buffer, buffer.data
      ensures Valid()
      ensures out + Render(rest) == old(out) + Render(Cons(t, rest))
      ensures rest == Nil ==> out == old(out) + Render(Cons(t, rest))
    {
      ghost var before := out;
      PutToken(t);
      Regroup(before, RenderOne(t), Render(rest));
      assert rest == Nil ==> RenderOne(t) + Render(rest) == RenderOne(t);
    }

    method PutString(s: seq<byte>, ghost rest: Tokens)
      requires Valid() && |s| < MAX && Fit(rest)
      modifies this`out, buffer, buffer.data
      ensures Valid()
      ensures out + Render(rest) == old(out) + Render(Cons(Num(|s|), Cons(Raw(s), rest)))
      ensures rest == Nil ==> out == old(out) + Render(StringTokens(s))
    {
      Put(Num(|s|), Cons(Raw(s), rest));
      Put(Raw(s), rest);
    }

    method InsertInto(t: nat, r: int)
      requires Valid() && Writable(JournalCodec.Event.InsertInto(t, r))
      modifies this, buffer, buffer.data
      ensures Valid()
      ensures out == old(out) + Render(Written(JournalCodec.Event.InsertInto(t, r), old(Memory())))
      ensures Memory() == Remember(JournalCodec.Event.InsertInto(t, r), old(Memory()))
    {
      if t == tableOfLastOperation && r == recordOfLastOperation + 1 {
        Put(Code(0x08), Nil);
      } else {
        WritePair(0x05, t, r + 1, Nil);
      }
      tableOfLastOperation := t;
      recordOfLastOperation := r;
    }

    /** Table, record and a third number, after the operation code. */
    method PutTriple(code: byte, t: nat, r: int, n: nat, ghost rest: Tokens)
      requires Valid() && IsId(t) && IsRecord(r) && n < MAX && Fit(rest)
      modifies this`out, buffer, buffer.data
      ensures Valid()
      ensures out + Render(rest) == old(out) + Render(Cons(Code(code), Triple(t, r, n, rest)))
      ensures rest == Nil ==> out == old(out) + Render(Cons(Code(code), Triple(t, r, n, rest)))
    {
      Put(Code(code), Triple(t, r, n, rest));
      Put(Num(t), Pair(r + 1, n, rest));
      Put(Num(r + 1), Cons(Num(n), rest));
      Put(Num(n), rest);
    }

    method InsertVector(t: nat, r: int, n: nat)
      requires Valid() && Writable(JournalCodec.Event.InsertVector(t, r, n))
      modifies this, buffer, buffer.data
      ensures Valid()
      ensures out == old(out) + Render(Written(JournalCodec.Event.InsertVector(t, r, n), old(Memory())))
      ensures Memory() == Remember(JournalCodec.Event.InsertVector(t, r, n), old(Memory()))
    {
      PutTriple(0x0f, t, r, n, Nil);
      tableOfLastOperation := t;
      recordOfLastOperation := r;
    }

    /** `generic_update`: the code and, in the full form, what it applies to; the value follows. */
    method GenericUpdate(k: Kind, t: nat, r: int, f: nat, ghost rest: Tokens)
      requires Valid() && IsId(t) && IsRecord(r) && IsId(f) && Fit(rest)
      modifies this, buffer, buffer.data
      ensures Valid()
      ensures out + Render(rest) == old(out) + Render(UpdateHead(k, t, r, f, old(Memory()), rest))
      ensures Memory() == Context(t, r, f)
    {
      if t == tableOfLastOperation && r == recordOfLastOperation {
        Put(Code(UpdateCode(k) + 1), Cons(Num(f), rest));
        Put(Num(f), rest);
        fieldOfLastUpdate := f;
      } else if t == tableOfLastOperation && r == recordOfLastOperation + 1 && f == fieldOfLastUpdate {
        Put(Code(UpdateCode(k) + 2), rest);
        recordOfLastOperation := recordOfLastOperation + 1;
      } else {
        PutTriple(UpdateCode(k), t, r, f, rest);
        tableOfLastOperation := t;
        recordOfLastOperation := r;
        fieldOfLastUpdate := f;
      }
    }

    method PutValue(v: Value, k: Kind, ghost rest: Tokens)
      requires Valid() && HasKind(v, k) && Fit(rest)
      modifies this`out, buffer, buffer.data
      ensures Valid()
      ensures Fit(Append(ValueTokens(v, k), rest))
      ensures out + Render(rest) == old(out) + Render(Append(ValueTokens(v, k), rest))
      ensures rest == Nil ==> out == old(out) + Render(ValueTokens(v, k))
    {
      FitAppend(ValueTokens(v, k), rest);
      match v {
        case VString(text) =>
          AppendTwo(Num(|text|), Raw(text), rest);
          PutString(text, rest);
        case VFixed(raw) =>
          assert Append(ValueTokens(v, k), rest) == Cons(Raw(raw), rest);
          Put(Raw(raw), rest);
        case VReference(record) =>
          assert Append(ValueTokens(v, k), rest) == Cons(Num(record + 1), rest);
          Put(Num(record + 1), rest);
        case VBlob(position, size) =>
          AppendTwo(Num(position), Num(size), rest);
          Put(Num(position), Cons(Num(size), rest));
          Put(Num(size), rest);
      }
    }

    method Update(k: Kind, t: nat, r: int, f: nat, v: Value)
      requires Valid() && Writable(JournalCodec.Event.Update(k, t, r, f, v))
      modifies this, buffer, buffer.data
      ensures Valid()
      ensures out == old(out) + Render(Written(JournalCodec.Event.Update(k, t, r, f, v), old(Memory())))
      ensures Memory() == Remember(JournalCodec.Event.Update(k, t, r, f, v), old(Memory()))
    {
      GenericUpdate(k, t, r, f, ValueTokens(v, k));
      PutValue(v, k, Nil);
    }

    /** The values one by one; for a type of fixed size the source writes their memory at once, which is the same bytes. */
    method UpdateVector(k: Kind, t: nat, r: int, f: nat, vs: seq<Value>)
      requires Valid() && Writable(JournalCodec.Event.UpdateVector(k, t, r, f, vs))
      modifies this, buffer, buffer.data
      ensures Valid()
      ensures out == old(out) + Render(Written(JournalCodec.Event.UpdateVector(k, t, r, f, vs), old(Memory())))
      ensures Memory() == Remember(JournalCodec.Event.UpdateVector(k, t, r, f, vs), old(Memory()))
    {
      PutTriple(UpdateCode(k) + 3, t, r, f, Cons(Num(|vs|), ValuesTokens(vs, k)));
      Put(Num(|vs|), ValuesTokens(vs, k));
      tableOfLastOperation := t;
      recordOfLastOperation := r;
      fieldOfLastUpdate := f;
      PutValues(vs, k);
    }

    method PutValues(vs: seq<Value>, k: Kind)
      requires Valid() && AllHaveKind(vs, k)
      modifies this`out, buffer, buffer.data
      ensures Valid() && out == old(out) + Render(ValuesTokens(vs, k))
    {
      ghost var whole := out + Render(ValuesTokens(vs, k));
      assert vs[0..] == vs;
      for i := 0 to |vs|
        invariant Valid() && AllHaveKind(vs[i..], k)
        invariant out + Render(ValuesTokens(vs[i..], k)) == whole
      {
        assert vs[i..][0] == vs[i] && vs[i..][1..] == vs[i + 1..];
        PutValue(vs[i], k, ValuesTokens(vs[i + 1..], k));
      }
      assert Render(ValuesTokens([], k)) == [];
    }

    /** `write_blob` returns where the data lies. */
    method WriteBlob(data: seq<byte>) returns (place: BlobPlace)
      requires Valid() && |data| < MAX
      modifies this`out, buffer, buffer.data
      ensures Valid()
      ensures out == old(out) + Render(Written(Blob(data), old(Memory())))
      ensures place.size == |data| && place.position + place.size == |out| && out[place.position..] == data
    {
      ghost var before := out;
      Put(Code(0x13), StringTokens(data));
      Put(Num(|data|), Cons(Raw(data), Nil));
      assert out + Render(Cons(Raw(data), Nil)) == before + Render(Written(Blob(data), Memory()));
      assert Render(Cons(Raw(data), Nil)) == data + [] == data;
      place := BlobPlace(buffer.GetPosition(), |data|);
      PutDirect(data);
    }

    method PutDirect(bytes: seq<byte>)
      requires Valid()
      modifies this`out, buffer
      ensures Valid() && out == old(out) + bytes
    {
      buffer.Flush();
      buffer.WriteDirect(bytes);
      Note(bytes);
    }

    /** Operations on tables and fields, and those on records that leave no trace in the memory. */
    method WriteOther(e: Event)
      requires Valid() && Writable(e) && Remember(e, RESET) == RESET && !e.InsertInto? && !e.InsertVector?
      requires !e.Update? && !e.UpdateVector? && !e.Blob?
      modifies this`out, buffer, buffer.data
      ensures Valid()
      ensures out == old(out) + Render(Written(e, old(Memory())))
    {
      match e {
        case CreateTable(name) => WriteNamed(0x01, name);
        case Comment(name) => WriteNamed(0x0a, name);
        case Custom(name) => WriteNamed(0x10, name);
        case DropTable(t) =>
          Put(Code(0x02), Cons(Num(t), Nil));
          Put(Num(t), Nil);
        case RenameTable(t, name) =>
          Put(Code(0x0c), Cons(Num(t), StringTokens(name)));
          Put(Num(t), StringTokens(name));
          PutString(name, Nil);
        case AddField(t, name, ft) => WriteAddField(t, name, ft);
        case DropField(t, f) => WritePair(0x04, t, f, Nil);
        case RenameField(t, f, name) =>
          WritePair(0x0d, t, f, StringTokens(name));
          PutString(name, Nil);
        case Timestamp(time) =>
          Put(Code(0x0b), Cons(Raw(time), Nil));
          Put(Raw(time), Nil);
        case ValidData => Put(Code(0x0e), Nil);
        case DeleteFrom(t, r) => WritePair(0x06, t, r + 1, Nil);
        case DeleteVector(t, r, n) => PutTriple(0x14, t, r, n, Nil);
      }
    }

    method WriteNamed(code: byte, name: seq<byte>)
      requires Valid() && |name| < MAX
      modifies this`out, buffer, buffer.data
      ensures Valid()
      ensures out == old(out) + Render(Cons(Code(code), StringTokens(name)))
    {
      Put(Code(code), StringTokens(name));
      PutString(name, Nil);
    }

    method WritePair(code: byte, a: nat, b: nat, ghost rest: Tokens)
      requires Valid() && a < MAX && b < MAX && Fit(rest)
      modifies this`out, buffer, buffer.data
      ensures Valid()
      ensures out + Render(rest) == old(out) + Render(Cons(Code(code), Pair(a, b, rest)))
      ensures rest == Nil ==> out == old(out) + Render(Cons(Code(code), Pair(a, b, rest)))
    {
      Put(Code(code), Pair(a, b, rest));
      Put(Num(a), Cons(Num(b), rest));
      Put(Num(b), rest);
    }

    method WriteAddField(t: nat, name: seq<byte>, ft: FieldType)
      requires Valid() && Writable(AddField(t, name, ft))
      modifies this`out, buffer, buffer.data
      ensures Valid()
      ensures out == old(out) + Render(Written(AddField(t, name, ft), old(Memory())))
    {
      ghost var rest := TypeTokens(ft);
      FitAppend(StringTokens(name), rest);
      AppendTwo(Num(|name|), Raw(name), rest);
      Put(Code(0x03), Cons(Num(t), Append(StringTokens(name), rest)));
      Put(Num(t), Append(StringTokens(name), rest));
      PutString(name, rest);
      Put(Code(ft.id), rest.tail);
      if ft.id == REFERENCE_TYPE {
        Put(Num(ft.table), Nil);
      }
    }

    /** Everything written is in the file. */
    method Flush()
      requires Valid()
      modifies buffer
      ensures Valid() && buffer.file == out
    {
      buffer.Flush();
    }

    /** Any operation: its bytes are appended and remembered. */
    method Write(e: Event)
      requires Valid() && Writable(e)
      modifies this, buffer, buffer.data
      ensures Valid()
      ensures out == old(out) + Render(Written(e, old(Memory())))
      ensures Memory() == Remember(e, old(Memory()))
    {
      match e {
        case InsertInto(t, r) => InsertInto(t, r);
        case InsertVector(t, r, n) => InsertVector(t, r, n);
        case Update(k, t, r, f, v) => Update(k, t, r, f, v);
        case UpdateVector(k, t, r, f, vs) => UpdateVector(k, t, r, f, vs);
        case Blob(data) => var _ := WriteBlob(data);
        case _ => WriteOther(e);
      }
    }

    /** A whole run of the writer appends the log of its operations. */
    method WriteAll(ops: seq<Event>)
      requires Valid() && AllWritable(ops)
      modifies this, buffer, buffer.data
      ensures Valid()
      ensures out == old(out) + Log(ops, old(Memory())) && Memory() == RememberAll(ops, old(Memory()))
    {
      ghost var whole, last := out + Log(ops, Memory()), RememberAll(ops, Memory());
      for i := 0 to |ops|
        invariant Valid() && AllWritable(ops[i..])
        invariant out + Log(ops[i..], Memory()) == whole && RememberAll(ops[i..], Memory()) == last
      {
        ghost var before, todo, m := out, ops[i..], Memory();
        assert todo[0] == ops[i] && todo[1..] == ops[i + 1..];
        Write(ops[i]);
        Regroup(before, Render(Written(ops[i], m)), Log(ops[i + 1..], Memory()));
      }
    }
  }

  lemma Regroup(a: seq<byte>, b: seq<byte>, c: seq<byte>)
    ensures a + (b + c) == (a + b) + c
  {
  }
}
