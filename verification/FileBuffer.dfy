/**
 The buffer between the journal and its file. One array serves for writing or for reading; writes
 may overrun the nominal size by fewer than `EXTRA` bytes before they are handed to the file.
 */
module FileBuffer {
  import opened Bytes
  import opened Files
  import opened CompactInt

  const SIZE: nat := 4096
  const EXTRA: nat := 8

  /** An unbuffered file and a position in it: what the buffer must look like from outside. */
  datatype Flat = Flat(bytes: seq<byte>, position: nat)

  function Written(f: Flat, bytes: seq<byte>): Flat {
    Flat(Overlay(f.bytes, f.position, bytes), f.position + |bytes|)
  }

  /** Reading `n` bytes, which fails past the end of the file. */
  function ReadAt(f: Flat, n: nat): Option<seq<byte>> {
    if n == 0 then Some([])
    else if f.position + n <= |f.bytes| then Some(f.bytes[f.position..f.position + n])
    else None
  }

  /** Reading a compact integer: its value and length. */
  function CompactAt(f: Flat): Option<(nat, nat)> {
    if f.position <= |f.bytes| then Decode(f.bytes[f.position..]) else None
  }

  /** A compact integer read from its first byte on. */
  lemma SlowDecode(f: Flat, first: byte)
    requires f.position < |f.bytes| && first == f.bytes[f.position]
    ensures var next, extra := f.position + 1, first / 32;
            CompactAt(f) == if next + extra <= |f.bytes| then Some((FromBytes(first % 32, f.bytes[next..next + extra]), 1 + extra)) else None
  {
    var tail, extra := f.bytes[f.position..], first / 32;
    if 1 + extra <= |tail| {
      SliceOfTail(f.bytes, f.position, 1, 1 + extra);
    }
  }

  lemma OneMoreByte(high: nat, s: seq<byte>, p: nat, i: nat)
    requires p + i < |s|
    ensures FromBytes(high, s[p..p + i + 1]) == FromBytes(high, s[p..p + i]) * 256 + s[p + i]
  {
    var t := s[p..p + i + 1];
    assert t[i] == s[p + i];
    PrefixOfSlice(s, p, i);
  }

  lemma DecodePrefix(s: seq<byte>, t: seq<byte>)
    requires s <= t && Decode(s).Some?
    ensures Decode(t) == Decode(s)
  {
    var e := s[0] / 32;
    assert t[1..1 + e] == s[1..1 + e];
  }

  class BufferedFile {
    var file: seq<byte>
    var offset: nat          // File_Iterator position
    const data: array<byte>
    var index: nat
    var readSize: nat

    ghost predicate Valid()
      reads this, data
    {
      && data.Length == SIZE + EXTRA
      && (readSize == 0 ==> index < SIZE)
      && (readSize > 0 ==>
            && index <= readSize <= SIZE
            && readSize <= offset <= |file|
            && data[index..readSize] == file[offset - readSize + index..offset])
    }

    ghost predicate Writing()
      reads this
    {
      readSize == 0
    }

    ghost predicate Reading()
      reads this
    {
      readSize == 0 ==> index == 0
    }

    ghost function View(): Flat
      requires Valid()
      reads this, data
    {
      if readSize == 0 && index > 0 then Flat(Overlay(file, offset, data[..index]), offset + index)
      else Flat(file, offset - readSize + index)
    }

    constructor (contents: seq<byte>)
      ensures Valid() && View() == Flat(contents, 0) && Writing() && Reading() && fresh(data)
    {
      file, offset, index, readSize := contents, 0, 0, 0;
      data := new byte[SIZE + EXTRA](_ => 0);
      new;
      assert data[..0] == [];
    }

    function GetPosition(): int
      reads this
    {
      offset - readSize + index
    }

    // ---------- writing ----------

    method WriteBuffer()
      requires data.Length == SIZE + EXTRA && index <= SIZE + EXTRA && Writing()
      modifies this
      ensures Valid() && Writing() && Reading()
      ensures View() == Flat(Overlay(old(file), old(offset), old(data[..index])), old(offset) + old(index))
    {
      file := Overlay(file, offset, data[..index]);
      offset := offset + index;
      index := 0;
      assert data[..0] == [];
    }

    method CheckWriteBuffer()
      requires data.Length == SIZE + EXTRA && index <= SIZE + EXTRA && Writing()
      modifies this
      ensures Valid() && Writing()
      ensures View() == Flat(Overlay(old(file), old(offset), old(data[..index])), old(offset) + old(index))
    {
      if index >= SIZE {
        WriteBuffer();
      }
    }

    /** Copy bytes after those already buffered; the room is checked only afterwards. */
    method PutBytes(bytes: seq<byte>)
      requires Valid() && Writing() && index + |bytes| < SIZE + EXTRA
      modifies this, data
      ensures data.Length == SIZE + EXTRA && Writing() && index == old(index) + |bytes| < SIZE + EXTRA
      ensures file == old(file) && offset == old(offset)
      ensures data[..index] == old(data[..index]) + bytes
    {
      ghost var before := data[..index];
      var start := index;
      var k := 0;
      while k < |bytes|
        modifies this`index, data
        invariant 0 <= k <= |bytes| && index == start + k
        invariant data[..index] == before + bytes[..k]
      {
        data[index] := bytes[k];
        assert data[..index] == before + bytes[..k];
        index := index + 1;
        k := k + 1;
      }
      assert bytes[..|bytes|] == bytes;
    }

    method PutAndCheck(bytes: seq<byte>)
      requires Valid() && Writing() && index + |bytes| < SIZE + EXTRA
      modifies this, data
      ensures Valid() && Writing()
      ensures View() == Written(old(View()), bytes)
    {
      OverlayAdjacent(file, offset, data[..index], bytes);
      PutBytes(bytes);
      CheckWriteBuffer();
    }

    /** `write<T>` and `compact_write`: at most 8 bytes, never beyond the array. */
    method Write(bytes: seq<byte>)
      requires Valid() && Writing() && |bytes| <= EXTRA
      modifies this, data
      ensures Valid() && Writing()
      ensures View() == Written(old(View()), bytes)
    {
      PutAndCheck(bytes);
    }

    method CompactWriteTo(x: nat)
      requires Valid() && Writing() && x < MAX
      modifies this, data
      ensures Valid() && Writing()
      ensures View() == Written(old(View()), Encode(x))
    {
      var bytes := CompactWrite(x);
      Write(bytes);
    }

    method WriteData(bytes: seq<byte>)
      requires Valid() && Writing()
      modifies this, data
      ensures Valid() && Writing()
      ensures View() == Written(old(View()), bytes)
    {
      if |bytes| <= EXTRA || |bytes| < SIZE + EXTRA - index {
        PutAndCheck(bytes);
      } else {
        Flush();
        WriteDirect(bytes);
      }
    }

    /** `File_Iterator::write`: past an empty buffer, straight to the file. */
    method WriteDirect(bytes: seq<byte>)
      requires Valid() && Writing() && index == 0
      modifies this`file, this`offset
      ensures Valid() && View() == Written(old(View()), bytes)
    {
      file := Overlay(file, offset, bytes);
      offset := offset + |bytes|;
    }

    method Flush()
      requires Valid()
      modifies this
      ensures Valid() && Writing() && Reading() && index == 0
      ensures View() == old(View())
      ensures file == View().bytes && offset == View().position
    {
      if index > 0 && readSize == 0 {
        WriteBuffer();
      } else {
        offset := offset - readSize + index;
        readSize := 0;
      }
      index := 0;
      assert data[..0] == [];
    }

    method SetPosition(position: nat)
      requires Valid()
      modifies this
      ensures Valid() && Writing() && Reading()
      ensures View() == Flat(old(View()).bytes, position)
    {
      Flush();
      offset := position;
    }

    // ---------- reading ----------

    /** Refill the buffer once everything in it has been read; false at the end of the file. */
    method ReadBuffer() returns (ok: bool)
      requires Valid() && Reading() && index == readSize
      modifies this, data
      ensures Valid() && Reading() && View() == old(View()) && file == old(file) && index == 0
      ensures ok <==> old(offset) < |file|
      ensures ok ==> 0 < readSize <= SIZE && offset == old(offset) + readSize
    {
      index := 0;
      var bytes := Pread(file, SIZE, offset);
      var k := 0;
      while k < |bytes|
        modifies data
        invariant 0 <= k <= |bytes| && data[..k] == bytes[..k]
      {
        data[k] := bytes[k];
        assert data[..k] == bytes[..k];
        k := k + 1;
      }
      assert data[..|bytes|] == bytes[..|bytes|] == bytes;
      readSize := |bytes|;
      offset := offset + |bytes|;
      ok := readSize != 0;
      assert readSize == 0 ==> data[..0] == [];
      assert readSize > 0 ==> data[0..readSize] == file[offset - readSize..offset];
    }

    /** Take `n` bytes that are in the buffer. */
    method Take(n: nat) returns (bytes: seq<byte>)
      requires Valid() && Reading() && index + n <= readSize
      modifies this`index
      ensures Valid() && Reading() && |bytes| == n && index == old(index) + n
      ensures View() == old(View()).(position := old(View()).position + n)
      ensures Some(bytes) == ReadAt(old(View()), n)
    {
      bytes := data[index..index + n];
      if n > 0 {
        ghost var unread := data[index..readSize];
        ghost var at := offset - readSize + index;
        forall k | 0 <= k < n
          ensures bytes[k] == file[at..at + n][k]
        {
          assert unread[k] == data[index + k];
        }
        assert bytes == file[at..at + n];
        assert data[index + n..readSize] == unread[n..] == file[at..offset][n..] == file[at + n..offset];
      }
      assert n == 0 ==> bytes == [];
      index := index + n;
    }

    /** Read past an exhausted buffer, straight from the file. */
    method ReadDirect(n: nat) returns (r: Option<seq<byte>>)
      requires Valid() && Reading() && index == readSize
      modifies this`offset
      ensures Valid() && Reading()
      ensures r == ReadAt(old(View()), n)
      ensures View().bytes == old(View()).bytes && (r.Some? ==> View().position == old(View()).position + n)
    {
      r := FullPread(file, n, offset);
      if r.Some? {
        offset := offset + n;
      }
      assert readSize == 0 ==> data[..index] == [];
    }

    /** Refill, then take what is there of the `n` bytes wanted. */
    method Refill(n: nat) returns (r: Option<seq<byte>>)
      requires Valid() && Reading() && index == readSize && n > 0
      modifies this, data
      ensures Valid() && Reading() && View().bytes == old(View()).bytes
      ensures r.None? ==> ReadAt(old(View()), n) == None
      ensures r.Some? ==>
                && |r.value| <= n && Some(r.value) == ReadAt(old(View()), |r.value|)
                && View().position == old(View()).position + |r.value|
                && (|r.value| < n ==> index == readSize)
    {
      var ok := ReadBuffer();
      if !ok {
        return None;
      }
      var bytes := Take(if n <= readSize then n else readSize);
      return Some(bytes);
    }

    /** The `n` bytes after an exhausted buffer, through the buffer first if `refill`. */
    method ReadSlow(n: nat, refill: bool) returns (r: Option<seq<byte>>)
      requires Valid() && Reading() && index == readSize && n > 0
      modifies this, data
      ensures Valid() && Reading()
      ensures r == ReadAt(old(View()), n)
      ensures View().bytes == old(View()).bytes && (r.Some? ==> View().position == old(View()).position + n)
    {
      ghost var v := View();
      var got: seq<byte> := [];
      if refill {
        var more := Refill(n);
        if more.None? {
          return None;
        }
        got := more.value;
      }
      if |got| == n {
        return Some(got);
      }
      var last := ReadDirect(n - |got|);
      if last.None? {
        FailsTogether(v, got, n - |got|);
        return None;
      }
      Joins(v, got, last.value);
      return Some(got + last.value);
    }

    method ReadData(n: nat) returns (r: Option<seq<byte>>)
      requires Valid() && Reading()
      modifies this, data
      ensures Valid() && Reading()
      ensures r == ReadAt(old(View()), n)
      ensures View().bytes == old(View()).bytes && (r.Some? ==> View().position == old(View()).position + n)
    {
      ghost var v := View();
      if index + n <= readSize {
        var bytes := Take(n);
        return Some(bytes);
      }
      var first := Take(readSize - index);
      var rest := ReadSlow(n - |first|, n <= SIZE);
      if rest.None? {
        FailsTogether(v, first, n - |first|);
        return None;
      }
      Joins(v, first, rest.value);
      return Some(first + rest.value);
    }

    method ReadByte() returns (r: Option<byte>)
      requires Valid() && Reading()
      modifies this, data
      ensures Valid() && Reading() && View().bytes == old(View()).bytes
      ensures r.Some? <==> old(View()).position < |View().bytes|
      ensures r.Some? ==> r.value == View().bytes[old(View()).position] && View().position == old(View()).position + 1
    {
      var bytes := ReadData(1);
      if bytes.None? {
        return None;
      }
      return Some(bytes.value[0]);
    }

    /** The fast path, when the longest encoding is sure to be in the buffer. */
    method CompactReadBuffered() returns (value: nat)
      requires Valid() && Reading() && index + 8 <= readSize
      modifies this`index
      ensures Valid() && Reading() && View().bytes == old(View()).bytes
      ensures CompactAt(old(View())).Some? && CompactAt(old(View())).value.0 == value
      ensures View().position == old(View()).position + CompactAt(old(View())).value.1
    {
      ghost var v := View();
      var eight := data[index..index + 8];
      ghost var unread := data[index..readSize];
      forall k | 0 <= k < 8
        ensures eight[k] == v.bytes[v.position..][k]
      {
        assert unread[k] == data[index + k];
      }
      DecodePrefix(eight, v.bytes[v.position..]);
      var length;
      value, length := CompactRead(eight);
      var bytes := Take(length);
    }

    /** `compact_read`: byte by byte when the buffer may not hold it all. */
    method CompactReadFrom() returns (r: Option<nat>)
      requires Valid() && Reading()
      modifies this, data
      ensures Valid() && Reading() && View().bytes == old(View()).bytes
      ensures r.Some? <==> CompactAt(old(View())).Some?
      ensures r.Some? ==>
                && r.value == CompactAt(old(View())).value.0
                && View().position == old(View()).position + CompactAt(old(View())).value.1
    {
      if index + 8 <= readSize {
        var value := CompactReadBuffered();
        return Some(value);
      }
      r := CompactReadSlow();
    }

    method CompactReadSlow() returns (r: Option<nat>)
      requires Valid() && Reading()
      modifies this, data
      ensures Valid() && Reading() && View().bytes == old(View()).bytes
      ensures r.Some? <==> CompactAt(old(View())).Some?
      ensures r.Some? ==>
                && r.value == CompactAt(old(View())).value.0
                && View().position == old(View()).position + CompactAt(old(View())).value.1
    {
      ghost var v, found := View(), CompactAt(View());
      var first := ReadByte();
      if first.None? {
        assert found == None;
        return None;
      }
      var extra, high: nat := first.value / 32, first.value % 32;
      ghost var next := v.position + 1;
      SlowDecode(v, first.value);
      assert found == if next + extra <= |v.bytes| then Some((FromBytes(high, v.bytes[next..next + extra]), 1 + extra)) else None;
      r := ReadExtra(high, extra);
    }

    /** The bytes after the first, one by one. */
    method ReadExtra(high: nat, extra: nat) returns (r: Option<nat>)
      requires Valid() && Reading() && View().position <= |View().bytes|
      modifies this, data
      ensures Valid() && Reading() && View().bytes == old(View()).bytes
      ensures r.Some? <==> old(View()).position + extra <= |View().bytes|
      ensures r.Some? ==>
                && r.value == FromBytes(high, View().bytes[old(View()).position..old(View()).position + extra])
                && View().position == old(View()).position + extra
    {
      ghost var bytes, start := View().bytes, View().position;
      var value: nat := high;
      var i := 0;
      while i < extra
        invariant 0 <= i <= extra && Valid() && Reading()
        invariant View().bytes == bytes && View().position == start + i <= |bytes|
        invariant value == FromBytes(high, bytes[start..start + i])
      {
        var b := ReadByte();
        if b.None? {
          return None;
        }
        OneMoreByte(high, bytes, start, i);
        value := value * 256 + b.value;
        i := i + 1;
      }
      return Some(value);
    }

    method Ignore(n: nat)
      requires Valid() && Reading()
      modifies this, data
      ensures Valid() && Reading() && (old(Writing()) ==> Writing())
      ensures View() == old(View()).(position := old(View()).position + n)
    {
      if index + n <= readSize {
        var skipped := Take(n);
      } else {
        SetPosition(offset - readSize + index + n);
      }
    }
  }

  /** Reading some bytes and then some more is reading them all. */
  lemma Joins(f: Flat, a: seq<byte>, b: seq<byte>)
    requires Some(a) == ReadAt(f, |a|) && Some(b) == ReadAt(f.(position := f.position + |a|), |b|)
    ensures Some(a + b) == ReadAt(f, |a| + |b|)
  {
    if a == [] {
      assert a + b == b;
    } else if b == [] {
      assert a + b == a;
    } else {
      assert a + b == f.bytes[f.position..f.position + |a| + |b|];
    }
  }

  lemma FailsTogether(f: Flat, a: seq<byte>, n: nat)
    requires Some(a) == ReadAt(f, |a|) && ReadAt(f.(position := f.position + |a|), n) == None
    ensures ReadAt(f, |a| + n) == None
  {
  }

  // ---------- whole runs ----------

  datatype Op =
    | OpWrite(bytes: seq<byte>)       // write<T>: at most 8 bytes
    | OpCompactWrite(x: nat)
    | OpWriteData(bytes: seq<byte>)
    | OpReadData(n: nat)
    | OpCompactRead
    | OpIgnore(n: nat)
    | OpFlush
    | OpSetPosition(position: nat)

  /** What the last operation that moved data was; the position must be set or flushed in between. */
  datatype Mode = Neutral | AfterWrite | AfterRead

  datatype Output = Nothing | GotBytes(bytes: seq<byte>) | GotValue(value: nat) | Failed

  datatype Abstract = Abstract(flat: Flat, mode: Mode)

  predicate Legal(s: Abstract, op: Op) {
    match op
    case OpWrite(bytes) => s.mode != AfterRead && |bytes| <= EXTRA
    case OpCompactWrite(x) => s.mode != AfterRead && x < MAX
    case OpWriteData(_) => s.mode != AfterRead
    case OpReadData(_) => s.mode != AfterWrite
    case OpCompactRead => s.mode != AfterWrite
    case OpIgnore(_) => s.mode != AfterWrite
    case OpFlush => true
    case OpSetPosition(_) => true
  }

  /** The same operation on an unbuffered file. After reading past the end nothing more is promised. */
  function Unbuffered(s: Abstract, op: Op): (Abstract, Output)
    requires Legal(s, op)
  {
    var f := s.flat;
    match op
    case OpWrite(bytes) => (Abstract(Written(f, bytes), AfterWrite), Nothing)
    case OpCompactWrite(x) => (Abstract(Written(f, Encode(x)), AfterWrite), Nothing)
    case OpWriteData(bytes) => (Abstract(Written(f, bytes), AfterWrite), Nothing)
    case OpReadData(n) =>
      (match ReadAt(f, n)
       case None => (s, Failed)
       case Some(bytes) => (Abstract(f.(position := f.position + n), AfterRead), GotBytes(bytes)))
    case OpCompactRead =>
      (match CompactAt(f)
       case None => (s, Failed)
       case Some((value, length)) => (Abstract(f.(position := f.position + length), AfterRead), GotValue(value)))
    case OpIgnore(n) => (Abstract(f.(position := f.position + n), if s.mode == Neutral then Neutral else AfterRead), Nothing)
    case OpFlush => (Abstract(f, Neutral), Nothing)
    case OpSetPosition(position) => (Abstract(f.(position := position), Neutral), Nothing)
  }

  /** The buffered file stands for an abstract state. */
  ghost predicate StandsFor(b: BufferedFile, s: Abstract)
    reads b, b.data
  {
    && b.Valid() && b.View() == s.flat
    && (s.mode != AfterRead ==> b.Writing())
    && (s.mode != AfterWrite ==> b.Reading())
  }

  method Perform(b: BufferedFile, op: Op, ghost s: Abstract) returns (out: Output)
    requires StandsFor(b, s) && Legal(s, op)
    modifies b, b.data
    ensures out == Unbuffered(s, op).1
    ensures out != Failed ==> StandsFor(b, Unbuffered(s, op).0)
  {
    out := Nothing;
    match op
    case OpWrite(bytes) => b.Write(bytes);
    case OpCompactWrite(x) => b.CompactWriteTo(x);
    case OpWriteData(bytes) => b.WriteData(bytes);
    case OpReadData(n) =>
      var r := b.ReadData(n);
      out := if r.Some? then GotBytes(r.value) else Failed;
    case OpCompactRead =>
      var r := b.CompactReadFrom();
      out := if r.Some? then GotValue(r.value) else Failed;
    case OpIgnore(n) => b.Ignore(n);
    case OpFlush => b.Flush();
    case OpSetPosition(position) => b.SetPosition(position);
  }

  /** States and outputs of a run on the unbuffered file. */
  ghost predicate UnbufferedRun(ops: seq<Op>, states: seq<Abstract>, outs: seq<Output>) {
    && |states| == |ops| + 1 && |outs| == |ops|
    && forall i :: 0 <= i < |ops| ==> Legal(states[i], ops[i]) && (states[i + 1], outs[i]) == Unbuffered(states[i], ops[i])
  }

  /**
   Every legal run gives the outputs and the position of the unbuffered file, whatever short reads
   the file makes; it ends early exactly when a read goes past the end of the file, with that failure.
   */
  method PerformAll(b: BufferedFile, ops: seq<Op>, ghost states: seq<Abstract>, ghost outs: seq<Output>)
    returns (results: seq<Output>)
    requires UnbufferedRun(ops, states, outs) && StandsFor(b, states[0])
    modifies b, b.data
    ensures |results| <= |ops| && results == outs[..|results|]
    ensures forall i :: 0 <= i < |results| - 1 ==> outs[i] != Failed
    ensures |results| < |ops| ==> results != [] && results[|results| - 1] == Failed
    ensures (forall i :: 0 <= i < |outs| ==> outs[i] != Failed) ==>
              results == outs && StandsFor(b, states[|ops|]) && b.GetPosition() == states[|ops|].flat.position
  {
    results := [];
    while |results| < |ops|
      invariant |results| <= |ops| && results == outs[..|results|]
      invariant forall i :: 0 <= i < |results| ==> outs[i] != Failed
      invariant StandsFor(b, states[|results|])
    {
      ghost var i := |results|;
      assert (states[i + 1], outs[i]) == Unbuffered(states[i], ops[i]);
      var out := Perform(b, ops[|results|], states[|results|]);
      results := results + [out];
      if out == Failed {
        return;
      }
    }
  }
}
