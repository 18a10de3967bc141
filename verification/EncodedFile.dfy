/**
 A file whose writes are kept as encoded blobs, in the order of writing. Reading lays the blobs over
 each other; writing goes through a buffer. It behaves like a flat file of bytes.
 */
module EncodedFile {
  import opened Bytes

  const MAX_BUFFER: nat := 0x100_0000
  const CAPACITY: nat := 0x10_0000

  /** A row of the buffer table: where the decoded bytes go, how many they are, and the blob that holds them. */
  datatype Buffer = Buffer(offset: nat, size: int, blob: seq<byte>)

  datatype Codec = Codec(encode: seq<byte> -> seq<byte>, decode: (seq<byte>, nat) -> seq<byte>)

  /** The decoder fills the buffer it is given. */
  ghost predicate Fills(c: Codec) {
    forall blob, n: nat :: |c.decode(blob, n)| == n
  }

  ghost predicate Faithful(c: Codec) {
    Fills(c) && forall s {:trigger c.encode(s)} :: c.decode(c.encode(s), |s|) == s
  }

  // ---------- the meaning of a buffer table ----------

  predicate Usable(b: Buffer) {
    0 < b.size <= MAX_BUFFER
  }

  ghost predicate AllUsable(table: seq<Buffer>) {
    forall i :: 0 <= i < |table| ==> Usable(table[i])
  }

  function Decoded(c: Codec, b: Buffer): (s: seq<byte>) {
    if Usable(b) then c.decode(b.blob, b.size) else []
  }

  predicate Covers(b: Buffer, p: nat) {
    Usable(b) && b.offset <= p < b.offset + b.size
  }

  /** The byte of the newest buffer that covers position `p`. */
  ghost function Newest(c: Codec, table: seq<Buffer>, p: nat): Option<byte>
    requires Fills(c)
  {
    if table == [] then None
    else
      var b := table[|table| - 1];
      if Covers(b, p) then Some(Decoded(c, b)[p - b.offset]) else Newest(c, table[..|table| - 1], p)
  }

  /** A flat file, and whether it was written without gaps: no write started past the end of the file at its time. */
  datatype FlatFileOf<T> = FlatFile(bytes: T, gapFree: bool)
  type FlatFile = FlatFileOf<seq<byte>>

  function PutAt(f: FlatFile, offset: nat, bytes: seq<byte>): FlatFile {
    FlatFile(Overlay(f.bytes, offset, bytes), f.gapFree && (bytes == [] || offset <= |f.bytes|))
  }

  lemma PutAdjacent(f: FlatFile, offset: nat, a: seq<byte>, b: seq<byte>)
    ensures PutAt(PutAt(f, offset, a), offset + |a|, b) == PutAt(f, offset, a + b)
  {
    OverlayAdjacent(f.bytes, offset, a, b);
    assert a == [] ==> a + b == b;
  }

  /** A write can be done in two parts. */
  lemma PutSplit(f: FlatFile, offset: nat, a: seq<byte>, b: seq<byte>, bytes: seq<byte>, whole: FlatFile)
    requires bytes == a + b && whole == PutAt(f, offset, bytes)
    ensures PutAt(PutAt(f, offset, a), offset + |a|, b) == whole
  {
    PutAdjacent(f, offset, a, b);
  }

  /** Of two adjacent writes, the first can be given a part of the second. */
  lemma PutBetween(f: FlatFile, offset: nat, s: seq<byte>, a: seq<byte>, b: seq<byte>, bytes: seq<byte>, whole: FlatFile)
    requires bytes == a + b && whole == PutAt(PutAt(f, offset, s), offset + |s|, bytes)
    ensures PutAt(PutAt(f, offset, s + a), offset + |s| + |a|, b) == whole
  {
    PutSplit(PutAt(f, offset, s), offset + |s|, a, b, bytes, whole);
    PutAdjacent(f, offset, s, a);
  }

  lemma PutNothing(f: FlatFile, offset: nat)
    ensures PutAt(f, offset, []) == f
  {
  }

  /** The flat file that the writes give one after the other. */
  ghost function Flat(c: Codec, table: seq<Buffer>): FlatFile {
    if table == [] then FlatFile([], true)
    else
      var b := table[|table| - 1];
      PutAt(Flat(c, table[..|table| - 1]), b.offset, Decoded(c, b))
  }

  /** The newest write wins; a position in the file that was never written reads as zero. */
  lemma {:induction false} NewestIsFlat(c: Codec, table: seq<Buffer>, p: nat)
    requires Fills(c)
    ensures match Newest(c, table, p)
            case Some(x) => p < |Flat(c, table).bytes| && Flat(c, table).bytes[p] == x
            case None => p < |Flat(c, table).bytes| ==> Flat(c, table).bytes[p] == 0
  {
    if table != [] {
      NewestIsFlat(c, table[..|table| - 1], p);
    }
  }

  /** Without gaps, every position in the file was written. */
  lemma {:induction false} GapFreeIsCovered(c: Codec, table: seq<Buffer>, p: nat)
    requires Fills(c) && Flat(c, table).gapFree
    ensures p < |Flat(c, table).bytes| <==> Newest(c, table, p).Some?
  {
    NewestIsFlat(c, table, p);
    if table != [] {
      GapFreeIsCovered(c, table[..|table| - 1], p);
    }
  }

  lemma Extend(c: Codec, table: seq<Buffer>, k: nat)
    requires Fills(c) && k < |table|
    ensures Flat(c, table[..k + 1]) == PutAt(Flat(c, table[..k]), table[k].offset, Decoded(c, table[k]))
    ensures forall p: nat :: Newest(c, table[..k + 1], p) ==
              if Covers(table[k], p) then Some(Decoded(c, table[k])[p - table[k].offset]) else Newest(c, table[..k], p)
  {
    var t := table[..k + 1];
    assert t[|t| - 1] == table[k] && t[..|t| - 1] == table[..k];
  }

  // ---------- reading ----------

  function Max(a: int, b: int): int { if a >= b then a else b }
  function Min(a: int, b: int): int { if a <= b then a else b }

  /** What a read of `[start, end)` has gathered from a table: correct bytes up to `reached`, and none only if `start` is not covered. */
  ghost predicate Gathered(c: Codec, table: seq<Buffer>, start: nat, end: nat, reached: nat, got: seq<byte>)
    requires Fills(c)
  {
    && start <= reached <= end && |got| == end - start
    && (forall p :: start <= p < reached ==> Newest(c, table, p) == Some(got[p - start]))
    && (reached == start < end ==> Newest(c, table, start) == None)
    && (Flat(c, table).gapFree ==> reached == Max(start, Min(end, |Flat(c, table).bytes|)))
  }

  lemma GatherNothing(c: Codec, start: nat, end: nat, got: seq<byte>)
    requires Fills(c) && start <= end && |got| == end - start
    ensures Gathered(c, [], start, end, start, got)
  {
  }

  lemma GatherSkip(c: Codec, table: seq<Buffer>, k: nat, start: nat, end: nat, reached: nat, got: seq<byte>)
    requires Fills(c) && k < |table| && Gathered(c, table[..k], start, end, reached, got)
    requires var b := table[k];
             !Usable(b) || !(Max(start, b.offset) < Min(end, b.offset + b.size) && Max(start, b.offset) <= reached)
    ensures Gathered(c, table[..k + 1], start, end, reached, got)
  {
    Extend(c, table, k);
  }

  lemma GatherCopy(c: Codec, table: seq<Buffer>, k: nat, start: nat, end: nat, reached: nat, got: seq<byte>, got': seq<byte>)
    requires Fills(c) && k < |table| && Gathered(c, table[..k], start, end, reached, got) && Usable(table[k])
    requires Max(start, table[k].offset) < Min(end, table[k].offset + table[k].size) && Max(start, table[k].offset) <= reached
    requires |got'| == |got|
    requires forall p: nat :: start <= p < end ==>
               got'[p - start] == if Covers(table[k], p) then Decoded(c, table[k])[p - table[k].offset] else got[p - start]
    ensures Gathered(c, table[..k + 1], start, end, Max(reached, Min(end, table[k].offset + table[k].size)), got')
  {
    Extend(c, table, k);
  }

  /** What a read may return of a flat file: a prefix of what was asked for, all of it if there are no gaps. */
  ghost predicate ReadsFrom(f: FlatFile, start: nat, size: nat, got: seq<byte>) {
    && |got| <= size && (got != [] ==> start + |got| <= |f.bytes| && got == f.bytes[start..start + |got|])
    && (f.gapFree ==> |got| == Max(0, Min(size, |f.bytes| - start)))
    && (got == [] && 0 < size && start < |f.bytes| ==> f.bytes[start] == 0)
  }

  /** The bytes gathered from a whole table are those of the flat file. */
  lemma GatheredIsFlat(c: Codec, table: seq<Buffer>, start: nat, size: nat, n: nat, got: seq<byte>)
    requires Fills(c) && Gathered(c, table, start, start + size, start + n, got)
    ensures n <= |got| && ReadsFrom(Flat(c, table), start, size, got[..n])
  {
    var flat := Flat(c, table).bytes;
    forall p | start <= p < start + n ensures p < |flat| && got[p - start] == flat[p] {
      NewestIsFlat(c, table, p);
    }
    NewestIsFlat(c, table, start);
    if n > 0 {
      NewestIsFlat(c, table, start + n - 1);
    }
  }

  method Split(bytes: seq<byte>, n: nat) returns (a: seq<byte>, b: seq<byte>)
    requires n <= |bytes|
    ensures |a| == n && bytes == a + b
  {
    a, b := bytes[..n], bytes[n..];
  }

  class EncodedFile {
    const codec: Codec
    var table: seq<Buffer>
    var readBuffer: seq<byte>
    var decoded: Option<nat>
    const writeBuffer: array<byte>
    var writeOffset: nat
    var writeSize: nat

    /** The cached decoding, if any, is that of its buffer; the rest of the read buffer is left over. */
    ghost predicate CacheValid()
      reads this
    {
      match decoded
      case None => true
      case Some(i) =>
        i < |table| && Usable(table[i]) && |readBuffer| >= table[i].size && readBuffer[..table[i].size] == Decoded(codec, table[i])
    }

    ghost predicate Valid()
      reads this, writeBuffer
    {
      && Faithful(codec) && CacheValid()
      && writeBuffer.Length == CAPACITY && writeSize <= CAPACITY
      && (AllUsable(table))
      && (writeSize == 0 ==> writeOffset <= |Flat(codec, table).bytes|)
    }

    ghost function Pending(): (s: seq<byte>)
      requires writeSize <= writeBuffer.Length
      reads this, writeBuffer
    {
      writeBuffer[..writeSize]
    }

    /** The flat file that this file stands for. */
    ghost function Contents(): FlatFile
      requires writeSize <= writeBuffer.Length
      reads this, writeBuffer
    {
      PutAt(Flat(codec, table), writeOffset, Pending())
    }

    constructor (c: Codec)
      requires Faithful(c)
      ensures Valid() && Contents() == FlatFile([], true) && fresh(writeBuffer) && codec == c
    {
      codec := c;
      table, readBuffer, decoded := [], [], None;
      writeBuffer := new byte[CAPACITY](_ => 0);
      writeOffset, writeSize := 0, 0;
    }

    /** Decodes a buffer unless it is the one decoded last; a buffer that is too big is not decoded. */
    method Load(i: nat) returns (ok: bool)
      requires i < |table| && table[i].size > 0 && Fills(codec) && CacheValid()
      modifies this`readBuffer, this`decoded
      ensures CacheValid() && ok == Usable(table[i])
      ensures ok ==> decoded == Some(i)
      ensures !ok ==> decoded == old(decoded) && readBuffer == old(readBuffer)
    {
      var b := table[i];
      if decoded != Some(i) {
        if b.size > MAX_BUFFER {
          return false;
        }
        if |readBuffer| < b.size {
          readBuffer := readBuffer + Zeros(b.size - |readBuffer|);
        }
        readBuffer := codec.decode(b.blob, b.size) + readBuffer[b.size..];
        decoded := Some(i);
      }
      ok := true;
    }

    /** `Readonly_Encoded_File::pread`: every buffer in order, each over the earlier ones. */
    method ReadonlyPread(buffer: array<byte>, size: nat, start: nat) returns (n: nat)
      requires size <= buffer.Length && Fills(codec) && CacheValid()
      modifies buffer, this`readBuffer, this`decoded
      ensures CacheValid()
      ensures Gathered(codec, table, start, start + size, start + n, buffer[..size])
    {
      var end := start + size;
      var actualEnd: nat := start;
      GatherNothing(codec, start, end, buffer[..size]);
      assert table[..0] == [];
      for k := 0 to |table|
        invariant CacheValid()
        invariant Gathered(codec, table[..k], start, end, actualEnd, buffer[..size])
        modifies buffer, this`readBuffer, this`decoded
      {
        var b := table[k];
        ghost var before := buffer[..size];
        var from, until := Max(start, b.offset), Min(end, b.offset + b.size);
        var copied := false;
        if b.size > 0 && from < until && from <= actualEnd {
          copied := Load(k);
          if copied {
            forall j | from <= j < until {
              buffer[j - start] := readBuffer[j - b.offset];
            }
          }
        }
        if copied {
          forall p: nat | start <= p < end
            ensures buffer[..size][p - start] == if Covers(b, p) then Decoded(codec, b)[p - b.offset] else before[p - start]
          {
            assert Covers(b, p) ==> readBuffer[p - b.offset] == readBuffer[..b.size][p - b.offset];
          }
          GatherCopy(codec, table, k, start, end, actualEnd, before, buffer[..size]);
          actualEnd := Max(actualEnd, until);
        } else {
          assert buffer[..size] == before;
          GatherSkip(codec, table, k, start, end, actualEnd, before);
        }
      }
      assert table[..|table|] == table;
      n := actualEnd - start;
    }

    method WriteBlob(bytes: seq<byte>, offset: nat)
      requires Faithful(codec) && CacheValid() && 0 < |bytes| <= CAPACITY && AllUsable(table)
      modifies this`table
      ensures CacheValid() && AllUsable(table)
      ensures Flat(codec, table) == PutAt(old(Flat(codec, table)), offset, bytes)
    {
      var was := table;
      table := table + [Buffer(offset, |bytes|, codec.encode(bytes))];
      assert table[..|table| - 1] == was;
    }

    method FlushWriteBuffer()
      requires Valid()
      modifies this`table, this`writeSize
      ensures Valid() && Contents() == Flat(codec, table) == old(Contents()) && writeSize == 0
    {
      if writeSize > 0 {
        WriteBlob(writeBuffer[..writeSize], writeOffset);
        writeSize := 0;
      }
      assert Pending() == [];
      PutNothing(Flat(codec, table), writeOffset);
    }

    /**
     Reading returns a prefix of what the flat file holds, and nothing only where nothing was
     written; without gaps it returns everything asked for that the file has.
     */
    method Pread(buffer: array<byte>, size: nat, start: nat) returns (n: nat)
      requires Valid() && size <= buffer.Length && buffer != writeBuffer
      modifies buffer, this`table, this`writeSize, this`readBuffer, this`decoded
      ensures Valid() && Contents() == old(Contents())
      ensures n <= size && ReadsFrom(Contents(), start, size, buffer[..n])
    {
      FlushWriteBuffer();
      n := ReadonlyPread(buffer, size, start);
      GatheredIsFlat(codec, table, start, size, n, buffer[..size]);
      assert buffer[..n] == buffer[..size][..n];
    }

    method Pwrite(bytes: seq<byte>, offset: nat)
      requires Valid()
      modifies this, writeBuffer
      ensures Valid() && Contents() == PutAt(old(Contents()), offset, bytes)
    {
      var rest, at := bytes, offset;
      ghost var whole := PutAt(Contents(), offset, bytes);
      if writeSize > 0 {
        if writeOffset + writeSize != offset {
          FlushWriteBuffer();
        } else {
          rest, at := FillBuffer(bytes, whole);
        }
      }
      if rest != [] {
        FlushWriteBuffer();
        rest, at := WriteBlocks(rest, at, whole);
      }
      PutNothing(Contents(), at);
      if rest != [] {
        AppendAt(rest, at);
      }
    }

    /** Appends to the write buffer what there is room for; with the rest it gives the whole. */
    method FillBuffer(bytes: seq<byte>, ghost whole: FlatFile) returns (rest: seq<byte>, at: nat)
      requires Valid() && 0 < writeSize && whole == PutAt(Contents(), writeOffset + writeSize, bytes)
      modifies this`writeSize, writeBuffer
      ensures Valid() && PutAt(Contents(), at, rest) == whole
    {
      var first;
      first, rest := Split(bytes, Min(CAPACITY - writeSize, |bytes|));
      at := writeOffset + writeSize + |first|;
      ghost var flat, pending := Flat(codec, table), Pending();
      PutBetween(flat, writeOffset, pending, first, rest, bytes, whole);
      CopyToBuffer(first);
      assert Contents() == PutAt(flat, writeOffset, pending + first);
    }

    method CopyToBuffer(bytes: seq<byte>)
      requires writeSize + |bytes| <= writeBuffer.Length
      modifies this`writeSize, writeBuffer
      ensures writeSize == old(writeSize) + |bytes| && Pending() == old(Pending()) + bytes
    {
      forall j | 0 <= j < |bytes| {
        writeBuffer[writeSize + j] := bytes[j];
      }
      writeSize := writeSize + |bytes|;
    }

    method AppendAt(bytes: seq<byte>, offset: nat)
      requires Valid() && writeSize == 0 && 0 < |bytes| <= CAPACITY && Contents() == Flat(codec, table)
      modifies this`writeSize, this`writeOffset, writeBuffer
      ensures Valid() && Contents() == PutAt(old(Contents()), offset, bytes)
    {
      CopyToBuffer(bytes);
      writeOffset := offset;
      assert Pending() == bytes;
    }

    /** As many full blocks as there are go to the table directly. */
    method WriteBlocks(bytes: seq<byte>, offset: nat, ghost whole: FlatFile) returns (rest: seq<byte>, at: nat)
      requires Valid() && writeSize == 0 && whole == PutAt(Contents(), offset, bytes)
      modifies this`table
      ensures Valid() && |rest| < CAPACITY && Contents() == Flat(codec, table)
      ensures PutAt(Contents(), at, rest) == whole
    {
      rest, at := bytes, offset;
      EmptyBuffer();
      while |rest| >= CAPACITY
        invariant Valid() && Contents() == Flat(codec, table)
        invariant PutAt(Contents(), at, rest) == whole
      {
        rest, at := WriteFirstBlock(rest, at, whole);
      }
    }

    method WriteFirstBlock(rest: seq<byte>, at: nat, ghost whole: FlatFile) returns (others: seq<byte>, next: nat)
      requires Valid() && writeSize == 0 && |rest| >= CAPACITY && Contents() == Flat(codec, table) && PutAt(Contents(), at, rest) == whole
      modifies this`table
      ensures Valid() && Contents() == Flat(codec, table) && |others| == |rest| - CAPACITY
      ensures PutAt(Contents(), next, others) == whole
    {
      var block;
      block, others := Split(rest, CAPACITY);
      next := at + CAPACITY;
      PutSplit(Contents(), at, block, others, rest, whole);
      WriteBlock(block, at);
    }

    method WriteBlock(block: seq<byte>, offset: nat)
      requires Valid() && writeSize == 0 && |block| == CAPACITY && Contents() == Flat(codec, table)
      modifies this`table
      ensures Valid() && Contents() == Flat(codec, table) == PutAt(old(Contents()), offset, block)
    {
      WriteBlob(block, offset);
      EmptyBuffer();
    }

    lemma EmptyBuffer()
      requires writeSize == 0
      ensures Contents() == Flat(codec, table)
    {
      assert Pending() == [];
      PutNothing(Flat(codec, table), writeOffset);
    }

    method GetSize() returns (size: nat)
      requires Valid()
      ensures size == |Contents().bytes|
    {
      size := 0;
      assert table[..0] == [];
      for k := 0 to |table|
        invariant size == |Flat(codec, table[..k]).bytes|
      {
        Extend(codec, table, k);
        assert Usable(table[k]);
        var end := table[k].offset + table[k].size;
        if end > size {
          size := end;
        }
      }
      assert table[..|table|] == table;
      size := Max(writeOffset + writeSize, size);
    }

    /** Any sequence of writes gives the flat file that the same writes give. */
    method WriteAll(writes: seq<(seq<byte>, nat)>)
      requires Valid()
      modifies this, writeBuffer
      ensures Valid() && Contents() == PutAll(old(Contents()), writes)
    {
      assert writes[0..] == writes;
      for k := 0 to |writes|
        invariant Valid()
        invariant PutAll(Contents(), writes[k..]) == PutAll(old(Contents()), writes)
      {
        assert writes[k..][0] == writes[k] && writes[k..][1..] == writes[k + 1..];
        Pwrite(writes[k].0, writes[k].1);
      }
    }
  }

  ghost function PutAll(f: FlatFile, writes: seq<(seq<byte>, nat)>): FlatFile
    decreases |writes|
  {
    if writes == [] then f else PutAll(PutAt(f, writes[0].1, writes[0].0), writes[1..])
  }
}
