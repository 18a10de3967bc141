/** Hashing a range of a file: chunks are processed as they are read, and the last ones get the padding. */
module Hashing {
  import opened Bytes
  import opened Sha256

  const BLOCK: nat := 131072

  /** A word put together with shifts. */
  function ShiftedWord(a: Octet, b: Octet, c: Octet, d: Octet): Word {
    Word(((a.bits as bv32) << 24) | ((b.bits as bv32) << 16) | ((c.bits as bv32) << 8) | (d.bits as bv32))
  }

  lemma ShiftsAreBigEndian(a: Octet, b: Octet, c: Octet, d: Octet)
    ensures ShiftedWord(a, b, c, d) == BigEndianWord(a, b, c, d)
  {
  }

  // ---------- rotations put together with shifts ----------

  function ShiftedBigSigma0(w: Word): Word {
    Word(((w.bits >> 2) | (w.bits << 30)) ^ ((w.bits >> 13) | (w.bits << 19)) ^ ((w.bits >> 22) | (w.bits << 10)))
  }

  lemma BigSigma0Bits(x: bv32)
    ensures ((x >> 2) | (x << 30)) ^ ((x >> 13) | (x << 19)) ^ ((x >> 22) | (x << 10)) == x.RotateRight(2) ^ x.RotateRight(13) ^ x.RotateRight(22)
  {
  }

  function ShiftedBigSigma1(w: Word): Word {
    Word(((w.bits >> 6) | (w.bits << 26)) ^ ((w.bits >> 11) | (w.bits << 21)) ^ ((w.bits >> 25) | (w.bits << 7)))
  }

  lemma BigSigma1Bits(x: bv32)
    ensures ((x >> 6) | (x << 26)) ^ ((x >> 11) | (x << 21)) ^ ((x >> 25) | (x << 7)) == x.RotateRight(6) ^ x.RotateRight(11) ^ x.RotateRight(25)
  {
  }

  function ShiftedSmallSigma0(w: Word): Word {
    Word(((w.bits >> 7) | (w.bits << 25)) ^ ((w.bits >> 18) | (w.bits << 14)) ^ (w.bits >> 3))
  }

  lemma SmallSigma0Bits(x: bv32)
    ensures ((x >> 7) | (x << 25)) ^ ((x >> 18) | (x << 14)) ^ (x >> 3) == x.RotateRight(7) ^ x.RotateRight(18) ^ (x >> 3)
  {
  }

  function ShiftedSmallSigma1(w: Word): Word {
    Word(((w.bits >> 17) | (w.bits << 15)) ^ ((w.bits >> 19) | (w.bits << 13)) ^ (w.bits >> 10))
  }

  lemma SmallSigma1Bits(x: bv32)
    ensures ((x >> 17) | (x << 15)) ^ ((x >> 19) | (x << 13)) ^ (x >> 10) == x.RotateRight(17) ^ x.RotateRight(19) ^ (x >> 10)
  {
  }

  /** Shifts to both sides, joined, are the rotations of the standard. */
  lemma ShiftsAreRotations(w: Word)
    ensures ShiftedBigSigma0(w) == BigSigma0(w) && ShiftedBigSigma1(w) == BigSigma1(w)
    ensures ShiftedSmallSigma0(w) == SmallSigma0(w) && ShiftedSmallSigma1(w) == SmallSigma1(w)
  {
    BigSigma0Bits(w.bits);
    BigSigma1Bits(w.bits);
    SmallSigma0Bits(w.bits);
    SmallSigma1Bits(w.bits);
  }

  ghost function Of(x: array<Word>): Working
    requires x.Length == 8
    reads x
  {
    Working(x[0], x[1], x[2], x[3], x[4], x[5], x[6], x[7])
  }

  class Hasher {
    const hash: array<Word>

    ghost predicate Valid() {
      hash.Length == 8
    }

    ghost function State(): Working
      requires Valid()
      reads hash
    {
      Of(hash)
    }

    constructor ()
      ensures Valid() && State() == H0 && fresh(hash)
    {
      hash := new Word[8](i requires 0 <= i < 8 => Word(INIT[i]));
    }

    method Get() returns (h: Working)
      requires Valid()
      ensures h == State()
    {
      h := Working(hash[0], hash[1], hash[2], hash[3], hash[4], hash[5], hash[6], hash[7]);
    }

    /** The message schedule, in place. */
    method Schedule(data: seq<Octet>) returns (w: array<Word>)
      requires IsBlock(data)
      ensures fresh(w) && w.Length == 64 && forall t :: 0 <= t < 64 ==> w[t] == W(data, t)
    {
      w := FirstWords(data);
      for i := 16 to 64
        invariant forall t :: 0 <= t < i ==> w[t] == W(data, t)
      {
        var s0 := ShiftedSmallSigma0(w[i - 15]);
        var s1 := ShiftedSmallSigma1(w[i - 2]);
        ShiftsAreRotations(w[i - 15]);
        ShiftsAreRotations(w[i - 2]);
        w[i] := Add(Add(Add(w[i - 16], s0), w[i - 7]), s1);
      }
    }

    method FirstWords(data: seq<Octet>) returns (w: array<Word>)
      requires IsBlock(data)
      ensures fresh(w) && w.Length == 64 && forall t :: 0 <= t < 16 ==> w[t] == W(data, t)
    {
      w := new Word[64];
      for i := 0 to 16
        invariant forall t :: 0 <= t < i ==> w[t] == W(data, t)
      {
        w[i] := ShiftedWord(data[4 * i], data[4 * i + 1], data[4 * i + 2], data[4 * i + 3]);
        ShiftsAreBigEndian(data[4 * i], data[4 * i + 1], data[4 * i + 2], data[4 * i + 3]);
      }
    }

    /** One round, in place: each variable moves to the next, the last one is replaced first. */
    method RoundInPlace(x: array<Word>, k: Word, w: Word)
      requires x.Length == 8
      modifies x
      ensures Of(x) == Round(old(Of(x)), k, w)
    {
      ShiftsAreRotations(x[4]);
      ShiftsAreRotations(x[0]);
      var temp1 := Add(Add(Add(Add(x[7], ShiftedBigSigma1(x[4])), Ch(x[4], x[5], x[6])), k), w);
      var temp2 := Add(ShiftedBigSigma0(x[0]), Maj(x[0], x[1], x[2]));
      x[7] := x[6];
      x[6] := x[5];
      x[5] := x[4];
      x[4] := Add(x[3], temp1);
      x[3] := x[2];
      x[2] := x[1];
      x[1] := x[0];
      x[0] := Add(temp1, temp2);
    }

    method ProcessChunk(data: seq<Octet>)
      requires Valid() && IsBlock(data)
      modifies hash
      ensures State() == Compress(old(State()), data)
    {
      var w := Schedule(data);
      var x := new Word[8](i requires 0 <= i < 8 reads hash => hash[i]);
      ghost var h := State();
      assert Of(x) == h;
      for i := 0 to 64
        invariant Of(x) == Rounds(data, h, i) && State() == h
        invariant forall t :: 0 <= t < 64 ==> w[t] == W(data, t)
        modifies x
      {
        RoundInPlace(x, Word(K[i]), w[i]);
      }
      AddInPlace(x);
    }

    method AddInPlace(x: array<Word>)
      requires Valid() && x.Length == 8 && x != hash
      modifies hash
      ensures State() == Sum(old(State()), Of(x))
    {
      for i := 0 to 8
        invariant forall j :: 0 <= j < i ==> hash[j] == Add(old(hash[j]), x[j])
        invariant forall j :: i <= j < 8 ==> hash[j] == old(hash[j])
        modifies hash
      {
        hash[i] := Add(hash[i], x[i]);
      }
    }

    method ProcessChunks(m: seq<Octet>, start: nat, count: nat)
      requires Valid() && start + 64 * count <= |m| && Hashed(m, start, State())
      modifies hash
      ensures Hashed(m, start + 64 * count, State())
    {
      for i := 0 to count
        invariant Hashed(m, start + 64 * i, State())
        modifies hash
      {
        var at := start + 64 * i;
        NextBlock(m, at, State());
        ProcessChunk(m[at..at + 64]);
      }
    }

    method ProcessSample(before: seq<Octet>, sample: seq<Octet>) returns (all: seq<Octet>)
      requires Valid() && |sample| == SAMPLE && Hashed(before, |before|, State())
      modifies hash
      ensures all == before + sample && Hashed(all, |all|, State())
    {
      StillHashed(before, sample, State());
      all := before + sample;
      ProcessChunks(all, |before|, SAMPLE / 64);
    }

    /** The last bytes, of which there are fewer than a chunk, then 0x80, zeros and the length in bits: one or two chunks. */
    method ProcessFinalChunk(data: seq<Octet>, total: nat)
      requires Valid() && |data| == total % 64
      modifies hash
      ensures (|data| + |Padding(total)|) % 64 == 0
      ensures State() == Blocks(old(State()), data + Padding(total))
    {
      var count := if |data| + 9 <= 64 then 1 else 2;
      var buffer := FinalBuffer(data, total, count);
      OneOrTwoBlocks(State(), data + Padding(total), count);
      ProcessChunk(buffer[..64]);
      if count == 2 {
        ProcessChunk(buffer[64..]);
      }
    }

    /** The last chunk of a message of which all before `k` is processed. */
    method Finish(m: seq<Octet>, k: nat)
      requires Valid() && k <= |m| < k + 64 && Hashed(m, k, State())
      modifies hash
      ensures State() == Digest(m)
    {
      SplitMessage(m, k);
      RestSize(|m|, k);
      ProcessFinalChunk(m[k..], |m|);
    }

    method FinalBuffer(data: seq<Octet>, total: nat, count: nat) returns (padded: seq<Octet>)
      requires |data| == total % 64 && count == if |data| + 9 <= 64 then 1 else 2
      ensures padded == data + Padding(total) && |padded| == 64 * count
    {
      var n := |data|;
      var buffer := new Octet[128](_ => Octet(0));
      for i := 0 to n
        invariant forall j :: 0 <= j < i ==> buffer[j] == data[j]
        invariant forall j :: i <= j < 128 ==> buffer[j] == Octet(0)
      {
        buffer[i] := data[i];
      }
      buffer[n] := Octet(0x80);
      var end := 64 * count - 8;
      PutLength(buffer, end, 8 * total);
      padded := buffer[..end + 8];
      FinalChunks(data, total, end, padded);
    }

    /** The length, from its last byte to its first. */
    method PutLength(buffer: array<Octet>, at: nat, bits: nat)
      requires at + 8 <= buffer.Length
      modifies buffer
      ensures buffer[at..at + 8] == BigEndian(bits, 8)
      ensures forall j :: 0 <= j < buffer.Length && !(at <= j < at + 8) ==> buffer[j] == old(buffer[j])
    {
      var left, i := bits, 8;
      assert buffer[at + 8..at + 8] == [];
      while i > 0
        invariant 0 <= i <= 8
        invariant BigEndian(bits, 8) == BigEndian(left, i) + buffer[at + i..at + 8]
        invariant forall j :: 0 <= j < buffer.Length && !(at <= j < at + 8) ==> buffer[j] == old(buffer[j])
      {
        i := i - 1;
        ghost var tail := buffer[at + i + 1..at + 8];
        buffer[at + i] := Octet((left % 256) as bv8);
        assert buffer[at + i..at + 8] == [Octet((left % 256) as bv8)] + tail;
        left := left / 256;
      }
    }
  }

  lemma OneOrTwoBlocks(h: Working, s: seq<Octet>, count: nat)
    requires 1 <= count <= 2 && |s| == 64 * count
    ensures count == 1 ==> Blocks(h, s) == Compress(h, s[..64])
    ensures count == 2 ==> Blocks(h, s) == Compress(Compress(h, s[..64]), s[64..])
  {
    var rest := s[64..];
    if count == 1 {
      assert rest == [];
    } else {
      assert rest[..64] == rest && rest[64..] == [];
      assert Blocks(Compress(h, s[..64]), rest) == Compress(Compress(h, s[..64]), rest);
    }
  }

  /** Where the length starts. */
  lemma LengthStarts(total: nat, n: nat)
    requires n == total % 64
    ensures n + 1 + ZeroCount(total) == if n + 9 <= 64 then 56 else 120
  {
  }

  lemma FinalChunks(data: seq<Octet>, total: nat, end: nat, all: seq<Octet>)
    requires |data| == total % 64 && end == (if |data| + 9 <= 64 then 56 else 120) && |all| == end + 8
    requires all[end..] == BigEndian(8 * total, 8)
    requires forall j :: 0 <= j < end ==> all[j] == if j < |data| then data[j] else if j == |data| then Octet(0x80) else Octet(0)
    ensures all == data + Padding(total)
  {
    LengthStarts(total, |data|);
    ThreeParts(data, ZeroCount(total), all[..end]);
    assert all == all[..end] + all[end..];
    Regroup(data, [Octet(0x80)] + ZeroOctets(ZeroCount(total)), BigEndian(8 * total, 8));
  }

  lemma ThreeParts(data: seq<Octet>, z: nat, front: seq<Octet>)
    requires |front| == |data| + 1 + z
    requires forall j :: 0 <= j < |front| ==> front[j] == if j < |data| then data[j] else if j == |data| then Octet(0x80) else Octet(0)
    ensures front == data + ([Octet(0x80)] + ZeroOctets(z))
  {
  }

  lemma Regroup(a: seq<Octet>, b: seq<Octet>, c: seq<Octet>)
    ensures (a + b) + c == a + (b + c)
  {
  }

  // ---------- the whole range ----------

  /** `h` is the hash after the first `k` bytes, which are whole blocks. */
  ghost predicate Hashed(m: seq<Octet>, k: nat, h: Working) {
    k <= |m| && k % 64 == 0 && h == Blocks(H0, m[..k])
  }

  lemma NextBlock(m: seq<Octet>, at: nat, h: Working)
    requires at + 64 <= |m| && Hashed(m, at, h)
    ensures Hashed(m, at + 64, Compress(h, m[at..at + 64]))
  {
    var block := m[at..at + 64];
    assert m[..at + 64] == m[..at] + block;
    BlocksAppend(H0, m[..at], block);
    OneOrTwoBlocks(h, block, 1);
    assert block[..64] == block;
  }

  function Range(file: seq<Octet>, from: nat, until: nat): seq<Octet> {
    if from < until <= |file| then file[from..until] else []
  }

  lemma WholeRest(total: nat, k: nat)
    requires k <= total && k % 64 == 0
    ensures (total - k + 9 + ZeroCount(total)) % 64 == 0
  {
    var z := ZeroCount(total);
    assert (total + 1 + z + 8) % 64 == 0;
  }

  lemma RestSize(total: nat, k: nat)
    requires k <= total < k + 64 && k % 64 == 0
    ensures total - k == total % 64
  {
  }

  /** The blocks that can be processed, and the padded rest, make up the padded message. */
  lemma SplitMessage(m: seq<Octet>, k: nat)
    requires k <= |m| && k % 64 == 0
    ensures (|m[k..]| + |Padding(|m|)|) % 64 == 0
    ensures Digest(m) == Blocks(Blocks(H0, m[..k]), m[k..] + Padding(|m|))
  {
    SplitBlocks(H0, m, k);
  }

  lemma SplitBlocks(h: Working, m: seq<Octet>, k: nat)
    requires k <= |m| && k % 64 == 0
    ensures (|m[k..]| + |Padding(|m|)|) % 64 == 0
    ensures Blocks(h, Pad(m)) == Blocks(Blocks(h, m[..k]), m[k..] + Padding(|m|))
  {
    WholeRest(|m|, k);
    PadSplits(m, k);
    BlocksAppend(h, m[..k], m[k..] + Padding(|m|));
  }

  lemma PadSplits(m: seq<Octet>, k: nat)
    requires k <= |m|
    ensures Pad(m) == m[..k] + (m[k..] + Padding(|m|))
  {
    assert m == m[..k] + m[k..];
    Regroup(m[..k], m[k..], Padding(|m|));
  }

  /**
   `get_full_hash`: blocks of 2048 chunks are read; the last block may be shorter. The result is the
   digest of the range, however it is cut; `None` if the file is too short.
   */
  method GetFullHash(file: seq<Octet>, from: nat, until: nat) returns (digest: Option<Working>)
    requires from <= until
    ensures digest == if from == until || until <= |file| then Some(Digest(Range(file, from, until))) else None
  {
    if from < until && until > |file| {
      return None;
    }
    var hasher := new Hasher();
    var m := Range(file, from, until);
    var done := 0;
    assert m[..0] == [];
    while true
      invariant 0 <= done <= |m| && fresh(hasher.hash) && hasher.Valid()
      invariant Hashed(m, done, hasher.State())
      decreases |m| - done
    {
      var size := if done + BLOCK > |m| then |m| - done else BLOCK;
      var fullChunks := size / 64;
      hasher.ProcessChunks(m, done, fullChunks);
      if size % 64 != 0 || done + size >= |m| {
        hasher.Finish(m, done + 64 * fullChunks);
        var h := hasher.Get();
        return Some(h);
      }
      done := done + size;
    }
  }

  // ---------- samples ----------

  const SAMPLE: nat := 4096
  const SAMPLES: nat := 256

  /** Where the `i`-th of the samples of a large range starts. */
  function SamplePosition(from: nat, until: nat, i: nat): int
    requires until - from >= 4 * SAMPLE * SAMPLES
  {
    if i == 0 then from
    else if i == SAMPLES - 1 then until - SAMPLE
    else SAMPLE * ((from + i * (until - from) / (SAMPLES - 1)) / SAMPLE)
  }

  /** A sample lies at the last whole block at or before its place in an even division of the range. */
  lemma SampleIsNear(from: nat, until: nat, i: nat)
    requires until - from >= 4 * SAMPLE * SAMPLES && 0 < i < SAMPLES - 1
    ensures var place := from + i * (until - from) / (SAMPLES - 1);
            place - 4096 < SamplePosition(from, until, i) <= place && SamplePosition(from, until, i) % 4096 == 0
  {
  }

  /** Places of consecutive samples are far apart. */
  lemma PlacesAreFar(size: nat, i: nat)
    requires size >= 4 * SAMPLE * SAMPLES
    ensures i * size / (SAMPLES - 1) + 4 * SAMPLE <= (i + 1) * size / (SAMPLES - 1)
  {
    assert (i + 1) * size == i * size + size;
  }

  lemma NextSampleIsLater(from: nat, until: nat, i: nat)
    requires until - from >= 4 * SAMPLE * SAMPLES && i + 1 < SAMPLES
    ensures SamplePosition(from, until, i) + SAMPLE <= SamplePosition(from, until, i + 1)
  {
    var size := until - from;
    PlacesAreFar(size, i);
    assert 0 * size / (SAMPLES - 1) == 0 && (SAMPLES - 1) * size / (SAMPLES - 1) == size;
    if i > 0 {
      SampleIsNear(from, until, i);
    }
    if i + 1 < SAMPLES - 1 {
      SampleIsNear(from, until, i + 1);
    }
  }

  /** The samples of a large range follow each other, do not overlap, and lie in the range; the first and the last touch its ends. */
  lemma {:induction false} SamplesAreDisjoint(from: nat, until: nat, i: nat, j: nat)
    requires until - from >= 4 * SAMPLE * SAMPLES && i < j < SAMPLES
    ensures SamplePosition(from, until, i) + SAMPLE <= SamplePosition(from, until, j)
    ensures from <= SamplePosition(from, until, i) && SamplePosition(from, until, j) + SAMPLE <= until
    ensures SamplePosition(from, until, 0) == from && SamplePosition(from, until, 255) + 4096 == until
  {
    SamplesIncrease(from, until, i, j);
    SamplesIncrease(from, until, 0, j);
    if i > 0 {
      SamplesIncrease(from, until, 0, i);
    }
    if j < SAMPLES - 1 {
      SamplesIncrease(from, until, j, SAMPLES - 1);
    }
  }

  lemma {:induction false} SamplesIncrease(from: nat, until: nat, i: nat, j: nat)
    requires until - from >= 4 * SAMPLE * SAMPLES && i < j < SAMPLES
    ensures SamplePosition(from, until, i) + SAMPLE <= SamplePosition(from, until, j)
    decreases j
  {
    NextSampleIsLater(from, until, j - 1);
    if i < j - 1 {
      SamplesIncrease(from, until, i, j - 1);
    }
  }

  /** The bytes of the first `n` samples. */
  ghost function Samples(file: seq<Octet>, from: nat, until: nat, n: nat): (s: seq<Octet>)
    requires until - from >= 4 * SAMPLE * SAMPLES && until <= |file| && n <= SAMPLES
    ensures |s| == SAMPLE * n
  {
    if n == 0 then []
    else
      SampleInside(from, until, n - 1);
      var p := SamplePosition(from, until, n - 1);
      Samples(file, from, until, n - 1) + file[p..p + SAMPLE]
  }

  lemma SampleInside(from: nat, until: nat, i: nat)
    requires until - from >= 4 * SAMPLE * SAMPLES && i < SAMPLES
    ensures from <= SamplePosition(from, until, i) && SamplePosition(from, until, i) + SAMPLE <= until
  {
    if i > 0 {
      SamplesAreDisjoint(from, until, 0, i);
    } else {
      SamplesAreDisjoint(from, until, 0, 1);
    }
  }

  /** `get_fast_hash`: a small range is hashed whole; of a large one the samples, without padding. */
  method GetFastHash(file: seq<Octet>, from: nat, until: nat) returns (digest: Option<Working>)
    requires from <= until
    ensures until - from < 4 * SAMPLE * SAMPLES ==>
              digest == if from == until || until <= |file| then Some(Digest(Range(file, from, until))) else None
    ensures until - from >= 4 * SAMPLE * SAMPLES ==>
              digest == if until <= |file| then Some(Blocks(H0, Samples(file, from, until, SAMPLES))) else None
  {
    if until - from < 4 * SAMPLE * SAMPLES {
      digest := GetFullHash(file, from, until);
      return;
    }
    if until > |file| {
      return None;
    }
    var h := HashSamples(file, from, until);
    return Some(h);
  }

  method HashSamples(file: seq<Octet>, from: nat, until: nat) returns (h: Working)
    requires until - from >= 4 * SAMPLE * SAMPLES && until <= |file|
    ensures h == Blocks(H0, Samples(file, from, until, SAMPLES))
  {
    var hasher := new Hasher();
    var read := [];
    for i := 0 to SAMPLES
      invariant fresh(hasher.hash) && hasher.Valid()
      invariant read == Samples(file, from, until, i) && Hashed(read, |read|, hasher.State())
    {
      var sample := ReadSample(file, from, until, i);
      read := hasher.ProcessSample(read, sample);
    }
    AllHashed(read, hasher.State());
    h := hasher.Get();
  }

  method ReadSample(file: seq<Octet>, from: nat, until: nat, i: nat) returns (sample: seq<Octet>)
    requires until - from >= 4 * SAMPLE * SAMPLES && until <= |file| && i < SAMPLES
    ensures |sample| == SAMPLE && Samples(file, from, until, i + 1) == Samples(file, from, until, i) + sample
  {
    SampleInside(from, until, i);
    var p := SamplePosition(from, until, i);
    sample := file[p..p + SAMPLE];
  }

  lemma AllHashed(m: seq<Octet>, h: Working)
    requires Hashed(m, |m|, h)
    ensures |m| % 64 == 0 && h == Blocks(H0, m)
  {
    assert m[..|m|] == m;
  }

  lemma StillHashed(m: seq<Octet>, more: seq<Octet>, h: Working)
    requires Hashed(m, |m|, h)
    ensures Hashed(m + more, |m|, h)
  {
    assert (m + more)[..|m|] == m[..|m|];
  }
}
