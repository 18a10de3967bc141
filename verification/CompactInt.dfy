/** Variable-length integers: the top three bits of the first byte count the bytes that follow. */
module CompactInt {
  import opened Bits
  import opened Bytes

  /** `x >> (8 * e)`. */
  function Shift(x: nat, e: nat): nat {
    if e == 0 then x else Shift(x / 256, e - 1)
  }

  /** Values that the encoding is for. */
  const MAX: nat := 0x2000_0000_0000_0000

  /** The low `e` bytes of `x`, most significant first. */
  function BigEndian(x: nat, e: nat): (s: seq<byte>)
    ensures |s| == e
  {
    if e == 0 then [] else BigEndian(x / 256, e - 1) + [x % 256]
  }

  function FromBytes(high: nat, s: seq<byte>): nat {
    if s == [] then high else FromBytes(high, s[..|s| - 1]) * 256 + s[|s| - 1]
  }

  /** The least number of extra bytes from `e` on for which the first byte has room, or 7. */
  function ExtraBytes(x: nat, e: nat): (r: nat)
    requires e <= 7
    ensures e <= r <= 7
    decreases 7 - e
  {
    if e == 7 || Shift(x, e) < 32 then e else ExtraBytes(x, e + 1)
  }

  function Encode(x: nat): (s: seq<byte>)
    requires x < MAX
    ensures 1 <= |s| <= 8
  {
    var e := ExtraBytes(x, 0);
    FirstByteFits(x, 0);
    [e * 32 + Shift(x, e)] + BigEndian(x, e)
  }

  /** Decode at the front of `s`: the value, and how many bytes it took. */
  function Decode(s: seq<byte>): (r: Option<(nat, nat)>)
    ensures r.Some? ==> 1 <= r.value.1 <= 8 && r.value.1 <= |s|
  {
    if s == [] then None
    else
      var e := s[0] / 32;
      if |s| < 1 + e then None else Some((FromBytes(s[0] % 32, s[1..1 + e]), 1 + e))
  }

  lemma ShiftBound(x: nat)
    requires x < MAX
    ensures Shift(x, 7) < 32
  {
    var x1 := x / 256; var x2 := x1 / 256; var x3 := x2 / 256; var x4 := x3 / 256; var x5 := x4 / 256; var x6 := x5 / 256;
    assert Shift(x, 7) == Shift(x1, 6) == Shift(x2, 5) == Shift(x3, 4) == Shift(x4, 3) == Shift(x5, 2) == Shift(x6, 1);
    assert x6 / 256 < 32;
  }

  lemma FirstByteFits(x: nat, e: nat)
    requires x < MAX && e <= 7
    ensures Shift(x, ExtraBytes(x, e)) < 32
    decreases 7 - e
  {
    ShiftBound(x);
  }

  lemma {:induction false} ShiftSuccessor(x: nat, e: nat)
    ensures Shift(x, e + 1) == Shift(x, e) / 256
  {
    if e > 0 {
      ShiftSuccessor(x / 256, e - 1);
    }
  }

  // ---------- round trip ----------

  lemma {:induction false} BytesAreValue(x: nat, e: nat)
    ensures FromBytes(Shift(x, e), BigEndian(x, e)) == x
  {
    if e > 0 {
      BytesAreValue(x / 256, e - 1);
      var s := BigEndian(x, e);
      assert s[..|s| - 1] == BigEndian(x / 256, e - 1);
    }
  }

  lemma DecodeParts(e: nat, high: nat, tail: seq<byte>, rest: seq<byte>)
    requires e < 8 && high < 32 && |tail| == e
    ensures Decode(([e * 32 + high] + tail) + rest) == Some((FromBytes(high, tail), 1 + e))
  {
    var s := ([e * 32 + high] + tail) + rest;
    assert s[0] == e * 32 + high && s[0] / 32 == e && s[0] % 32 == high;
    assert s[1..1 + e] == tail;
  }

  /** Whatever follows, an encoded value is read back, and exactly its bytes are consumed. */
  lemma {:induction false} RoundTrip(x: nat, rest: seq<byte>)
    requires x < MAX
    ensures Decode(Encode(x) + rest) == Some((x, |Encode(x)|))
  {
    FirstByteFits(x, 0);
    var e := ExtraBytes(x, 0);
    DecodeParts(e, Shift(x, e), BigEndian(x, e), rest);
    BytesAreValue(x, e);
  }

  // ---------- beyond 2^61 ----------

  /** What `compact_write` writes for any integer of up to 64 bits: the first byte is an OR, and a negative value is written as 0. */
  function EncodeAny(x: int): (s: seq<byte>)
    requires x < MAX64
    ensures 1 <= |s| <= 8
  {
    if x < 0 then [0]
    else
      var e := ExtraBytes(x, 0);
      [FirstByte(e, Shift(x, e))] + BigEndian(x, e)
  }

  /** The low byte of `(e << 5) | high`: the low five bits are those of `high`, the others, if it has any, are joined. */
  function FirstByte(e: nat, high: nat): (b: byte)
    requires e <= 7
    ensures high < 32 ==> b == e * 32 + high
    ensures e == 7 ==> b == 224 + high % 32
  {
    if high < 32 then e * 32 + high else 32 * Or3(e, high / 32 % 8) + high % 32
  }

  const MAX64: nat := 0x1_0000_0000_0000_0000

  /** Below 2^61 the OR is a sum. */
  lemma {:induction false} SmallIsEncode(x: nat)
    requires x < MAX
    ensures EncodeAny(x) == Encode(x)
  {
    FirstByteFits(x, 0);
  }

  function Pow256(n: nat): nat {
    if n == 0 then 1 else 256 * Pow256(n - 1)
  }

  lemma Pow256Seven()
    ensures Pow256(7) == TOP && 32 * TOP == MAX
  {
    assert Pow256(1) == 256 && Pow256(2) == 0x1_0000 && Pow256(3) == 0x100_0000;
    assert Pow256(5) == 256 * Pow256(4) && Pow256(6) == 256 * Pow256(5);
  }

  /** The bytes that follow a larger high part stand for as much more. */
  lemma {:induction false} HighPart(high: nat, s: seq<byte>)
    ensures FromBytes(high, s) == high * Pow256(|s|) + FromBytes(0, s) < (high + 1) * Pow256(|s|)
  {
    if s != [] {
      var t := s[..|s| - 1];
      HighPart(high, t);
      HighPart(0, t);
      HighStep(high, Pow256(|t|), FromBytes(0, t), s[|s| - 1]);
    }
  }

  lemma HighStep(high: nat, p: nat, low: nat, b: byte)
    requires low < p
    ensures (high * p + low) * 256 + b == high * (256 * p) + (low * 256 + b) < (high + 1) * (256 * p)
  {
    assert (high + 1) * (256 * p) == high * (256 * p) + 256 * p;
    assert high * (256 * p) == 256 * (high * p);
  }

  /** Seven bytes after the first. */
  lemma SevenBytes(high: nat, s: seq<byte>)
    requires |s| == 7
    ensures FromBytes(high, s) == high * TOP + FromBytes(0, s) && FromBytes(0, s) < TOP
  {
    HighPart(high, s);
    HighPart(0, s);
    Pow256Seven();
  }

  const TOP: nat := 0x100_0000_0000_0000

  lemma {:induction false} BigNeedsSeven(x: nat)
    requires MAX <= x < MAX64
    ensures ExtraBytes(x, 0) == 7 && 32 <= Shift(x, 7) < 256
  {
    BytesAreValue(x, 7);
    SevenBytes(Shift(x, 7), BigEndian(x, 7));
    NoRoomBefore(x, 0);
  }

  lemma {:induction false} NoRoomBefore(x: nat, e: nat)
    requires e <= 7 && Shift(x, 7) >= 32
    ensures ExtraBytes(x, e) == 7
    decreases 7 - e
  {
    if e < 7 {
      ShiftGrows(x, e, 7);
      NoRoomBefore(x, e + 1);
    }
  }

  lemma {:induction false} ShiftGrows(x: nat, d: nat, e: nat)
    requires d <= e
    ensures Shift(x, e) <= Shift(x, d)
    decreases e - d
  {
    if d < e {
      ShiftSuccessor(x, e - 1);
      ShiftGrows(x, d, e - 1);
    }
  }

  /** From 2^61 on, what is read back is the remainder modulo 2^61. */
  lemma {:induction false} BigWrapsAround(x: nat, rest: seq<byte>)
    requires MAX <= x < MAX64
    ensures Decode(EncodeAny(x) + rest) == Some((x % MAX, 8))
  {
    BigNeedsSeven(x);
    var high, low := Shift(x, 7), BigEndian(x, 7);
    var s := EncodeAny(x) + rest;
    assert s[0] == 224 + high % 32 && s[1..8] == low;
    BytesAreValue(x, 7);
    SevenBytes(high, low);
    SevenBytes(high % 32, low);
    Remainder(high, FromBytes(0, low));
  }

  lemma Remainder(high: nat, low: nat)
    requires low < TOP
    ensures (high * TOP + low) % MAX == (high % 32) * TOP + low
  {
    var q, m := high / 32, high % 32;
    assert high == 32 * q + m && m < 32;
    RemainderOf(q, m * TOP + low);
  }

  lemma RemainderOf(q: nat, r: nat)
    requires r < MAX
    ensures (q * MAX + r) % MAX == r
  {
    var k := (q * MAX + r) / MAX;
    assert k * MAX <= q * MAX + r < (k + 1) * MAX;
    assert k == q;
  }

  /** `compact_write` and `compact_read` agree if and only if the value is not negative and below 2^61. */
  lemma {:induction false} RoundTripsExactly(x: int, rest: seq<byte>)
    requires x < MAX64
    ensures Decode(EncodeAny(x) + rest).Some?
    ensures Decode(EncodeAny(x) + rest).value.0 == x <==> 0 <= x < MAX
  {
    if x < 0 {
      assert (EncodeAny(x) + rest)[0] == 0 && (EncodeAny(x) + rest)[1..1] == [];
    } else if x < MAX {
      SmallIsEncode(x);
      RoundTrip(x, rest);
    } else {
      BigWrapsAround(x, rest);
    }
  }

  // ---------- minimal length ----------

  lemma {:induction false} HighIsShift(high: nat, s: seq<byte>)
    ensures Shift(FromBytes(high, s), |s|) == high
  {
    if s != [] {
      HighIsShift(high, s[..|s| - 1]);
      assert FromBytes(high, s) / 256 == FromBytes(high, s[..|s| - 1]);
    }
  }

  lemma ExtraBytesLeast(x: nat, e: nat, n: nat)
    requires e <= n <= 7 && Shift(x, n) < 32
    ensures ExtraBytes(x, e) <= n
    decreases 7 - e
  {
    if e < n && Shift(x, e) >= 32 {
      ExtraBytesLeast(x, e + 1, n);
    }
  }

  /** No byte string shorter than the encoding of a value decodes to it. */
  lemma EncodingIsShortest(x: nat, s: seq<byte>)
    requires x < MAX && Decode(s).Some? && Decode(s).value.0 == x
    ensures |Encode(x)| <= Decode(s).value.1
  {
    var e := s[0] / 32;
    HighIsShift(s[0] % 32, s[1..1 + e]);
    ExtraBytesLeast(x, 0, e);
  }

  // ---------- the loops ----------

  /** `compact_write`: the bytes in the order in which they are written. */
  method CompactWrite(x: int) returns (out: seq<byte>)
    requires x < MAX64
    ensures out == EncodeAny(x)
    ensures 0 <= x < MAX ==> out == Encode(x)
  {
    if 0 <= x < MAX {
      SmallIsEncode(x);
    }
    if x < 0x20 {
      return if x < 0 then [0] else [x];
    }
    assert Shift(x, 1) == x / 256;
    if x < 0x20 * 0x100 {
      assert BigEndian(x, 1) == [x % 256];
      return [FirstByte(1, x / 256), x % 256];
    }
    out := CompactWriteLong(x);
  }

  method CompactWriteLong(x: nat) returns (out: seq<byte>)
    requires 0x20 * 0x100 <= x < MAX64
    ensures out == EncodeAny(x)
  {
    var extra := 2;
    assert Shift(x, 1) == x / 256;
    assert ExtraBytes(x, 0) == ExtraBytes(x, 1);
    assert ExtraBytes(x, 1) == ExtraBytes(x, 2);
    while extra < 7 && Shift(x, extra) >= 0x20
      invariant 2 <= extra <= 7
      invariant ExtraBytes(x, 0) == ExtraBytes(x, extra)
    {
      extra := extra + 1;
    }
    var first := FirstByte(extra, Shift(x, extra));
    out := [first];
    var k := extra;
    while k > 0
      invariant 0 <= k <= extra
      invariant out == [first] + BigEndian(Shift(x, k), extra - k)
    {
      k := k - 1;
      ShiftSuccessor(x, k);
      out := out + [Shift(x, k) % 256];
    }
  }

  /** `compact_read` on bytes that are all there. */
  method CompactRead(s: seq<byte>) returns (value: nat, length: nat)
    requires Decode(s).Some?
    ensures Decode(s) == Some((value, length))
  {
    var extra := s[0] / 32;
    value := s[0] % 32;
    length := 1;
    while length < 1 + extra
      invariant 1 <= length <= 1 + extra
      invariant value == FromBytes(s[0] % 32, s[1..length])
    {
      assert s[1..length + 1][..length - 1] == s[1..length];
      value := value * 256 + s[length];
      length := length + 1;
    }
  }
}
