/** SHA-256 as FIPS 180-4 defines it: padding (section 5.1.1) and hash computation (section 6.2.2). */
module Sha256 {
  datatype Octet = Octet(bits: bv8)
  datatype Word = Word(bits: bv32)

  const INIT: seq<bv32> := [
    0x6a09e667, 0xbb67ae85, 0x3c6ef372, 0xa54ff53a, 0x510e527f, 0x9b05688c, 0x1f83d9ab, 0x5be0cd19
  ]

  const FIRST_K: seq<bv32> := [
    0x428a2f98, 0x71374491, 0xb5c0fbcf, 0xe9b5dba5, 0x3956c25b, 0x59f111f1, 0x923f82a4, 0xab1c5ed5,
    0xd807aa98, 0x12835b01, 0x243185be, 0x550c7dc3, 0x72be5d74, 0x80deb1fe, 0x9bdc06a7, 0xc19bf174,
    0xe49b69c1, 0xefbe4786, 0x0fc19dc6, 0x240ca1cc, 0x2de92c6f, 0x4a7484aa, 0x5cb0a9dc, 0x76f988da,
    0x983e5152, 0xa831c66d, 0xb00327c8, 0xbf597fc7, 0xc6e00bf3, 0xd5a79147, 0x06ca6351, 0x14292967
  ]

  const LAST_K: seq<bv32> := [
    0x27b70a85, 0x2e1b2138, 0x4d2c6dfc, 0x53380d13, 0x650a7354, 0x766a0abb, 0x81c2c92e, 0x92722c85,
    0xa2bfe8a1, 0xa81a664b, 0xc24b8b70, 0xc76c51a3, 0xd192e819, 0xd6990624, 0xf40e3585, 0x106aa070,
    0x19a4c116, 0x1e376c08, 0x2748774c, 0x34b0bcb5, 0x391c0cb3, 0x4ed8aa4a, 0x5b9cca4f, 0x682e6ff3,
    0x748f82ee, 0x78a5636f, 0x84c87814, 0x8cc70208, 0x90befffa, 0xa4506ceb, 0xbef9a3f7, 0xc67178f2
  ]

  const K: seq<bv32> := FIRST_K + LAST_K

  // ---------- section 4.1.2 ----------

  function Ch(x: Word, y: Word, z: Word): Word {
    Word((x.bits & y.bits) ^ (!x.bits & z.bits))
  }

  function Maj(x: Word, y: Word, z: Word): Word {
    Word((x.bits & y.bits) ^ (x.bits & z.bits) ^ (y.bits & z.bits))
  }

  function BigSigma0(w: Word): Word {
    Word(w.bits.RotateRight(2) ^ w.bits.RotateRight(13) ^ w.bits.RotateRight(22))
  }

  function BigSigma1(w: Word): Word {
    Word(w.bits.RotateRight(6) ^ w.bits.RotateRight(11) ^ w.bits.RotateRight(25))
  }

  function SmallSigma0(w: Word): Word {
    Word(w.bits.RotateRight(7) ^ w.bits.RotateRight(18) ^ (w.bits >> 3))
  }

  function SmallSigma1(w: Word): Word {
    Word(w.bits.RotateRight(17) ^ w.bits.RotateRight(19) ^ (w.bits >> 10))
  }

  /** Addition modulo 2^32. */
  function Add(x: Word, y: Word): Word {
    Word(x.bits + y.bits)
  }

  // ---------- section 6.2.2 ----------

  /** Four bytes, the most significant first. */
  function BigEndianWord(a: Octet, b: Octet, c: Octet, d: Octet): Word {
    Word((a.bits as bv32) * 0x100_0000 + (b.bits as bv32) * 0x1_0000 + (c.bits as bv32) * 0x100 + (d.bits as bv32))
  }

  predicate IsBlock(s: seq<Octet>) { |s| == 64 }

  /** The message schedule. The standard writes the four terms of the sum in the opposite order. */
  function W(block: seq<Octet>, t: nat): Word
    requires IsBlock(block) && t < 64
  {
    if t < 16 then BigEndianWord(block[4 * t], block[4 * t + 1], block[4 * t + 2], block[4 * t + 3])
    else Add(Add(Add(W(block, t - 16), SmallSigma0(W(block, t - 15))), W(block, t - 7)), SmallSigma1(W(block, t - 2)))
  }

  datatype Working = Working(a: Word, b: Word, c: Word, d: Word, e: Word, f: Word, g: Word, h: Word)

  function T1(v: Working, k: Word, w: Word): Word {
    Add(Add(Add(Add(v.h, BigSigma1(v.e)), Ch(v.e, v.f, v.g)), k), w)
  }

  function T2(v: Working): Word {
    Add(BigSigma0(v.a), Maj(v.a, v.b, v.c))
  }

  function Round(v: Working, k: Word, w: Word): Working {
    Working(Add(T1(v, k, w), T2(v)), v.a, v.b, v.c, Add(v.d, T1(v, k, w)), v.e, v.f, v.g)
  }

  /** The working variables after `t` rounds. */
  function Rounds(block: seq<Octet>, v: Working, t: nat): Working
    requires IsBlock(block) && t <= |K|
  {
    if t == 0 then v else Round(Rounds(block, v, t - 1), Word(K[t - 1]), W(block, t - 1))
  }

  function Sum(x: Working, y: Working): Working {
    Working(Add(x.a, y.a), Add(x.b, y.b), Add(x.c, y.c), Add(x.d, y.d), Add(x.e, y.e), Add(x.f, y.f), Add(x.g, y.g), Add(x.h, y.h))
  }

  function Compress(h: Working, block: seq<Octet>): Working
    requires IsBlock(block)
  {
    Sum(h, Rounds(block, h, |K|))
  }

  const H0 := Working(Word(INIT[0]), Word(INIT[1]), Word(INIT[2]), Word(INIT[3]),
                      Word(INIT[4]), Word(INIT[5]), Word(INIT[6]), Word(INIT[7]))

  /** The hash after whole blocks. */
  function Blocks(h: Working, s: seq<Octet>): Working
    requires |s| % 64 == 0
    decreases |s|
  {
    if s == [] then h
    else
      FirstBlock(|s|);
      Blocks(Compress(h, s[..64]), s[64..])
  }

  lemma FirstBlock(n: nat)
    requires n % 64 == 0 && n > 0
    ensures n >= 64 && (n - 64) % 64 == 0
  {
  }

  // ---------- section 5.1.1 ----------

  /** The low `n` bytes of `x`, the most significant first. */
  function BigEndian(x: nat, n: nat): (s: seq<Octet>)
    ensures |s| == n
  {
    if n == 0 then [] else BigEndian(x / 256, n - 1) + [Octet((x % 256) as bv8)]
  }

  /** How many zero bytes follow the byte 0x80: the least number that leaves the length at the end of a block. */
  function ZeroCount(length: nat): (z: nat)
    ensures z < 64 && (length + 1 + z + 8) % 64 == 0
  {
    (55 - length) % 64
  }

  function ZeroOctets(n: nat): (s: seq<Octet>)
    ensures |s| == n && forall i :: 0 <= i < n ==> s[i] == Octet(0)
  {
    seq(n, _ => Octet(0))
  }

  /** A one bit, zeros, and the length in bits as 64 bits. */
  function Padding(length: nat): (s: seq<Octet>)
    ensures |s| == 9 + ZeroCount(length)
  {
    [Octet(0x80)] + ZeroOctets(ZeroCount(length)) + BigEndian(8 * length, 8)
  }

  function Pad(m: seq<Octet>): (s: seq<Octet>)
    ensures |s| % 64 == 0
  {
    m + Padding(|m|)
  }

  function Digest(m: seq<Octet>): Working {
    Blocks(H0, Pad(m))
  }

  lemma Unfold(h: Working, s: seq<Octet>)
    requires |s| % 64 == 0 && s != []
    ensures |s| >= 64 && (|s| - 64) % 64 == 0 && Blocks(h, s) == Blocks(Compress(h, s[..64]), s[64..])
  {
    FirstBlock(|s|);
  }

  lemma CutFirst(a: seq<Octet>, b: seq<Octet>)
    requires |a| >= 64
    ensures (a + b)[..64] == a[..64] && (a + b)[64..] == a[64..] + b
  {
  }

  lemma {:induction false} BlocksAppend(h: Working, a: seq<Octet>, b: seq<Octet>)
    requires |a| % 64 == 0 && |b| % 64 == 0
    ensures Blocks(h, a + b) == Blocks(Blocks(h, a), b)
    decreases |a|
  {
    if a == [] {
      assert a + b == b;
    } else {
      Unfold(h, a);
      Unfold(h, a + b);
      CutFirst(a, b);
      BlocksAppend(Compress(h, a[..64]), a[64..], b);
    }
  }
}
