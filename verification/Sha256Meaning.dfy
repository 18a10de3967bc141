/**
 What the constants and functions of section 4 and 5.3.3 of FIPS 180-4 are: the constants are the
 first 32 bits of the fractions of cube and square roots of primes, and the functions work bit by bit.
 */
module Sha256Meaning {
  import opened Sha256

  const FIRST_PRIMES: seq<nat> := [
    2, 3, 5, 7, 11, 13, 17, 19, 23, 29, 31, 37, 41, 43, 47, 53,
    59, 61, 67, 71, 73, 79, 83, 89, 97, 101, 103, 107, 109, 113, 127, 131
  ]

  const LAST_PRIMES: seq<nat> := [
    137, 139, 149, 151, 157, 163, 167, 173, 179, 181, 191, 193, 197, 199, 211, 223,
    227, 229, 233, 239, 241, 251, 257, 263, 269, 271, 277, 281, 283, 293, 307, 311
  ]

  /** The first sixty-four primes. */
  const PRIMES: seq<nat> := FIRST_PRIMES + LAST_PRIMES

  /** `word / 2^32` is the fraction of the cube root of `p`, cut to 32 bits: `whole` is the integer part. */
  predicate CubeRoot(p: nat, whole: nat, word: nat) {
    var r := whole * 0x1_0000_0000 + word;
    word < 0x1_0000_0000 && r * r * r <= p * 0x1_0000_0000 * 0x1_0000_0000 * 0x1_0000_0000 < (r + 1) * (r + 1) * (r + 1)
  }

  predicate SquareRoot(p: nat, whole: nat, word: nat) {
    var r := whole * 0x1_0000_0000 + word;
    word < 0x1_0000_0000 && r * r <= p * 0x1_0000_0000 * 0x1_0000_0000 < (r + 1) * (r + 1)
  }

  /** Round constant `t` is the fraction of the cube root of prime `t`. */
  predicate RoundConstant(t: nat, p: nat, whole: nat, word: bv32) {
    t < 64 && CubeRoot(p, whole, word as nat) && PRIMES[t] == p && K[t] == word
  }

  /** Word `t` of the initial hash is the fraction of the square root of prime `t`. */
  predicate InitialWord(t: nat, p: nat, whole: nat, word: bv32) {
    t < 8 && SquareRoot(p, whole, word as nat) && PRIMES[t] == p && INIT[t] == word
  }

  lemma Constants0() ensures RoundConstant(0, 2, 1, 0x428a2f98) && RoundConstant(1, 3, 1, 0x71374491) {}
  lemma Constants1() ensures RoundConstant(2, 5, 1, 0xb5c0fbcf) && RoundConstant(3, 7, 1, 0xe9b5dba5) {}
  lemma Constants2() ensures RoundConstant(4, 11, 2, 0x3956c25b) && RoundConstant(5, 13, 2, 0x59f111f1) {}
  lemma Constants3() ensures RoundConstant(6, 17, 2, 0x923f82a4) && RoundConstant(7, 19, 2, 0xab1c5ed5) {}
  lemma Constants4() ensures RoundConstant(8, 23, 2, 0xd807aa98) && RoundConstant(9, 29, 3, 0x12835b01) {}
  lemma Constants5() ensures RoundConstant(10, 31, 3, 0x243185be) && RoundConstant(11, 37, 3, 0x550c7dc3) {}
  lemma Constants6() ensures RoundConstant(12, 41, 3, 0x72be5d74) && RoundConstant(13, 43, 3, 0x80deb1fe) {}
  lemma Constants7() ensures RoundConstant(14, 47, 3, 0x9bdc06a7) && RoundConstant(15, 53, 3, 0xc19bf174) {}
  lemma Constants8() ensures RoundConstant(16, 59, 3, 0xe49b69c1) && RoundConstant(17, 61, 3, 0xefbe4786) {}
  lemma Constants9() ensures RoundConstant(18, 67, 4, 0x0fc19dc6) && RoundConstant(19, 71, 4, 0x240ca1cc) {}
  lemma Constants10() ensures RoundConstant(20, 73, 4, 0x2de92c6f) && RoundConstant(21, 79, 4, 0x4a7484aa) {}
  lemma Constants11() ensures RoundConstant(22, 83, 4, 0x5cb0a9dc) && RoundConstant(23, 89, 4, 0x76f988da) {}
  lemma Constants12() ensures RoundConstant(24, 97, 4, 0x983e5152) && RoundConstant(25, 101, 4, 0xa831c66d) {}
  lemma Constants13() ensures RoundConstant(26, 103, 4, 0xb00327c8) && RoundConstant(27, 107, 4, 0xbf597fc7) {}
  lemma Constants14() ensures RoundConstant(28, 109, 4, 0xc6e00bf3) && RoundConstant(29, 113, 4, 0xd5a79147) {}
  lemma Constants15() ensures RoundConstant(30, 127, 5, 0x06ca6351) && RoundConstant(31, 131, 5, 0x14292967) {}
  lemma Constants16() ensures RoundConstant(32, 137, 5, 0x27b70a85) && RoundConstant(33, 139, 5, 0x2e1b2138) {}
  lemma Constants17() ensures RoundConstant(34, 149, 5, 0x4d2c6dfc) && RoundConstant(35, 151, 5, 0x53380d13) {}
  lemma Constants18() ensures RoundConstant(36, 157, 5, 0x650a7354) && RoundConstant(37, 163, 5, 0x766a0abb) {}
  lemma Constants19() ensures RoundConstant(38, 167, 5, 0x81c2c92e) && RoundConstant(39, 173, 5, 0x92722c85) {}
  lemma Constants20() ensures RoundConstant(40, 179, 5, 0xa2bfe8a1) && RoundConstant(41, 181, 5, 0xa81a664b) {}
  lemma Constants21() ensures RoundConstant(42, 191, 5, 0xc24b8b70) && RoundConstant(43, 193, 5, 0xc76c51a3) {}
  lemma Constants22() ensures RoundConstant(44, 197, 5, 0xd192e819) && RoundConstant(45, 199, 5, 0xd6990624) {}
  lemma Constants23() ensures RoundConstant(46, 211, 5, 0xf40e3585) && RoundConstant(47, 223, 6, 0x106aa070) {}
  lemma Constants24() ensures RoundConstant(48, 227, 6, 0x19a4c116) && RoundConstant(49, 229, 6, 0x1e376c08) {}
  lemma Constants25() ensures RoundConstant(50, 233, 6, 0x2748774c) && RoundConstant(51, 239, 6, 0x34b0bcb5) {}
  lemma Constants26() ensures RoundConstant(52, 241, 6, 0x391c0cb3) && RoundConstant(53, 251, 6, 0x4ed8aa4a) {}
  lemma Constants27() ensures RoundConstant(54, 257, 6, 0x5b9cca4f) && RoundConstant(55, 263, 6, 0x682e6ff3) {}
  lemma Constants28() ensures RoundConstant(56, 269, 6, 0x748f82ee) && RoundConstant(57, 271, 6, 0x78a5636f) {}
  lemma Constants29() ensures RoundConstant(58, 277, 6, 0x84c87814) && RoundConstant(59, 281, 6, 0x8cc70208) {}
  lemma Constants30() ensures RoundConstant(60, 283, 6, 0x90befffa) && RoundConstant(61, 293, 6, 0xa4506ceb) {}
  lemma Constants31() ensures RoundConstant(62, 307, 6, 0xbef9a3f7) && RoundConstant(63, 311, 6, 0xc67178f2) {}

  lemma Initial0() ensures InitialWord(0, 2, 1, 0x6a09e667) && InitialWord(1, 3, 1, 0xbb67ae85) {}
  lemma Initial1() ensures InitialWord(2, 5, 2, 0x3c6ef372) && InitialWord(3, 7, 2, 0xa54ff53a) {}
  lemma Initial2() ensures InitialWord(4, 11, 3, 0x510e527f) && InitialWord(5, 13, 3, 0x9b05688c) {}
  lemma Initial3() ensures InitialWord(6, 17, 4, 0x1f83d9ab) && InitialWord(7, 19, 4, 0x5be0cd19) {}

  /** Every round constant is the first thirty-two bits of the fractional part of the cube root of a prime. */
  lemma RoundConstantsAreCubeRoots(t: nat)
    requires t < 64
    ensures exists p: nat, whole: nat, word: bv32 :: RoundConstant(t, p, whole, word)
  {
    match t / 2
    case 0 => Constants0();
    case 1 => Constants1();
    case 2 => Constants2();
    case 3 => Constants3();
    case 4 => Constants4();
    case 5 => Constants5();
    case 6 => Constants6();
    case 7 => Constants7();
    case 8 => Constants8();
    case 9 => Constants9();
    case 10 => Constants10();
    case 11 => Constants11();
    case 12 => Constants12();
    case 13 => Constants13();
    case 14 => Constants14();
    case 15 => Constants15();
    case 16 => Constants16();
    case 17 => Constants17();
    case 18 => Constants18();
    case 19 => Constants19();
    case 20 => Constants20();
    case 21 => Constants21();
    case 22 => Constants22();
    case 23 => Constants23();
    case 24 => Constants24();
    case 25 => Constants25();
    case 26 => Constants26();
    case 27 => Constants27();
    case 28 => Constants28();
    case 29 => Constants29();
    case 30 => Constants30();
    case 31 => Constants31();
  }

  /** And every word of the initial hash is that of a square root. */
  lemma InitialWordsAreSquareRoots(t: nat)
    requires t < 8
    ensures exists p: nat, whole: nat, word: bv32 :: InitialWord(t, p, whole, word)
  {
    match t / 2
    case 0 => Initial0();
    case 1 => Initial1();
    case 2 => Initial2();
    case 3 => Initial3();
  }

  // ---------- section 4.1.2 ----------

  /** Bit `i` of a word, counted from the least significant. */
  predicate Bit(x: bv32, i: bv6)
    requires i < 32
  {
    (x >> i) & 1 == 1
  }

  lemma ChoosesBit(x: bv32, y: bv32, z: bv32, i: bv6)
    requires i < 32
    ensures Bit((x & y) ^ (!x & z), i) == if Bit(x, i) then Bit(y, i) else Bit(z, i)
  {
  }

  lemma MajorityBit(x: bv32, y: bv32, z: bv32, i: bv6)
    requires i < 32
    ensures Bit((x & y) ^ (x & z) ^ (y & z), i) == if Bit(x, i) == Bit(y, i) then Bit(x, i) else Bit(z, i)
  {
  }

  /** `Ch` chooses between `y` and `z` by the bits of `x`. */
  lemma Chooses(x: Word, y: Word, z: Word, i: bv6)
    requires i < 32
    ensures Bit(Ch(x, y, z).bits, i) == if Bit(x.bits, i) then Bit(y.bits, i) else Bit(z.bits, i)
  {
    ChoosesBit(x.bits, y.bits, z.bits, i);
  }

  /** `Maj` takes the majority. */
  lemma TakesMajority(x: Word, y: Word, z: Word, i: bv6)
    requires i < 32
    ensures Bit(Maj(x, y, z).bits, i) == if Bit(x.bits, i) == Bit(y.bits, i) then Bit(x.bits, i) else Bit(z.bits, i)
  {
    MajorityBit(x.bits, y.bits, z.bits, i);
  }

  // ---------- section 5.1.1 ----------

  /** The number that some bytes stand for, the most significant first. */
  function NumberOf(s: seq<Octet>): nat {
    if s == [] then 0 else NumberOf(s[..|s| - 1]) * 256 + s[|s| - 1].bits as nat
  }

  function Power(n: nat): nat {
    if n == 0 then 1 else 256 * Power(n - 1)
  }

  lemma NumberGrows(s: seq<Octet>, o: Octet)
    ensures NumberOf(s + [o]) == NumberOf(s) * 256 + o.bits as nat
  {
    assert (s + [o])[..|s|] == s;
  }

  lemma OctetBack(x: nat)
    ensures Octet((x % 256) as bv8).bits as nat == x % 256
  {
  }

  lemma {:induction false} BigEndianIsNumber(x: nat, n: nat)
    ensures Power(n) > 0 && NumberOf(BigEndian(x, n)) == x % Power(n)
  {
    if n > 0 {
      BigEndianIsNumber(x / 256, n - 1);
      NumberGrows(BigEndian(x / 256, n - 1), Octet((x % 256) as bv8));
      OctetBack(x);
      LowByte(x, Power(n - 1));
    }
  }

  lemma LowByte(x: nat, p: nat)
    requires p > 0
    ensures x / 256 % p * 256 + x % 256 == x % (256 * p)
  {
    var y := x / 256;
    var q, r := y / p, y % p;
    assert y == p * q + r;
    assert 256 * (p * q) == (256 * p) * q;
    Remainder(x, q, 256 * p, r * 256 + x % 256);
  }

  lemma NextMultiple(m: nat, b: nat)
    requires b > 0
    ensures m * (b - 1) + m == m * b
  {
  }

  lemma {:induction false} MultiplesAreFar(m: nat, a: nat, b: nat)
    ensures a < b ==> m * a + m <= m * b
    decreases b
  {
    if a < b {
      NextMultiple(m, b);
      if a + 1 < b {
        MultiplesAreFar(m, a, b - 1);
      }
    }
  }

  lemma Remainder(x: nat, q: nat, m: nat, r: nat)
    requires r < m && x == m * q + r
    ensures x % m == r
  {
    var d := x / m;
    assert x == m * d + x % m;
    MultiplesAreFar(m, d, q);
    MultiplesAreFar(m, q, d);
  }

  /** A padded message is the message, a one bit, fewer than 512 zero bits, and the length in bits as a 64-bit number. */
  lemma PaddedMessage(m: seq<Octet>)
    ensures var p, n := Pad(m), |m|;
            && |p| % 64 == 0 && n + 9 <= |p| < n + 73
            && p[..n] == m && p[n] == Octet(0x80) && (forall i :: n < i < |p| - 8 ==> p[i] == Octet(0))
            && NumberOf(p[|p| - 8..]) == 8 * n % Power(8)
  {
    var p, n := Pad(m), |m|;
    var z := ZeroOctets(ZeroCount(n));
    assert Padding(n) == [Octet(0x80)] + (z + BigEndian(8 * n, 8));
    assert p == (m + [Octet(0x80)]) + (z + BigEndian(8 * n, 8));
    assert p[|p| - 8..] == BigEndian(8 * n, 8);
    BigEndianIsNumber(8 * n, 8);
  }
}
