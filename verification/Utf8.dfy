/** Well-formed UTF-8, as the grammar of section 4 of RFC 3629 has it. */
module Utf8 {
  import opened Bytes

  predicate Tail(b: byte) { 0x80 <= b <= 0xbf }

  /** The productions UTF8-1 to UTF8-4. */
  predicate IsChar(c: seq<byte>) {
    || (|c| == 1 && c[0] <= 0x7f)
    || (|c| == 2 && 0xc2 <= c[0] <= 0xdf && Tail(c[1]))
    || (|c| == 3 && Tail(c[2]) &&
        (|| (c[0] == 0xe0 && 0xa0 <= c[1] <= 0xbf)
         || (0xe1 <= c[0] <= 0xec && Tail(c[1]))
         || (c[0] == 0xed && 0x80 <= c[1] <= 0x9f)
         || (0xee <= c[0] <= 0xef && Tail(c[1]))))
    || (|c| == 4 && Tail(c[2]) && Tail(c[3]) &&
        (|| (c[0] == 0xf0 && 0x90 <= c[1] <= 0xbf)
         || (0xf1 <= c[0] <= 0xf3 && Tail(c[1]))
         || (c[0] == 0xf4 && 0x80 <= c[1] <= 0x8f)))
  }

  /** Some way to cut the string into characters exists. */
  ghost predicate WellFormed(s: seq<byte>) {
    s == [] || exists n: nat :: StartsWithChar(s, n) && WellFormed(s[n..])
  }

  predicate StartsWithChar(s: seq<byte>, n: nat) {
    0 < n <= |s| && IsChar(s[..n])
  }

  lemma {:induction false} WellFormedAppend(a: seq<byte>, b: seq<byte>)
    requires WellFormed(a) && WellFormed(b)
    ensures WellFormed(a + b)
    decreases |a|
  {
    if a == [] {
      assert a + b == b;
    } else {
      var n: nat :| StartsWithChar(a, n) && WellFormed(a[n..]);
      WellFormedAppend(a[n..], b);
      CharThenMore(a, b, n);
    }
  }

  lemma CharThenMore(a: seq<byte>, b: seq<byte>, n: nat)
    requires StartsWithChar(a, n)
    ensures StartsWithChar(a + b, n) && (a + b)[n..] == a[n..] + b
  {
    assert (a + b)[..n] == a[..n];
  }

  lemma CharIsWellFormed(c: seq<byte>)
    requires IsChar(c)
    ensures WellFormed(c)
  {
    assert c[..|c|] == c && c[|c|..] == [];
    assert StartsWithChar(c, |c|);
  }

  lemma {:induction false} AsciiIsWellFormed(s: seq<byte>)
    requires forall i :: 0 <= i < |s| ==> s[i] <= 0x7f
    ensures WellFormed(s)
  {
    if s != [] {
      AsciiIsWellFormed(s[1..]);
      assert StartsWithChar(s, 1);
    }
  }

  /** At most one character starts a string. */
  lemma OneChar(s: seq<byte>, m: nat, n: nat)
    requires StartsWithChar(s, m) && StartsWithChar(s, n)
    ensures m == n
  {
    assert s[..m][0] == s[0] == s[..n][0];
  }
}
