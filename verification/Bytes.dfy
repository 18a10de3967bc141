/** Bytes and flat byte files: the contract of `Abstract_File`, without the operating system. */
module Bytes {
  type byte = x: int | 0 <= x < 256

  datatype Option<+T> = None | Some(value: T)

  /** `n` zero bytes. */
  function Zeros(n: nat): (z: seq<byte>)
    ensures |z| == n
  {
    seq(n, _ => 0)
  }

  /** What a flat file holds after `pwrite(bytes, offset)`: a write past the end fills the gap with zeros. */
  function Overlay(data: seq<byte>, offset: nat, bytes: seq<byte>): (r: seq<byte>)
    ensures |r| == if bytes != [] && offset + |bytes| > |data| then offset + |bytes| else |data|
    ensures forall p :: 0 <= p < offset && p < |data| ==> r[p] == data[p]
  {
    if bytes == [] then data
    else
      var size := if offset + |bytes| > |data| then offset + |bytes| else |data|;
      seq(size, p requires 0 <= p < size => OverlaidByte(data, offset, bytes, p))
  }

  /** Exactly the written range changes, and it changes to the written bytes. */
  function OverlaidByte(data: seq<byte>, offset: nat, bytes: seq<byte>, p: nat): byte {
    if offset <= p < offset + |bytes| then bytes[p - offset]
    else if p < |data| then data[p]
    else 0
  }

  /** A byte after two adjacent writes is that after the one. */
  lemma AdjacentByte(data: seq<byte>, offset: nat, a: seq<byte>, b: seq<byte>, p: nat)
    requires a != [] && b != []
    ensures OverlaidByte(Overlay(data, offset, a), offset + |a|, b, p) == OverlaidByte(data, offset, a + b, p)
  {
    if offset <= p < offset + |a| {
      assert (a + b)[p - offset] == a[p - offset];
    } else if offset + |a| <= p < offset + |a| + |b| {
      assert (a + b)[p - offset] == b[p - offset - |a|];
    }
  }

  /** Two adjacent writes are one write. */
  lemma OverlayAdjacent(data: seq<byte>, offset: nat, a: seq<byte>, b: seq<byte>)
    ensures Overlay(Overlay(data, offset, a), offset + |a|, b) == Overlay(data, offset, a + b)
  {
    if a == [] {
      assert a + b == b;
    } else if b == [] {
      assert a + b == a;
    } else {
      var l, r := Overlay(Overlay(data, offset, a), offset + |a|, b), Overlay(data, offset, a + b);
      forall p | 0 <= p < |l| ensures l[p] == r[p] {
        AdjacentByte(data, offset, a, b, p);
      }
    }
  }

  lemma PrefixOfSlice<T>(s: seq<T>, p: nat, i: nat)
    requires p + i < |s|
    ensures s[p..p + i + 1][..i] == s[p..p + i]
  {
  }

  lemma SliceOfTail<T>(s: seq<T>, p: nat, a: nat, b: nat)
    requires a <= b && p + b <= |s|
    ensures s[p..][a..b] == s[p + a..p + b]
  {
  }

  /** A chain of sequences, each a prefix of the next, grows from any one to any later one. */
  lemma {:induction false} PrefixChain<T>(chain: seq<seq<T>>, i: nat, j: nat)
    requires i <= j < |chain|
    requires forall k :: 0 < k < |chain| ==> chain[k - 1] <= chain[k]
    ensures chain[i] <= chain[j]
  {
    if i < j {
      PrefixChain(chain, i, j - 1);
    }
  }
}
