/** Loops over a file whose reads may be short: copying a range and comparing a range. */
module Files {
  import opened Bytes

  const BLOCK: nat := 4096

  /** `pread`: some bytes from `offset` on, at least one unless the end of the file is reached or nothing is asked. */
  method Pread(data: seq<byte>, size: nat, offset: nat) returns (bytes: seq<byte>)
    ensures |bytes| <= size && (|bytes| == 0 <==> size == 0 || offset >= |data|)
    ensures bytes != [] ==> offset + |bytes| <= |data| && bytes == data[offset..offset + |bytes|]
  {
    if size == 0 || offset >= |data| {
      return [];
    }
    var most := if offset + size <= |data| then size else |data| - offset;
    var n :| 1 <= n <= most;
    bytes := data[offset..offset + n];
  }

  /** `full_pread`: all the bytes asked for, or nothing when the file ends before. */
  method FullPread(data: seq<byte>, size: nat, offset: nat) returns (r: Option<seq<byte>>)
    ensures r.Some? <==> size == 0 || offset + size <= |data|
    ensures r.Some? && size > 0 ==> r.value == data[offset..offset + size]
    ensures r.Some? && size == 0 ==> r.value == []
  {
    var result: seq<byte> := [];
    while |result| < size
      invariant |result| <= size
      invariant result != [] ==> offset + |result| <= |data| && result == data[offset..offset + |result|]
    {
      var bytes := Pread(data, size - |result|, offset + |result|);
      if bytes == [] {
        return None;
      }
      result := result + bytes;
    }
    return Some(result);
  }

  /** The two files hold the same bytes in a range. */
  ghost predicate SameRange(a: seq<byte>, b: seq<byte>, from: nat, until: int) {
    until <= from || (until <= |a| && until <= |b| && a[from..until] == b[from..until])
  }

  datatype Comparison = Same | Different | PastEnd

  /** `equal_to`: blocks of the first file, each compared with as many bytes of the second. */
  method EqualTo(a: seq<byte>, b: seq<byte>, from: nat, until: int) returns (r: Comparison)
    ensures r == Same <==> SameRange(a, b, from, until)
    ensures r == PastEnd ==> until > |a|
  {
    var current: int := from;
    while current < until
      invariant from <= current
      invariant current > from ==> current <= until && SameRange(a, b, from, current)
    {
      var block := Pread(a, if until - current < BLOCK then until - current else BLOCK, current);
      var other: seq<byte> := [];
      while |other| < |block|
        invariant |other| <= |block|
        invariant other != [] ==> current + |other| <= |b| && other == b[current..current + |other|]
      {
        var bytes := Pread(b, |block| - |other|, current + |other|);
        if bytes == [] {
          break;
        }
        other := other + bytes;
      }
      if |other| != |block| {
        return Different;
      }
      if block == [] {
        return PastEnd;
      }
      if block != other {
        if SameRange(a, b, from, until) {
          SameInside(a, b, from, until, current, |block|);
        }
        return Different;
      }
      Joined(a, b, from, current, |block|);
      current := current + |block|;
    }
    return Same;
  }

  lemma SameInside(a: seq<byte>, b: seq<byte>, from: nat, until: int, at: nat, n: nat)
    requires SameRange(a, b, from, until) && from <= at && at + n <= until
    requires at + n <= |a| && at + n <= |b|
    ensures a[at..at + n] == b[at..at + n]
  {
    forall p | at <= p < at + n
      ensures a[p] == b[p]
    {
      assert a[from..until][p - from] == a[p];
      assert b[from..until][p - from] == b[p];
    }
  }

  lemma Joined(a: seq<byte>, b: seq<byte>, from: nat, at: nat, n: nat)
    requires from <= at && SameRange(a, b, from, at) && at + n <= |a| && at + n <= |b|
    requires a[at..at + n] == b[at..at + n]
    ensures SameRange(a, b, from, at + n)
  {
    assert a[from..at + n] == a[from..at] + a[at..at + n];
    assert b[from..at + n] == b[from..at] + b[at..at + n];
  }

  function Range(data: seq<byte>, start: nat, size: nat): seq<byte> {
    if start + size <= |data| then data[start..start + size] else []
  }

  lemma CopyStep(source: seq<byte>, destination: seq<byte>, start: nat, done: nat, n: nat)
    requires 0 < n && start + done + n <= |source|
    ensures Overlay(Overlay(destination, start, Range(source, start, done)), start + done, Range(source, start + done, n)) ==
            Overlay(destination, start, Range(source, start, done + n))
  {
    OverlayAdjacent(destination, start, Range(source, start, done), Range(source, start + done, n));
    assert Range(source, start, done + n) == Range(source, start, done) + Range(source, start + done, n);
  }

  ghost predicate Copied(source: seq<byte>, destination: seq<byte>, start: nat, done: nat, result: seq<byte>) {
    && (done == 0 || start + done <= |source|)
    && result == Overlay(destination, start, Range(source, start, done))
  }

  /** One block of a copy; `n` is 0 at the end of the source. */
  method CopyBlock(source: seq<byte>, ghost destination: seq<byte>, start: nat, done: nat, size: nat, current: seq<byte>)
    returns (n: nat, result: seq<byte>)
    requires done < size && Copied(source, destination, start, done, current)
    ensures n <= size - done && (n == 0 <==> start + done >= |source|)
    ensures Copied(source, destination, start, done + n, result)
  {
    var bytes := Pread(source, if size - done < BLOCK then size - done else BLOCK, start + done);
    n := |bytes|;
    if n > 0 {
      CopyStep(source, destination, start, done, n);
      assert bytes == Range(source, start + done, n);
      result := Overlay(current, start + done, bytes);
    } else {
      result := current;
    }
  }

  /** `copy_to` with a known size: a range of one file overwrites the same range of another, or the copy fails part-way. */
  method CopyTo(source: seq<byte>, destination: seq<byte>, start: nat, size: nat) returns (ok: bool, result: seq<byte>, done: nat)
    ensures ok <==> size == 0 || start + size <= |source|
    ensures done <= size && (ok ==> done == size) && Copied(source, destination, start, done, result)
  {
    result, done := destination, 0;
    while done < size
      invariant 0 <= done <= size && Copied(source, destination, start, done, result)
    {
      var n, next := CopyBlock(source, destination, start, done, size, result);
      if n == 0 {
        return false, result, done;
      }
      done, result := done + n, next;
    }
    return true, result, done;
  }
}
