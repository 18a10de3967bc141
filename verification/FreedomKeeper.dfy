/**
 The record allocator: which record ids are in use, and in which order they were taken. It starts
 in a dense form, where ids 0 to n - 1 are in use, and turns into linked lists when they are not.
 */
module FreedomKeeper {
  import opened Bytes
  import opened Rings

  const USED: int := -2
  const FREE: int := -1

  /** What the allocator means: ids below `size` exist, and `used` lists those in use, oldest first. */
  datatype Keeper = Keeper(size: nat, used: seq<int>)

  /** The position of a member; lists of ids have no repetition, so it is the only one. */
  ghost function IndexOf(list: seq<int>, x: int): (k: nat)
    requires x in list
    ensures k < |list| && list[k] == x
  {
    var k :| 0 <= k < |list| && list[k] == x;
    k
  }

  ghost function Removed(list: seq<int>, x: int): seq<int> {
    if x in list then Without(list, IndexOf(list, x)) else list
  }

  ghost predicate AllFree(used: seq<int>, x: int, n: nat) {
    forall y :: x <= y < x + n ==> y !in used
  }

  ghost predicate AllUsed(used: seq<int>, x: int, n: nat) {
    forall y :: x <= y < x + n ==> y in used
  }

  ghost predicate NoneFree(k: Keeper) {
    forall x :: 0 <= x < k.size ==> x in k.used
  }

  /** Asking for a free id makes a new one only if there is none. */
  ghost function GotFree(k: Keeper): Keeper {
    if NoneFree(k) then k.(size := k.size + 1) else k
  }

  function UsedOne(k: Keeper, x: int): Keeper {
    k.(used := k.used + [x])
  }

  ghost function FreedOne(k: Keeper, x: int): Keeper {
    k.(used := Removed(k.used, x))
  }

  /** The list followed by x, x + 1, ..., x + n - 1. */
  function AppendedMany(list: seq<int>, x: int, n: nat): seq<int> {
    if n == 0 then list else AppendedMany(list, x, n - 1) + [x + n - 1]
  }

  ghost function RemovedMany(list: seq<int>, x: int, n: nat): seq<int> {
    if n == 0 then list else Removed(RemovedMany(list, x, n - 1), x + n - 1)
  }

  function UsedMany(k: Keeper, x: int, n: nat): Keeper {
    k.(used := AppendedMany(k.used, x, n))
  }

  ghost function FreedMany(k: Keeper, x: int, n: nat): Keeper {
    k.(used := RemovedMany(k.used, x, n))
  }

  /** The walk of a list: what follows `x` going forwards, starting and ending at the list head. */
  ghost function After(head: int, list: seq<int>, x: int): int {
    if x == head then (if list == [] then head else list[0])
    else if x in list then
      var i := IndexOf(list, x);
      if i + 1 == |list| then head else list[i + 1]
    else x
  }

  ghost function Before(head: int, list: seq<int>, x: int): int {
    if x == head then (if list == [] then head else list[|list| - 1])
    else if x in list then
      var i := IndexOf(list, x);
      if i == 0 then head else list[i - 1]
    else x
  }

  lemma IndexOfAt(list: seq<int>, i: nat)
    requires Distinct(list) && i < |list|
    ensures IndexOf(list, list[i]) == i
  {
    var k := IndexOf(list, list[i]);
    assert list[k] == list[i];
  }

  // ---------- two rings over all ids ----------

  ghost predicate Flagged(isFree: seq<bool>, size: nat, list: seq<int>, flag: bool)
    requires |isFree| == size + 2
  {
    forall i :: 0 <= i < |list| ==> 0 <= list[i] < size && isFree[list[i] + 2] == flag
  }

  lemma NoIds(isFree: seq<bool>, size: nat, list: seq<int>, flag: bool)
    requires |isFree| == size + 2 && Flagged(isFree, size, list, flag)
    ensures size == 0 ==> list == []
  {
    if list != [] {
      assert 0 <= list[0] < size;
    }
  }

  /** Two disjoint rings that cover all ids, with flags to match. */
  ghost predicate TwoRings(isFree: seq<bool>, l: Links, size: nat, used: seq<int>, free: seq<int>) {
    && |l.next| == |l.prev| == |isFree| == size + 2
    && Ring(l, USED, used) && Ring(l, FREE, free)
    && Flagged(isFree, size, used, false) && Flagged(isFree, size, free, true)
    && (forall x :: 0 <= x < size ==> if isFree[x + 2] then x in free else x in used)
  }

  lemma Disjoint(isFree: seq<bool>, size: nat, used: seq<int>, free: seq<int>)
    requires |isFree| == size + 2 && Flagged(isFree, size, used, false) && Flagged(isFree, size, free, true)
    ensures forall x :: InRing(USED, used, x) ==> !InRing(FREE, free, x)
  {
  }

  function Grown(l: Links): Links {
    Links(l.next + [0], l.prev + [0])
  }

  lemma PushBackRings(isFree: seq<bool>, l: Links, size: nat, used: seq<int>, free: seq<int>)
    requires TwoRings(isFree, l, size, used, free)
    ensures IsNode(Grown(l), FREE) && IsNode(Grown(l), size) && IsNode(Grown(l), Next(Grown(l), FREE))
    ensures TwoRings(isFree + [true], LinkAfter(Grown(l), FREE, size), size + 1, used, [size] + free)
  {
    var l1 := Grown(l);
    RingElsewhere(l, l1, USED, used);
    RingElsewhere(l, l1, FREE, free);
    Neighbours(l1, FREE, free, FREE);
    InsertRing(l1, FREE, free, 0, size);
    assert Inserted(free, 0, size) == [size] + free;
    Disjoint(isFree, size, used, free);
    RingElsewhere(l1, LinkAfter(l1, FREE, size), USED, used);
    PushBackFlags(isFree, size, used, free);
  }

  lemma PushBackFlags(isFree: seq<bool>, size: nat, used: seq<int>, free: seq<int>)
    requires |isFree| == size + 2 && Flagged(isFree, size, used, false) && Flagged(isFree, size, free, true)
    requires forall x :: 0 <= x < size ==> if isFree[x + 2] then x in free else x in used
    ensures var f := isFree + [true];
            && Flagged(f, size + 1, used, false) && Flagged(f, size + 1, [size] + free, true)
            && (forall x :: 0 <= x < size + 1 ==> if f[x + 2] then x in [size] + free else x in used)
  {
  }

  lemma RemovedMembers(list: seq<int>, x: int)
    requires Distinct(list)
    ensures forall y :: y in Removed(list, x) <==> y in list && y != x
    ensures Distinct(Removed(list, x))
  {
    if x in list {
      WithoutMembers(list, IndexOf(list, x));
    }
  }

  lemma WithoutMembers(list: seq<int>, k: nat)
    requires Distinct(list) && k < |list|
    ensures forall y :: y in Without(list, k) <==> y in list && y != list[k]
    ensures Distinct(Without(list, k))
  {
    var r := Without(list, k);
    assert forall i :: 0 <= i < |r| ==> r[i] == list[if i < k then i else i + 1];
    forall y | y in list && y != list[k]
      ensures y in r
    {
      var i :| 0 <= i < |list| && list[i] == y;
      assert r[if i < k then i else i - 1] == y;
    }
  }

  /** Moving an id from one ring to the other. */
  lemma MoveFlags(isFree: seq<bool>, size: nat, used: seq<int>, free: seq<int>, x: int, used': seq<int>, free': seq<int>)
    requires |isFree| == size + 2 && Flagged(isFree, size, used, false) && Flagged(isFree, size, free, true)
    requires forall y :: 0 <= y < size ==> if isFree[y + 2] then y in free else y in used
    requires 0 <= x < size
    requires forall y :: y != x ==> (y in used' <==> y in used) && (y in free' <==> y in free)
    requires (x in used') != (x in free')
    ensures var f := isFree[x + 2 := x in free'];
            && Flagged(f, size, used', false) && Flagged(f, size, free', true)
            && (forall y :: 0 <= y < size ==> if f[y + 2] then y in free' else y in used')
  {
    forall i | 0 <= i < |used'|
      ensures used'[i] != x ==> used'[i] in used
    {
      assert used'[i] in used';
    }
    forall i | 0 <= i < |free'|
      ensures free'[i] != x ==> free'[i] in free
    {
      assert free'[i] in free';
    }
  }

  lemma UseRings(isFree: seq<bool>, l: Links, size: nat, used: seq<int>, free: seq<int>, x: int)
    requires TwoRings(isFree, l, size, used, free) && 0 <= x < size && isFree[x + 2]
    ensures IsNode(l, x) && IsNode(l, Next(l, x)) && IsNode(l, Prev(l, x))
    ensures var l1 := Unlink(l, x);
            && IsNode(l1, Prev(l1, USED)) && Next(l1, Prev(l1, USED)) == USED
            && TwoRings(isFree[x + 2 := false], LinkAfter(l1, Prev(l1, USED), x), size, used + [x], Removed(free, x))
  {
    Disjoint(isFree, size, used, free);
    var k := IndexOf(free, x);
    Neighbours(l, FREE, free, x);
    var l1 := Unlink(l, x);
    UnlinkRing(l, FREE, free, k);
    RingElsewhere(l, l1, USED, used);
    MoveLast(l1, used, Removed(free, x), x);
    RemovedMembers(free, x);
    assert forall y :: y in used + [x] <==> y in used || y == x;
    MoveFlags(isFree, size, used, free, x, used + [x], Removed(free, x));
  }

  lemma MoveLast(l1: Links, used: seq<int>, free: seq<int>, x: int)
    requires Ring(l1, USED, used) && Ring(l1, FREE, free) && IsNode(l1, x) && x >= 0 && x !in used && x !in free
    requires forall y :: InRing(USED, used, y) ==> !InRing(FREE, free, y)
    ensures IsNode(l1, Prev(l1, USED)) && Next(l1, Prev(l1, USED)) == USED
    ensures var l2 := LinkAfter(l1, Prev(l1, USED), x); Ring(l2, USED, used + [x]) && Ring(l2, FREE, free)
  {
    Neighbours(l1, USED, used, USED);
    assert Linked(l1, Node(USED, used, |used|), Node(USED, used, |used| + 1));
    InsertRing(l1, USED, used, |used|, x);
    assert Inserted(used, |used|, x) == used + [x];
    RingElsewhere(l1, LinkAfter(l1, Prev(l1, USED), x), FREE, free);
  }

  lemma FreeRings(isFree: seq<bool>, l: Links, size: nat, used: seq<int>, free: seq<int>, x: int)
    requires TwoRings(isFree, l, size, used, free) && 0 <= x < size && !isFree[x + 2]
    ensures IsNode(l, x) && IsNode(l, Next(l, x)) && IsNode(l, Prev(l, x))
    ensures var l1 := Unlink(l, x);
            && IsNode(l1, Next(l1, FREE))
            && TwoRings(isFree[x + 2 := true], LinkAfter(l1, FREE, x), size, Removed(used, x), [x] + free)
  {
    Disjoint(isFree, size, used, free);
    var k := IndexOf(used, x);
    Neighbours(l, USED, used, x);
    var l1 := Unlink(l, x);
    UnlinkRing(l, USED, used, k);
    RingElsewhere(l, l1, FREE, free);
    RemovedMembers(used, x);
    MoveFirst(l1, Removed(used, x), free, x);
    assert forall y :: y in [x] + free <==> y in free || y == x;
    MoveFlags(isFree, size, used, free, x, Removed(used, x), [x] + free);
  }

  lemma MoveFirst(l1: Links, used: seq<int>, free: seq<int>, x: int)
    requires Ring(l1, USED, used) && Ring(l1, FREE, free) && IsNode(l1, x) && x >= 0 && x !in used && x !in free
    requires forall y :: InRing(USED, used, y) ==> !InRing(FREE, free, y)
    ensures IsNode(l1, Next(l1, FREE))
    ensures var l2 := LinkAfter(l1, FREE, x); Ring(l2, USED, used) && Ring(l2, FREE, [x] + free)
  {
    Neighbours(l1, FREE, free, FREE);
    InsertRing(l1, FREE, free, 0, x);
    assert Inserted(free, 0, x) == [x] + free;
    RingElsewhere(l1, LinkAfter(l1, FREE, x), USED, used);
  }

  // ---------- the linked form ----------

  class ListKeeper {
    var isFree: seq<bool>
    var next: seq<int>
    var prev: seq<int>
    var size: nat
    var usedCount: nat
    ghost var used: seq<int>
    ghost var free: seq<int>

    ghost predicate Valid()
      reads this
    {
      TwoRings(isFree, Links(next, prev), size, used, free) && usedCount == |used|
    }

    ghost function Model(): Keeper
      reads this
    {
      Keeper(size, used)
    }

    constructor ()
      ensures Valid() && Model() == Keeper(0, []) && free == []
    {
      isFree, next, prev := [false, true], [USED, FREE], [USED, FREE];
      size, usedCount := 0, 0;
      used, free := [], [];
    }

    predicate IsUsed(x: int)
      requires |isFree| == size + 2
      reads this
    {
      0 <= x < size && !isFree[x + 2]
    }

    function GetNext(x: int): int
      requires |next| == size + 2 && -2 <= x < size
      reads this
    {
      next[x + 2]
    }

    function GetPrevious(x: int): int
      requires |prev| == size + 2 && -2 <= x < size
      reads this
    {
      prev[x + 2]
    }

    method PushBack() returns (index: int)
      requires Valid()
      modifies this
      ensures Valid() && index == old(size) && size == old(size) + 1
      ensures used == old(used) && free == [index] + old(free)
    {
      PushBackRings(isFree, Links(next, prev), size, used, free);
      ghost var l := Grown(Links(next, prev));
      index := size;
      size := size + 1;
      isFree, next, prev := isFree + [true], next + [0], prev + [0];
      next := next[index + 2 := next[FREE + 2]];
      prev := prev[index + 2 := FREE];
      prev := prev[next[FREE + 2] + 2 := index];
      next := next[FREE + 2 := index];
      assert Links(next, prev) == LinkAfter(l, FREE, index);
      free := [index] + free;
    }

    method Use(index: int)
      requires Valid() && 0 <= index < size && index !in used
      modifies this
      ensures Valid() && size == old(size)
      ensures used == old(used) + [index] && free == Removed(old(free), index)
    {
      UseRings(isFree, Links(next, prev), size, used, free, index);
      ghost var l := Links(next, prev);
      isFree := isFree[index + 2 := false];
      next := next[prev[index + 2] + 2 := next[index + 2]];
      prev := prev[next[index + 2] + 2 := prev[index + 2]];
      ghost var l1 := Links(next, prev);
      assert l1 == Unlink(l, index);
      prev := prev[index + 2 := prev[USED + 2]];
      next := next[index + 2 := USED];
      next := next[prev[index + 2] + 2 := index];
      prev := prev[USED + 2 := index];
      assert Links(next, prev) == LinkAfter(l1, Prev(l1, USED), index);
      used, free := used + [index], Removed(free, index);
      usedCount := usedCount + 1;
    }

    method Free(index: int)
      requires Valid() && index in used
      modifies this
      ensures Valid() && size == old(size)
      ensures used == Removed(old(used), index) && free == [index] + old(free)
    {
      FreeRings(isFree, Links(next, prev), size, used, free, index);
      ghost var l := Links(next, prev);
      isFree := isFree[index + 2 := true];
      next := next[prev[index + 2] + 2 := next[index + 2]];
      prev := prev[next[index + 2] + 2 := prev[index + 2]];
      ghost var l1 := Links(next, prev);
      assert l1 == Unlink(l, index);
      next := next[index + 2 := next[FREE + 2]];
      prev := prev[index + 2 := FREE];
      prev := prev[next[FREE + 2] + 2 := index];
      next := next[FREE + 2 := index];
      assert Links(next, prev) == LinkAfter(l1, FREE, index);
      used, free := Removed(used, index), [index] + free;
      usedCount := usedCount - 1;
    }

    method Resize(newSize: int)
      requires Valid()
      modifies this
      ensures Valid() && size == (if newSize > old(size) then newSize else old(size)) && used == old(used)
    {
      while size < newSize
        invariant Valid() && old(size) <= size && (size > old(size) ==> size <= newSize) && used == old(used)
      {
        var index := PushBack();
      }
    }

    method UseVector(index: int, n: nat)
      requires Valid() && 0 <= index && index + n <= size && AllFree(used, index, n)
      modifies this
      ensures Valid() && Model() == UsedMany(old(Model()), index, n)
    {
      var i := 0;
      while i < n
        invariant 0 <= i <= n && Valid() && size == old(size)
        invariant Model() == UsedMany(old(Model()), index, i)
        invariant forall x :: index + i <= x < index + n ==> x !in used
      {
        Use(index + i);
        i := i + 1;
      }
    }

    method FreeVector(index: int, n: nat)
      requires Valid() && AllUsed(used, index, n)
      modifies this
      ensures Valid() && Model() == FreedMany(old(Model()), index, n)
    {
      var i := 0;
      while i < n
        invariant 0 <= i <= n && Valid() && size == old(size)
        invariant Model() == FreedMany(old(Model()), index, i)
        invariant forall x :: index + i <= x < index + n ==> x in used
      {
        RemovedMembers(used, index + i);
        Free(index + i);
        i := i + 1;
      }
    }

    method GetFreeRecord() returns (result: int)
      requires Valid()
      modifies this
      ensures Valid() && used == old(used) && 0 <= result < size && result !in used
      ensures free == (if old(free) == [] then [old(size)] else old(free)) && result == free[0]
      ensures size == old(size) + if old(free) == [] then 1 else 0
    {
      WalkVisitsAll(Links(next, prev), FREE, free, 1);
      result := next[FREE + 2];
      if result == FREE {
        var index := PushBack();
        WalkVisitsAll(Links(next, prev), FREE, free, 1);
        result := next[FREE + 2];
      }
      Disjoint(isFree, size, used, free);
      assert result == free[0];
    }

    /** Whether `n` ids from `index` on are free; ids not allocated yet count as free. */
    method IsFreeVector(index: int, n: nat) returns (r: bool)
      requires Valid()
      ensures r <==> index >= 0 && AllFree(used, index, n)
    {
      if index < 0 {
        return false;
      }
      var i := 0;
      while i < n
        invariant 0 <= i <= n && forall x :: index <= x < index + i ==> x !in used
      {
        Disjoint(isFree, size, used, free);
        if index + i >= size {
          return true;
        }
        if !isFree[index + i + 2] {
          assert index + i in used;
          return false;
        }
        assert index + i in free;
        i := i + 1;
      }
      return true;
    }

    method IsUsedVector(index: int, n: nat) returns (r: bool)
      requires Valid()
      ensures r <==> 0 <= index <= size && AllUsed(used, index, n)
    {
      Disjoint(isFree, size, used, free);
      if index < 0 || index > size {
        return false;
      }
      if n > size - index {
        assert size !in used;
        return false;
      }
      var i := 0;
      while i < n
        invariant 0 <= i <= n && forall x :: index <= x < index + i ==> x in used
      {
        if isFree[index + i + 2] {
          assert index + i in free && index + i !in used;
          return false;
        }
        assert index + i in used;
        i := i + 1;
      }
      return true;
    }
  }

  // ---------- the hybrid ----------

  /** 0, 1, ..., n - 1. */
  function Iota(n: nat): (s: seq<int>)
    ensures |s| == n && forall i :: 0 <= i < n ==> s[i] == i
  {
    seq(n, i => i)
  }

  lemma IotaMembers(n: nat)
    ensures forall x :: x in Iota(n) <==> 0 <= x < n
    ensures Distinct(Iota(n))
  {
    forall x: int | 0 <= x < n
      ensures x in Iota(n)
    {
      assert Iota(n)[x] == x;
    }
  }

  lemma IotaUse(u: nat, n: nat)
    ensures AppendedMany(Iota(u), u, n) == Iota(u + n)
  {
    if n > 0 {
      IotaUse(u, n - 1);
      assert Iota(u + n - 1) + [u + n - 1] == Iota(u + n);
    } else {
      assert Iota(u + 0) == Iota(u);
    }
  }

  lemma IotaFreeLast(u: nat)
    ensures Removed(Iota(u + 1), u) == Iota(u)
  {
    IotaMembers(u + 1);
    IndexOfAt(Iota(u + 1), u);
    assert Without(Iota(u + 1), u) == Iota(u);
  }

  /** Ids lo to hi - 1. */
  function Range(lo: nat, hi: nat): (s: seq<int>)
    requires lo <= hi
    ensures |s| == hi - lo && forall i :: 0 <= i < hi - lo ==> s[i] == lo + i
  {
    seq(hi - lo, i => lo + i)
  }

  /** Ids hi - 1 down to lo. */
  function Down(lo: nat, hi: nat): (s: seq<int>)
    requires lo <= hi
    ensures |s| == hi - lo && forall i :: 0 <= i < hi - lo ==> s[i] == hi - 1 - i
  {
    seq(hi - lo, i => hi - 1 - i)
  }

  lemma DownLosesLast(lo: nat, hi: nat)
    requires lo < hi
    ensures Removed(Down(lo, hi), lo) == Down(lo + 1, hi)
  {
    var list := Down(lo, hi);
    assert list[hi - 1 - lo] == lo;
    IndexOfAt(list, hi - 1 - lo);
    assert Without(list, hi - 1 - lo) == Down(lo + 1, hi);
  }

  lemma RangeLosesFirst(lo: nat, hi: nat)
    requires lo < hi
    ensures Removed(Range(lo, hi), lo) == Range(lo + 1, hi)
  {
    var list := Range(lo, hi);
    assert list[0] == lo;
    IndexOfAt(list, 0);
    assert Without(list, 0) == Range(lo + 1, hi);
  }

  lemma RangeMembers(lo: nat, hi: nat)
    requires lo <= hi
    ensures Distinct(Range(lo, hi)) && forall x :: x in Range(lo, hi) <==> lo <= x < hi
  {
    forall x: int | lo <= x < hi
      ensures x in Range(lo, hi)
    {
      assert Range(lo, hi)[x - lo] == x;
    }
  }

  /** What is left of 0 to hi - 1 without lo to mid - 1. */
  function Gap(lo: nat, mid: nat, hi: nat): seq<int>
    requires lo <= mid <= hi
  {
    Iota(lo) + Range(mid, hi)
  }

  lemma GapGrows(lo: nat, mid: nat, hi: nat)
    requires lo <= mid < hi
    ensures Removed(Gap(lo, mid, hi), mid) == Gap(lo, mid + 1, hi)
  {
    var list := Gap(lo, mid, hi);
    assert list[lo] == mid;
    IndexOfAt(list, lo);
    assert list[..lo] == Iota(lo);
    assert list[lo + 1..] == Range(mid + 1, hi);
  }

  lemma GapOpens(lo: nat, hi: nat)
    requires lo <= hi
    ensures Gap(lo, lo, hi) == Iota(hi) && Gap(lo, hi, hi) == Iota(lo)
  {
  }

  lemma {:induction false} IotaFreeMany(lo: nat, hi: nat, n: nat)
    requires lo + n <= hi
    ensures RemovedMany(Iota(hi), lo, n) == Gap(lo, lo + n, hi)
  {
    if n == 0 {
      GapOpens(lo, hi);
    } else {
      IotaFreeMany(lo, hi, n - 1);
      GapGrows(lo, lo + n - 1, hi);
    }
  }

  class HybridKeeper {
    const lists: ListKeeper
    var usedSize: nat
    var freeSize: nat
    var dense: bool

    ghost predicate Valid()
      reads this, lists
    {
      && lists.Valid()
      && (dense ==> usedSize <= freeSize && lists.Model() == Keeper(0, []))
    }

    ghost function Model(): Keeper
      reads this, lists
    {
      if dense then Keeper(freeSize, Iota(usedSize)) else lists.Model()
    }

    constructor ()
      ensures Valid() && fresh(lists) && Model() == Keeper(0, []) && dense
    {
      lists := new ListKeeper();
      usedSize, freeSize, dense := 0, 0, true;
      new;
      assert Iota(0) == [];
    }

    function GetUsedCount(): nat
      reads this, lists
    {
      if dense then usedSize else lists.usedCount
    }

    function GetSize(): nat
      reads this, lists
    {
      if dense then freeSize else lists.size
    }

    predicate IsUsed(x: int)
      requires Valid()
      reads this, lists
    {
      if dense then 0 <= x < usedSize else lists.IsUsed(x)
    }

    function DenseNext(x: int): int
      reads this
    {
      if x == USED then (if usedSize == 0 then USED else 0)
      else if x == FREE then (if usedSize == freeSize then FREE else usedSize)
      else if x + 1 == usedSize then USED
      else if x + 1 == freeSize then FREE
      else x + 1
    }

    function DensePrevious(x: int): int
      reads this
    {
      if x == USED then (if usedSize == 0 then USED else usedSize - 1)
      else if x == FREE then (if usedSize == freeSize then FREE else freeSize - 1)
      else if x - 1 == usedSize - 1 then FREE
      else if x - 1 == -1 then USED
      else x - 1
    }

    function GetNext(x: int): int
      requires Valid() && -2 <= x < GetSize()
      reads this, lists
    {
      if dense then DenseNext(x) else lists.GetNext(x)
    }

    function GetPrevious(x: int): int
      requires Valid() && -2 <= x < GetSize()
      reads this, lists
    {
      if dense then DensePrevious(x) else lists.GetPrevious(x)
    }

    /** In either form, size, count, membership and both walks are those of the model. */
    lemma QueriesAnswerForModel(x: int)
      requires Valid()
      ensures GetSize() == Model().size && GetUsedCount() == |Model().used|
      ensures IsUsed(x) <==> x in Model().used
      ensures (x == USED || x in Model().used) ==>
                && -2 <= x < GetSize()
                && GetNext(x) == After(USED, Model().used, x) && GetPrevious(x) == Before(USED, Model().used, x)
    {
      if dense {
        IotaMembers(usedSize);
        if x in Model().used {
          IndexOfAt(Iota(usedSize), x);
        }
      } else {
        ListQueries(lists, x);
      }
    }

    /** The free ids, in the order in which they would be taken. */
    ghost function FreeList(): seq<int>
      requires Valid()
      reads this, lists
    {
      if dense then Range(usedSize, freeSize) else lists.free
    }

    /** The free list has each id that is not in use once; its walks are those of the allocator. */
    lemma QueriesAnswerForFree(x: int)
      requires Valid()
      ensures Distinct(FreeList()) && (x in FreeList() <==> 0 <= x < Model().size && x !in Model().used)
      ensures (x == FREE || x in FreeList()) ==>
                && -2 <= x < GetSize()
                && GetNext(x) == After(FREE, FreeList(), x) && GetPrevious(x) == Before(FREE, FreeList(), x)
    {
      if dense {
        IotaMembers(usedSize);
        RangeMembers(usedSize, freeSize);
        if x in FreeList() {
          IndexOfAt(Range(usedSize, freeSize), x - usedSize);
        }
      } else {
        FreeQueries(lists, x);
      }
    }

    /** Used ids exist, and none is listed twice. */
    lemma ModelIsSound()
      requires Valid()
      ensures Distinct(Model().used) && forall x <- Model().used :: 0 <= x < Model().size
    {
      if dense {
        IotaMembers(usedSize);
      }
    }

    /** Following `get_next` from a list head `n` times; and `get_previous`. */
    ghost function StepsForward(head: int, n: nat): int
      requires Valid()
      reads this, lists
    {
      if n == 0 then head
      else
        var x := StepsForward(head, n - 1);
        if -2 <= x < GetSize() then GetNext(x) else x
    }

    ghost function StepsBackward(head: int, n: nat): int
      requires Valid()
      reads this, lists
    {
      if n == 0 then head
      else
        var x := StepsBackward(head, n - 1);
        if -2 <= x < GetSize() then GetPrevious(x) else x
    }

    /** Dense or not, both walks visit the used ids in order, forwards and backwards, and return to the head. */
    lemma {:induction false} StepsVisitUsed(n: nat)
      requires Valid() && n <= |Model().used| + 1
      ensures StepsForward(USED, n) == Node(USED, Model().used, n)
      ensures StepsBackward(USED, n) == Node(USED, Model().used, |Model().used| + 1 - n)
    {
      var used := Model().used;
      ModelIsSound();
      if n > 0 {
        StepsVisitUsed(n - 1);
        var x, y := StepsForward(USED, n - 1), StepsBackward(USED, n - 1);
        QueriesAnswerForModel(x);
        QueriesAnswerForModel(y);
        if n > 1 {
          IndexOfAt(used, n - 2);
          IndexOfAt(used, |used| + 1 - n);
        }
      }
    }

    /** And they visit the free ids in the order in which they would be taken, starting with the one that is next. */
    lemma {:induction false} StepsVisitFree(n: nat)
      requires Valid() && n <= |FreeList()| + 1
      ensures StepsForward(FREE, n) == Node(FREE, FreeList(), n)
      ensures StepsBackward(FREE, n) == Node(FREE, FreeList(), |FreeList()| + 1 - n)
    {
      var free := FreeList();
      QueriesAnswerForFree(FREE);
      if n > 0 {
        StepsVisitFree(n - 1);
        var x, y := StepsForward(FREE, n - 1), StepsBackward(FREE, n - 1);
        QueriesAnswerForFree(x);
        QueriesAnswerForFree(y);
        if n > 1 {
          IndexOfAt(free, n - 2);
          IndexOfAt(free, |free| + 1 - n);
        }
      }
    }

    /** The same ids are free, in the opposite order once the form has changed. */
    twostate function FreeBefore(): seq<int>
      requires old(Valid())
      reads this, lists
    {
      if old(dense) && !dense then Down(old(usedSize), old(freeSize)) else old(FreeList())
    }

    /** Switching to the linked form changes nothing but the order of the free list, which is reversed. */
    method LoseCompactness()
      requires Valid() && dense
      modifies this, lists
      ensures Valid() && !dense && Model() == old(Model()) && FreeList() == Down(old(usedSize), old(freeSize))
    {
      NoIds(lists.isFree, lists.size, lists.free, true);
      while lists.size < freeSize
        modifies lists
        invariant lists.Valid() && lists.size <= freeSize && lists.used == [] && lists.free == Down(0, lists.size)
      {
        var index := lists.PushBack();
        assert lists.free == Down(0, index + 1);
      }
      var i := 0;
      assert Iota(0) == [];
      while i < usedSize
        modifies lists
        invariant 0 <= i <= usedSize && lists.Valid() && lists.size == freeSize && lists.used == Iota(i)
        invariant lists.free == Down(i, freeSize)
      {
        IotaMembers(i);
        DownLosesLast(i, freeSize);
        lists.Use(i);
        assert Iota(i) + [i] == Iota(i + 1);
        i := i + 1;
      }
      dense := false;
    }

    method PushBack() returns (index: int)
      requires Valid()
      modifies this, lists
      ensures Valid() && index == old(Model()).size && Model() == old(Model()).(size := index + 1)
      ensures dense == old(dense)
      ensures FreeList() == if dense then old(FreeList()) + [index] else [index] + old(FreeList())
    {
      if dense {
        freeSize := freeSize + 1;
        index := freeSize - 1;
      } else {
        index := lists.PushBack();
      }
    }

    method Resize(newSize: int)
      requires Valid()
      modifies this, lists
      ensures Valid() && Model().used == old(Model()).used
      ensures Model().size == (if newSize > old(Model()).size then newSize else old(Model()).size) && dense == old(dense)
    {
      if dense {
        if freeSize < newSize {
          freeSize := newSize;
        }
      } else {
        lists.Resize(newSize);
      }
    }

    /** The id that a new record gets: the first free one; the table grows, by one, if and only if there is none. */
    method GetFreeRecord() returns (result: int)
      requires Valid()
      modifies this, lists
      ensures Valid() && Model() == GotFree(old(Model())) && dense == old(dense)
      ensures FreeList() == if old(FreeList()) == [] then [old(Model()).size] else old(FreeList())
      ensures result == FreeList()[0] == GetNext(FREE)
      ensures result == if dense then usedSize else lists.free[0]
      ensures 0 <= result < Model().size && result !in Model().used
    {
      AllUsedWhenNoneFree();
      if dense {
        if freeSize == usedSize {
          freeSize := freeSize + 1;
        }
        result := usedSize;
      } else {
        result := lists.GetFreeRecord();
      }
      QueriesAnswerForFree(FREE);
      QueriesAnswerForFree(result);
    }

    lemma AllUsedWhenNoneFree()
      requires Valid()
      ensures FreeList() == [] <==> NoneFree(Model())
    {
      if FreeList() == [] {
        forall x | 0 <= x < Model().size ensures x in Model().used {
          QueriesAnswerForFree(x);
        }
      } else {
        QueriesAnswerForFree(FreeList()[0]);
      }
    }

    method Use(index: int)
      requires Valid() && 0 <= index < Model().size && index !in Model().used
      modifies this, lists
      ensures Valid() && Model() == UsedOne(old(Model()), index)
      ensures FreeList() == Removed(FreeBefore(), index)
      ensures dense <==> old(dense) && index == |old(Model()).used|
    {
      if dense {
        if index == usedSize && usedSize < freeSize {
          assert Iota(usedSize) + [usedSize] == Iota(usedSize + 1);
          RangeLosesFirst(usedSize, freeSize);
          usedSize := usedSize + 1;
        } else {
          LoseCompactness();
          lists.Use(index);
        }
      } else {
        lists.Use(index);
      }
    }

    /** A freed id is the next to be taken. */
    method Free(index: int)
      requires Valid() && index in Model().used
      modifies this, lists
      ensures Valid() && Model() == FreedOne(old(Model()), index)
      ensures FreeList() == [index] + FreeBefore()
      ensures dense <==> old(dense) && index + 1 == |old(Model()).used|
    {
      if dense {
        if index == usedSize - 1 && index >= 0 {
          IotaFreeLast(usedSize - 1);
          usedSize := usedSize - 1;
        } else {
          LoseCompactness();
          lists.Free(index);
        }
      } else {
        lists.Free(index);
      }
    }

    method UseVector(index: int, n: nat)
      requires Valid() && 0 <= index && index + n <= Model().size
      requires AllFree(Model().used, index, n)
      modifies this, lists
      ensures Valid() && Model() == UsedMany(old(Model()), index, n)
      ensures dense <==> old(dense) && index == |old(Model()).used|
    {
      if dense {
        if index == usedSize && usedSize + n <= freeSize {
          IotaUse(usedSize, n);
          usedSize := usedSize + n;
        } else {
          LoseCompactness();
          lists.UseVector(index, n);
        }
      } else {
        lists.UseVector(index, n);
      }
    }

    method FreeVector(index: int, n: nat)
      requires Valid() && 0 <= index && AllUsed(Model().used, index, n)
      modifies this, lists
      ensures Valid() && Model() == FreedMany(old(Model()), index, n)
      ensures dense <==> old(dense) && index + n == |old(Model()).used|
    {
      if dense {
        if index + n == usedSize {
          IotaFreeMany(index, usedSize, n);
          GapOpens(index, usedSize);
          usedSize := usedSize - n;
        } else {
          LoseCompactness();
          lists.FreeVector(index, n);
        }
      } else {
        lists.FreeVector(index, n);
      }
    }

    /** For an empty range the two forms differ: the dense one still looks at `index`. */
    method IsFreeVector(index: int, n: nat) returns (r: bool)
      requires Valid()
      ensures n > 0 ==> (r <==> index >= 0 && AllFree(Model().used, index, n))
      ensures n == 0 ==> (r <==> if dense then index >= usedSize else index >= 0)
    {
      if dense {
        IotaMembers(usedSize);
        r := index >= usedSize;
        ghost var used := Model().used;
        assert used == Iota(usedSize);
        assert n > 0 && 0 <= index < usedSize ==> index <= index < index + n && index in used;
      } else {
        r := lists.IsFreeVector(index, n);
      }
    }

    method IsUsedVector(index: int, n: nat) returns (r: bool)
      requires Valid()
      ensures n > 0 ==> (r <==> index >= 0 && AllUsed(Model().used, index, n))
      ensures n == 0 ==> (r <==> 0 <= index <= if dense then usedSize else lists.size)
    {
      if dense {
        IotaMembers(usedSize);
        r := index >= 0 && index <= usedSize && n <= usedSize - index;
        ghost var used := Model().used;
        assert used == Iota(usedSize);
        assert n > 0 && index + n - 1 >= usedSize ==> index <= index + n - 1 < index + n && index + n - 1 !in used;
      } else {
        r := lists.IsUsedVector(index, n);
        assert n > 0 && index > lists.size ==> index <= index < index + n && index !in lists.used;
      }
    }
  }

  lemma ListQueries(lists: ListKeeper, x: int)
    requires lists.Valid()
    ensures lists.IsUsed(x) <==> x in lists.used
    ensures (x == USED || x in lists.used) ==>
              && -2 <= x < lists.size
              && lists.GetNext(x) == After(USED, lists.used, x) && lists.GetPrevious(x) == Before(USED, lists.used, x)
  {
    Disjoint(lists.isFree, lists.size, lists.used, lists.free);
    if x == USED || x in lists.used {
      RingQueries(Links(lists.next, lists.prev), USED, lists.used, x);
    }
  }

  lemma FreeQueries(lists: ListKeeper, x: int)
    requires lists.Valid()
    ensures Distinct(lists.free) && (x in lists.free <==> 0 <= x < lists.size && x !in lists.used)
    ensures (x == FREE || x in lists.free) ==>
              && -2 <= x < lists.size
              && lists.GetNext(x) == After(FREE, lists.free, x) && lists.GetPrevious(x) == Before(FREE, lists.free, x)
  {
    Disjoint(lists.isFree, lists.size, lists.used, lists.free);
    if x == FREE || x in lists.free {
      RingQueries(Links(lists.next, lists.prev), FREE, lists.free, x);
    }
  }

  lemma RingQueries(l: Links, head: int, list: seq<int>, x: int)
    requires Ring(l, head, list) && (x == head || x in list)
    ensures IsNode(l, x) && Next(l, x) == After(head, list, x) && Prev(l, x) == Before(head, list, x)
  {
    if x == head {
      assert Linked(l, Node(head, list, 0), Node(head, list, 1));
      assert Linked(l, Node(head, list, |list|), Node(head, list, |list| + 1));
    } else {
      var i := IndexOf(list, x);
      assert Linked(l, Node(head, list, i), Node(head, list, i + 1));
      assert Linked(l, Node(head, list, i + 1), Node(head, list, i + 2));
    }
  }

  // ---------- whole runs ----------

  datatype Op = OpPushBack | OpGetFree | OpResize(n: nat) | OpUse(x: int) | OpFree(x: int) | OpUseVector(x: int, n: nat) | OpFreeVector(x: int, n: nat)

  /** What the callers respect: used ids are free and allocated before, freed ids are used. */
  ghost predicate Allowed(k: Keeper, op: Op) {
    match op
    case OpPushBack => true
    case OpGetFree => true
    case OpResize(_) => true
    case OpUse(x) => 0 <= x < k.size && x !in k.used
    case OpFree(x) => x in k.used
    case OpUseVector(x, n) => 0 <= x && x + n <= k.size && AllFree(k.used, x, n)
    case OpFreeVector(x, n) => 0 <= x && AllUsed(k.used, x, n)
  }

  ghost function Applied(k: Keeper, op: Op): Keeper {
    match op
    case OpPushBack => k.(size := k.size + 1)
    case OpGetFree => GotFree(k)
    case OpResize(n) => k.(size := if n > k.size then n else k.size)
    case OpUse(x) => UsedOne(k, x)
    case OpFree(x) => FreedOne(k, x)
    case OpUseVector(x, n) => UsedMany(k, x, n)
    case OpFreeVector(x, n) => FreedMany(k, x, n)
  }

  /** The model after `n` operations. */
  ghost function StateAfter(k: Keeper, ops: seq<Op>, n: nat): Keeper
    requires n <= |ops|
  {
    if n == 0 then k else Applied(StateAfter(k, ops, n - 1), ops[n - 1])
  }

  ghost predicate AllAllowed(k: Keeper, ops: seq<Op>) {
    forall n :: 0 <= n < |ops| ==> Allowed(StateAfter(k, ops, n), ops[n])
  }

  /** The id given out is new, or the first free one. */
  method Perform(keeper: HybridKeeper, op: Op) returns (id: Option<int>)
    requires keeper.Valid() && Allowed(keeper.Model(), op)
    modifies keeper, keeper.lists
    ensures keeper.Valid() && keeper.Model() == Applied(old(keeper.Model()), op)
    ensures id.Some? <==> op.OpPushBack? || op.OpGetFree?
    ensures op.OpPushBack? ==> id.value == old(keeper.Model()).size
    ensures op.OpGetFree? ==> id.value == if old(keeper.FreeList()) == [] then old(keeper.Model()).size else old(keeper.FreeList())[0]
  {
    id := None;
    match op
    case OpPushBack =>
      var index := keeper.PushBack();
      id := Some(index);
    case OpGetFree =>
      var record := keeper.GetFreeRecord();
      id := Some(record);
    case OpResize(n) => keeper.Resize(n);
    case OpUse(x) => keeper.Use(x);
    case OpFree(x) => keeper.Free(x);
    case OpUseVector(x, n) => keeper.UseVector(x, n);
    case OpFreeVector(x, n) => keeper.FreeVector(x, n);
  }

  /** Any sequence of operations leaves the hybrid allocator, dense or not, with the model's sequence of used ids. */
  method PerformFirst(keeper: HybridKeeper, ops: seq<Op>, n: nat)
    requires keeper.Valid() && AllAllowed(keeper.Model(), ops) && n <= |ops|
    modifies keeper, keeper.lists
    ensures keeper.Valid() && keeper.Model() == StateAfter(old(keeper.Model()), ops, n)
  {
    if n > 0 {
      PerformFirst(keeper, ops, n - 1);
      var id := Perform(keeper, ops[n - 1]);
    }
  }
}
