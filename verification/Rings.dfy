/**
 Circular doubly-linked lists threaded through two arrays. Node `x` has its links at index `x + 2`,
 so that the two list heads, -2 and -1, are nodes like any other.
 */
module Rings {
  datatype Links = Links(next: seq<int>, prev: seq<int>)

  predicate IsNode(l: Links, x: int) {
    |l.next| == |l.prev| && -2 <= x < |l.next| - 2
  }

  function Next(l: Links, x: int): int {
    if IsNode(l, x) then l.next[x + 2] else x
  }

  function Prev(l: Links, x: int): int {
    if IsNode(l, x) then l.prev[x + 2] else x
  }

  /** The nodes of a ring in order: the head, the members, the head again. */
  function Node(head: int, list: seq<int>, i: int): int
    requires 0 <= i <= |list| + 1
  {
    if i == 0 || i == |list| + 1 then head else list[i - 1]
  }

  ghost predicate Distinct(list: seq<int>) {
    forall i, j :: 0 <= i < j < |list| ==> list[i] != list[j]
  }

  /** Members are distinct, and the links go round them in both directions. */
  ghost predicate Ring(l: Links, head: int, list: seq<int>) {
    && IsNode(l, head)
    && (forall i :: 0 <= i < |list| ==> IsNode(l, list[i]) && list[i] != head)
    && Distinct(list)
    && (forall i :: 0 <= i <= |list| ==> Linked(l, Node(head, list, i), Node(head, list, i + 1)))
  }

  /** `b` follows `a`. */
  predicate Linked(l: Links, a: int, b: int) {
    IsNode(l, a) && IsNode(l, b) && Next(l, a) == b && Prev(l, b) == a
  }

  predicate InRing(head: int, list: seq<int>, x: int) {
    x == head || x in list
  }

  function Unlink(l: Links, x: int): Links
    requires IsNode(l, x) && IsNode(l, Next(l, x)) && IsNode(l, Prev(l, x))
  {
    Links(l.next[Prev(l, x) + 2 := Next(l, x)], l.prev[Next(l, x) + 2 := Prev(l, x)])
  }

  /** Put `x` between `a` and the node that follows it. */
  function LinkAfter(l: Links, a: int, x: int): Links
    requires IsNode(l, a) && IsNode(l, x) && IsNode(l, Next(l, a))
  {
    var b := Next(l, a);
    Links(l.next[x + 2 := b][a + 2 := x], l.prev[x + 2 := a][b + 2 := x])
  }

  function Without(list: seq<int>, k: nat): seq<int>
    requires k < |list|
  {
    list[..k] + list[k + 1..]
  }

  function Inserted(list: seq<int>, k: nat, x: int): seq<int>
    requires k <= |list|
  {
    list[..k] + [x] + list[k..]
  }

  /** Where a ring's nodes are: position determines node, except that both ends are the head. */
  lemma NodeInjective(head: int, list: seq<int>, i: int, j: int)
    requires Distinct(list) && head !in list && 0 <= i <= |list| && 0 <= j <= |list|
    requires Node(head, list, i) == Node(head, list, j)
    ensures i == j
  {
  }

  lemma UnlinkRing(l: Links, head: int, list: seq<int>, k: nat)
    requires Ring(l, head, list) && k < |list|
    ensures IsNode(l, list[k]) && IsNode(l, Next(l, list[k])) && IsNode(l, Prev(l, list[k]))
    ensures Ring(Unlink(l, list[k]), head, Without(list, k))
  {
    var x := list[k];
    assert Linked(l, Node(head, list, k), Node(head, list, k + 1));
    assert Linked(l, Node(head, list, k + 1), Node(head, list, k + 2));
    assert Node(head, list, k + 1) == x;
    var l', list' := Unlink(l, x), Without(list, k);
    forall i | 0 <= i <= |list'|
      ensures Linked(l', Node(head, list', i), Node(head, list', i + 1))
    {
      var a := if i <= k then i else i + 1;
      var b := if i + 1 <= k then i + 1 else i + 2;
      assert Node(head, list', i) == Node(head, list, a);
      assert Node(head, list', i + 1) == Node(head, list, b);
      if i == k {
      } else {
        assert b == a + 1;
        assert Linked(l, Node(head, list, a), Node(head, list, a + 1));
        UnlinkElsewhere(l, head, list, k, a);
      }
    }
  }

  lemma UnlinkElsewhere(l: Links, head: int, list: seq<int>, k: nat, a: nat)
    requires Ring(l, head, list) && k < |list| && a <= |list| && a != k && a != k + 1
    requires IsNode(l, list[k]) && IsNode(l, Next(l, list[k])) && IsNode(l, Prev(l, list[k]))
    requires Linked(l, Node(head, list, k), Node(head, list, k + 1)) && Linked(l, Node(head, list, k + 1), Node(head, list, k + 2))
    requires Linked(l, Node(head, list, a), Node(head, list, a + 1))
    ensures Linked(Unlink(l, list[k]), Node(head, list, a), Node(head, list, a + 1))
  {
    var p, n := Node(head, list, k), Node(head, list, k + 2);
    if Node(head, list, a) == p {
      NodeInjective(head, list, a, k);
    }
    if Node(head, list, a + 1) == n {
      if k + 2 <= |list| && a + 1 <= |list| {
        NodeInjective(head, list, a + 1, k + 2);
      } else if a + 1 <= |list| {
        NodeInjective(head, list, a + 1, 0);
      } else if k + 2 <= |list| {
        NodeInjective(head, list, 0, k + 2);
      }
    }
  }

  lemma InsertRing(l: Links, head: int, list: seq<int>, k: nat, x: int)
    requires Ring(l, head, list) && k <= |list| && IsNode(l, x) && x != head && x !in list
    ensures IsNode(l, Node(head, list, k)) && IsNode(l, Next(l, Node(head, list, k)))
    ensures Ring(LinkAfter(l, Node(head, list, k), x), head, Inserted(list, k, x))
  {
    var a := Node(head, list, k);
    assert Linked(l, a, Node(head, list, k + 1));
    var l', list' := LinkAfter(l, a, x), Inserted(list, k, x);
    forall i | 0 <= i <= |list'|
      ensures Linked(l', Node(head, list', i), Node(head, list', i + 1))
    {
      if i < k {
        assert Node(head, list', i) == Node(head, list, i) && Node(head, list', i + 1) == Node(head, list, i + 1);
        InsertElsewhere(l, head, list, k, x, i);
      } else if i == k {
        assert Node(head, list', i) == a && Node(head, list', i + 1) == x;
      } else if i == k + 1 {
        assert Node(head, list', i) == x && Node(head, list', i + 1) == Node(head, list, k + 1);
      } else {
        assert Node(head, list', i) == Node(head, list, i - 1) && Node(head, list', i + 1) == Node(head, list, i);
        InsertElsewhere(l, head, list, k, x, i - 1);
      }
    }
  }

  lemma InsertElsewhere(l: Links, head: int, list: seq<int>, k: nat, x: int, i: nat)
    requires Ring(l, head, list) && k <= |list| && IsNode(l, x) && x != head && x !in list
    requires i <= |list| && i != k && IsNode(l, Node(head, list, k)) && IsNode(l, Next(l, Node(head, list, k)))
    ensures Linked(LinkAfter(l, Node(head, list, k), x), Node(head, list, i), Node(head, list, i + 1))
  {
    assert Linked(l, Node(head, list, i), Node(head, list, i + 1));
    assert Linked(l, Node(head, list, k), Node(head, list, k + 1));
    if Node(head, list, i) == Node(head, list, k) {
      NodeInjective(head, list, i, k);
    }
    if Node(head, list, i + 1) == Node(head, list, k + 1) {
      if k + 1 <= |list| && i + 1 <= |list| {
        NodeInjective(head, list, i + 1, k + 1);
      } else if i + 1 <= |list| {
        NodeInjective(head, list, i + 1, 0);
      } else {
        NodeInjective(head, list, 0, k + 1);
      }
    }
  }

  /** A change of links outside a ring leaves the ring alone. */
  lemma RingElsewhere(l: Links, l': Links, head: int, list: seq<int>)
    requires Ring(l, head, list) && |l.next| <= |l'.next| == |l'.prev|
    requires forall x :: IsNode(l, x) && InRing(head, list, x) ==> Next(l', x) == Next(l, x) && Prev(l', x) == Prev(l, x)
    ensures Ring(l', head, list)
  {
    forall i | 0 <= i <= |list|
      ensures Linked(l', Node(head, list, i), Node(head, list, i + 1))
    {
      assert Linked(l, Node(head, list, i), Node(head, list, i + 1));
      assert InRing(head, list, Node(head, list, i)) && InRing(head, list, Node(head, list, i + 1));
    }
  }

  /** The neighbours of a ring's node are in the ring. */
  lemma Neighbours(l: Links, head: int, list: seq<int>, x: int)
    requires Ring(l, head, list) && InRing(head, list, x)
    ensures IsNode(l, x) && InRing(head, list, Next(l, x)) && InRing(head, list, Prev(l, x))
    ensures IsNode(l, Next(l, x)) && IsNode(l, Prev(l, x))
  {
    if x == head {
      assert Linked(l, Node(head, list, 0), Node(head, list, 1));
      assert Linked(l, Node(head, list, |list|), Node(head, list, |list| + 1));
    } else {
      var k :| 0 <= k < |list| && list[k] == x;
      assert Linked(l, Node(head, list, k), Node(head, list, k + 1));
      assert Linked(l, Node(head, list, k + 1), Node(head, list, k + 2));
    }
  }

  /** Following `next` (or `prev`) `n` times. */
  function Forward(l: Links, x: int, n: nat): int {
    if n == 0 then x else Next(l, Forward(l, x, n - 1))
  }

  function Backward(l: Links, x: int, n: nat): int {
    if n == 0 then x else Prev(l, Backward(l, x, n - 1))
  }

  /** A walk from the head visits every member exactly once, in order, and comes back to the head. */
  lemma {:induction false} WalkVisitsAll(l: Links, head: int, list: seq<int>, n: nat)
    requires Ring(l, head, list) && n <= |list| + 1
    ensures Forward(l, head, n) == Node(head, list, n)
    ensures Backward(l, head, n) == Node(head, list, |list| + 1 - n)
  {
    if n > 0 {
      WalkVisitsAll(l, head, list, n - 1);
      assert Linked(l, Node(head, list, n - 1), Node(head, list, n));
      assert Linked(l, Node(head, list, |list| + 1 - n), Node(head, list, |list| + 2 - n));
    }
  }
}
