/**
 A journal file on a disk that can lose unsynced writes.

 The four checkpoint slots of the header are kept apart from the rest of the file, because each
 is written atomically. `held[k]` is every value slot `k` may hold after a crash; bytes below
 `clean` are durable, and a crash may change every byte from `clean` on, and cut the file anywhere
 not below `durableSize`.
 */
module Disk {
  import opened Bytes

  const HEADER_SIZE: nat := 41

  datatype AnyOp =
    | WriteData(offset: nat, bytes: seq<byte>)
    | WriteSlot(slot: nat, value: int)
    | Sync
    | DataSync

  datatype Disk = Disk(
    data: seq<byte>,
    clean: nat,
    durableSize: nat,
    slots: seq<int>,
    held: seq<set<int>>
  ) {
    predicate Valid() {
      && HEADER_SIZE <= clean <= durableSize <= |data|
      && |slots| == 4
      && |held| == 4
      && slots[0] in held[0] && slots[1] in held[1] && slots[2] in held[2] && slots[3] in held[3]
    }
  }

  /** Data is written after the header, and there are four slots. */
  predicate Legal(op: AnyOp) {
    match op
    case WriteData(offset, _) => HEADER_SIZE <= offset
    case WriteSlot(slot, _) => slot < 4
    case _ => true
  }

  type Op = op: AnyOp | Legal(op) witness Sync

  function Singletons(slots: seq<int>): (h: seq<set<int>>)
    requires |slots| == 4
    ensures |h| == 4
  {
    [{slots[0]}, {slots[1]}, {slots[2]}, {slots[3]}]
  }

  /** The effect of one file operation. `DataSync` does not make a change of the file size durable. */
  function Apply(d: Disk, op: Op): (r: Disk)
    requires d.Valid()
    ensures r.Valid()
  {
    match op
    case WriteData(offset, bytes) =>
      d.(data := Overlay(d.data, offset, bytes),
         clean := if bytes == [] || d.clean <= offset then d.clean else offset)
    case WriteSlot(k, value) =>
      d.(slots := d.slots[k := value], held := d.held[k := d.held[k] + {value}])
    case Sync =>
      d.(clean := |d.data|, durableSize := |d.data|, held := Singletons(d.slots))
    case DataSync =>
      d.(clean := d.durableSize, held := Singletons(d.slots))
  }

  function ApplyAll(d: Disk, ops: seq<Op>): (r: Disk)
    requires d.Valid()
    ensures r.Valid()
    decreases |ops|
  {
    if ops == [] then d else Apply(ApplyAll(d, ops[..|ops| - 1]), ops[|ops| - 1])
  }

  /** `after` is a disk image that may be found after a crash at `before`. */
  ghost predicate CrashOutcome(before: Disk, after: Disk)
    requires before.Valid()
  {
    && after.Valid()
    && before.durableSize <= |after.data|
    && after.data[..before.clean] == before.data[..before.clean]
    && (forall k :: 0 <= k < 4 ==> after.slots[k] in before.held[k])
    // what is found after the crash is what is on the medium
    && after.clean == after.durableSize == |after.data|
    && after.held == Singletons(after.slots)
  }

  lemma ApplyAllAppend(d: Disk, a: seq<Op>, b: seq<Op>)
    requires d.Valid()
    ensures ApplyAll(d, a + b) == ApplyAll(ApplyAll(d, a), b)
    decreases |b|
  {
    if b == [] {
      assert a + b == a;
    } else {
      var c := b[..|b| - 1];
      ApplyAllAppend(d, a, c);
      assert (a + b)[..|a + b| - 1] == a + c;
    }
  }

  /** Operations that write no data leave the data alone. */
  lemma {:induction false} DataStays(d: Disk, ops: seq<Op>)
    requires d.Valid() && forall i :: 0 <= i < |ops| ==> !ops[i].WriteData?
    ensures ApplyAll(d, ops).data == d.data
    decreases |ops|
  {
    if ops != [] {
      DataStays(d, ops[..|ops| - 1]);
    }
  }

  /** A file being operated on; `trail` records every operation, so that a crash can be placed after any of them. */
  class File {
    var disk: Disk
    ghost var trail: seq<Op>
    ghost const initial: Disk

    ghost predicate Valid()
      reads this
    {
      && initial.Valid()
      && disk.Valid()
      && disk == ApplyAll(initial, trail)
    }

    constructor (d: Disk)
      requires d.Valid()
      ensures Valid() && disk == d && trail == []
    {
      disk := d;
      trail := [];
      initial := d;
    }

    method Do(op: Op)
      requires Valid()
      modifies this
      ensures Valid()
      ensures trail == old(trail) + [op]
      ensures disk == Apply(old(disk), op)
    {
      ApplyAllAppend(initial, trail, [op]);
      assert [op][..0] == [];
      assert ApplyAll(disk, [op]) == Apply(disk, op);
      disk := Apply(disk, op);
      trail := trail + [op];
    }

    method DoThenSync(op: Op, sync: Op)
      requires Valid() && (sync.Sync? || sync.DataSync?)
      modifies this
      ensures Valid()
      ensures trail == old(trail) + [op, sync]
      ensures disk == Apply(Apply(old(disk), op), sync)
    {
      Do(op);
      Do(sync);
    }
  }
}
