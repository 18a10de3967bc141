/**
 `Table` as an object: maps of fields and names, and a freedom keeper that says which records are
 used. Each method changes the table as the function of the same name says, or throws.
 */
module TableObject {
  import opened Bytes
  import opened JournalFormat
  import opened JournalCodec
  import opened Tables
  import FreedomKeeper
  import Rings

  // ---------- the freedom keeper as flags ----------

  /** Which records a freedom keeper has in use. */
  function Flags(k: FreedomKeeper.Keeper): (f: seq<bool>)
    ensures |f| == k.size && forall i :: 0 <= i < k.size ==> f[i] == (i in k.used)
  {
    seq(k.size, i => i in k.used)
  }

  /** Used ids exist, and none is listed twice. */
  ghost predicate Sound(k: FreedomKeeper.Keeper) {
    Rings.Distinct(k.used) && forall x <- k.used :: 0 <= x < k.size
  }

  lemma FlagsGrown(k: FreedomKeeper.Keeper, m: nat)
    requires Sound(k) && m >= k.size
    ensures Flags(k.(size := m)) == GrowUsed(Flags(k), m)
  {
  }

  lemma FlagsUsed(k: FreedomKeeper.Keeper, x: nat)
    requires x < k.size
    ensures Flags(FreedomKeeper.UsedOne(k, x)) == Flags(k)[x := true] == Mark(Flags(k), x, 1, true)
  {
  }

  lemma {:induction false} AppendedMembers(list: seq<int>, x: int, n: nat)
    ensures forall y :: y in FreedomKeeper.AppendedMany(list, x, n) <==> y in list || x <= y < x + n
  {
    if n > 0 {
      AppendedMembers(list, x, n - 1);
    }
  }

  lemma FlagsUsedMany(k: FreedomKeeper.Keeper, x: nat, n: nat)
    requires x + n <= k.size
    ensures Flags(FreedomKeeper.UsedMany(k, x, n)) == Mark(Flags(k), x, n, true)
  {
    AppendedMembers(k.used, x, n);
  }

  lemma {:induction false} RemovedManyMembers(list: seq<int>, x: int, n: nat)
    requires Rings.Distinct(list)
    ensures Rings.Distinct(FreedomKeeper.RemovedMany(list, x, n))
    ensures forall y :: y in FreedomKeeper.RemovedMany(list, x, n) <==> y in list && !(x <= y < x + n)
  {
    if n > 0 {
      RemovedManyMembers(list, x, n - 1);
      FreedomKeeper.RemovedMembers(FreedomKeeper.RemovedMany(list, x, n - 1), x + n - 1);
    }
  }

  lemma FlagsFreedMany(k: FreedomKeeper.Keeper, x: nat, n: nat)
    requires Sound(k) && x + n <= k.size
    ensures Flags(FreedomKeeper.FreedMany(k, x, n)) == Mark(Flags(k), x, n, false)
  {
    RemovedManyMembers(k.used, x, n);
  }

  lemma RangeQueries(k: FreedomKeeper.Keeper, r: nat, n: nat)
    requires Sound(k)
    ensures FreedomKeeper.AllFree(k.used, r, n) <==> AllFree(Flags(k), r, n)
    ensures FreedomKeeper.AllUsed(k.used, r, n) <==> AllUsed(Flags(k), r, n)
  {
    forall i ensures UsedAt(Flags(k), i) <==> i in k.used {
    }
  }

  lemma GrowGrown(t: Table, m: nat, n: nat)
    requires ValidTable(t) && |t.used| <= m <= n
    ensures Grow(Grow(t, m), n) == Grow(t, n)
  {
    var g := Grow(t, m);
    forall f | f in t.fields ensures GrowColumn(g.fields[f], n) == GrowColumn(t.fields[f], n) {
      GrowColumnTwice(t.fields[f], |t.used|, m, n);
    }
    assert Grow(g, n).fields == Grow(t, n).fields;
    assert GrowUsed(GrowUsed(t.used, m), n) == GrowUsed(t.used, n);
  }

  lemma GrowColumnTwice(c: Column, size: nat, m: nat, n: nat)
    requires ValidColumn(c, size) && size <= m <= n
    ensures GrowColumn(GrowColumn(c, m), n) == GrowColumn(c, n)
    ensures size == m ==> GrowColumn(c, m) == c
  {
    if KindOfType(c.fieldType).Some? {
      assert GrowColumn(GrowColumn(c, m), n).values == GrowColumn(c, n).values;
    }
  }

  /** Inserting one record more. */
  lemma InsertNext(t: Table, r: nat, i: nat)
    requires ValidTable(t)
    ensures Insert(Insert(t, r, i), r + i, 1) == Insert(t, r, i + 1)
    ensures ValidTable(Insert(t, r, i))
  {
    if i > 0 {
      GrowValid(t, r + i);
      var g := Grow(t, r + i);
      if r + i >= |t.used| {
        GrowGrown(t, r + i, r + i + 1);
        InsertBeyond(t, g, Grow(t, r + i + 1), r, i);
      } else {
        MarkNext(t.used, r, i);
      }
    }
  }

  lemma MarkNext(used: seq<bool>, r: nat, i: nat)
    requires r + i + 1 <= |used|
    ensures Mark(Mark(used, r, i, true), r + i, 1, true) == Mark(used, r, i + 1, true)
  {
  }

  lemma InsertBeyond(t: Table, g: Table, h: Table, r: nat, i: nat)
    requires ValidTable(t) && i > 0 && |t.used| <= r + i && g == Grow(t, r + i) && h == Grow(t, r + i + 1) == Grow(g, r + i + 1)
    ensures Insert(g.(used := Mark(g.used, r, i, true)), r + i, 1) == h.(used := Mark(h.used, r, i + 1, true))
  {
    var s := g.(used := Mark(g.used, r, i, true));
    assert |g.used| == r + i && |h.used| == r + i + 1;
    assert Grow(s, r + i + 1).fields == h.fields;
    assert Mark(Grow(s, r + i + 1).used, r + i, 1, true) == Mark(h.used, r, i + 1, true);
  }

  lemma NextIsFree(t: Table, r: nat, n: nat, i: nat)
    requires AllFree(t.used, r, n) && i < n
    ensures !Used(Insert(t, r, i), r + i)
  {
    assert !UsedAt(t.used, r + i);
  }

  lemma NewIsFree(t: Table, r: nat)
    requires r >= |t.used|
    ensures !Used(t, r) && !Used(Grow(t, r + 1), r) && r < |Grow(t, r + 1).used|
  {
  }

  type Depth = n: nat | n > 0 witness 1

  class TableObject {
    var fields: map<nat, Column>
    var names: map<nat, seq<byte>>
    var lastField: nat
    const freedom: FreedomKeeper.HybridKeeper

    /** The table that the object stands for. */
    ghost var state: Table

    ghost function State(): Table
      reads this
    {
      state
    }

    ghost const seal: Depth

    ghost predicate Invariant()
      reads this, freedom, freedom.lists
    {
      freedom.Valid() && ValidTable(state) && state == Table(fields, names, lastField, Flags(freedom.Model()))
    }

    /** The invariant behind a recursion, so that those who only hold the object do not look into its freedom keeper. */
    ghost predicate Sealed(n: nat)
      reads this, freedom, freedom.lists
    {
      if n == 0 then Invariant() else Sealed(n - 1)
    }

    ghost predicate Valid()
      reads this, freedom, freedom.lists
    {
      Sealed(seal)
    }

    lemma {:induction false} Unseal(n: nat)
      ensures Sealed(n) <==> Invariant()
    {
      if n > 0 {
        Unseal(n - 1);
      }
    }

    constructor ()
      ensures Valid() && State() == Table(map[], map[], 0, []) && fresh(freedom) && fresh(freedom.lists)
    {
      fields, names, lastField := map[], map[], 0;
      freedom := new FreedomKeeper.HybridKeeper();
      state := Table(map[], map[], 0, []);
      seal := 1;
      new;
      assert Flags(FreedomKeeper.Keeper(0, [])) == [];
      Unseal(seal);
    }

    method AddField(name: seq<byte>, ft: FieldType) returns (ok: bool)
      requires Valid()
      modifies this
      ensures Valid() && ok == Tables.AddField(old(State()), name, ft).Some?
      ensures State() == if ok then Tables.AddField(old(State()), name, ft).value else old(State())
      ensures ok ==> lastField !in old(fields) && names == old(names)[lastField := name] && !NameUsed(old(names), name)
    {
      Unseal(seal);
      if NameUsed(names, name) || lastField == MAX_ID {
        return false;
      }
      Knows(0);
      lastField := lastField + 1;
      fields := fields[lastField := NewColumn(ft, freedom.GetSize())];
      names := names[lastField := name];
      state := state.(fields := fields, names := names, lastField := lastField);
      Unseal(seal);
      return true;
    }

    method DropField(f: nat) returns (ok: bool)
      requires Valid()
      modifies this
      ensures Valid() && ok == Tables.DropField(old(State()), f).Some?
      ensures State() == if ok then Tables.DropField(old(State()), f).value else old(State())
      ensures f !in fields && f !in names && forall g :: g != f ==> (g in fields <==> g in old(fields))
    {
      Unseal(seal);
      if f !in fields {
        return false;
      }
      names := names - {f};
      fields := fields - {f};
      state := state.(fields := fields, names := names);
      Unseal(seal);
      return true;
    }

    method RenameField(f: nat, name: seq<byte>) returns (ok: bool)
      requires Valid()
      modifies this
      ensures Valid() && ok == Tables.RenameField(old(State()), f, name).Some?
      ensures State() == if ok then Tables.RenameField(old(State()), f, name).value else old(State())
    {
      Unseal(seal);
      if f !in names || NameUsed(names, name) {
        return false;
      }
      names := names[f := name];
      state := state.(names := names);
      Unseal(seal);
      return true;
    }

    /** The freedom keeper answers for the table. */
    lemma Knows(r: int)
      requires Valid()
      ensures freedom.Valid() && Sound(freedom.Model())
      ensures freedom.GetSize() == |State().used| && (freedom.IsUsed(r) <==> Used(State(), r))
      ensures r in freedom.Model().used <==> Used(State(), r)
    {
      Unseal(seal);
      freedom.ModelIsSound();
      freedom.QueriesAnswerForModel(r);
    }

    lemma FieldsAreState()
      requires Valid()
      ensures fields == State().fields && names == State().names && lastField == State().lastField && ValidTable(State())
    {
      Unseal(seal);
    }

    predicate IsUsed(r: int)
      requires Valid()
      reads this, freedom, freedom.lists
      ensures IsUsed(r) <==> Used(State(), r)
    {
      Knows(r);
      freedom.IsUsed(r)
    }

    function GetSize(): (n: nat)
      requires Valid()
      reads this, freedom, freedom.lists
      ensures n == |State().used|
    {
      Knows(0);
      freedom.GetSize()
    }

    /** Columns first, then the freedom keeper, one record at a time. */
    method MakeRoom(n: nat)
      requires Valid() && n > |State().used|
      modifies this, freedom, freedom.lists
      ensures Valid() && State() == Grow(old(State()), n)
    {
      Unseal(seal);
      ghost var was, k := State(), freedom.Model();
      Knows(0);
      FlagsGrown(k, n);
      GrowValid(was, n);
      fields := map f | f in fields :: GrowColumn(fields[f], n);
      PushBackUntil(n);
      state := Grow(state, n);
      Unseal(seal);
    }

    method PushBackUntil(n: nat)
      requires freedom.Valid() && n >= freedom.Model().size
      modifies freedom, freedom.lists
      ensures freedom.Valid() && freedom.Model() == old(freedom.Model()).(size := n)
    {
      freedom.QueriesAnswerForModel(0);
      while freedom.GetSize() < n
        invariant freedom.Valid() && freedom.GetSize() == freedom.Model().size <= n
        invariant freedom.Model().used == old(freedom.Model()).used
        decreases n - freedom.GetSize()
      {
        var index := freedom.PushBack();
        freedom.QueriesAnswerForModel(0);
      }
    }

    method UseRange(r: nat, n: nat)
      requires Valid() && r + n <= |State().used| && AllFree(State().used, r, n)
      modifies `state, freedom, freedom.lists
      ensures Valid() && State() == old(State()).(used := Mark(old(State()).used, r, n, true))
    {
      Unseal(seal);
      Knows(0);
      RangeQueries(freedom.Model(), r, n);
      FlagsUsedMany(freedom.Model(), r, n);
      freedom.UseVector(r, n);
      state := state.(used := Mark(state.used, r, n, true));
      Unseal(seal);
    }

    method UseRecord(r: nat)
      requires Valid() && r < |State().used| && !Used(State(), r)
      modifies `state, freedom, freedom.lists
      ensures Valid() && State() == old(State()).(used := Mark(old(State()).used, r, 1, true))
    {
      Unseal(seal);
      Knows(r);
      FlagsUsed(freedom.Model(), r);
      freedom.Use(r);
      state := state.(used := Mark(state.used, r, 1, true));
      Unseal(seal);
    }

    /** Records are appended one by one until there is room for `r`. */
    method InsertRecord(r: nat) returns (ok: bool)
      requires Valid()
      modifies this, freedom, freedom.lists
      ensures Valid() && ok == !Used(old(State()), r)
      ensures State() == if ok then Insert(old(State()), r, 1) else old(State())
    {
      Unseal(seal);
      Knows(r);
      if r >= freedom.GetSize() {
        NewIsFree(State(), r);
        MakeRoom(r + 1);
      } else if freedom.IsUsed(r) {
        return false;
      }
      UseRecord(r);
      Unseal(seal);
      return true;
    }

    /** Of a non-empty range all records must be free; whether an empty one is accepted depends on the form of the freedom keeper. */
    method InsertVector(r: int, n: nat) returns (ok: bool)
      requires Valid()
      modifies this, freedom, freedom.lists
      ensures Valid() && (n > 0 ==> ok == Tables.InsertVector(old(State()), r, n).Some?) && (ok ==> r >= 0)
      ensures State() == if ok then Insert(old(State()), r, n) else old(State())
    {
      Unseal(seal);
      Knows(0);
      ok := IsFreeRange(r, n);
      if ok {
        if r == freedom.GetSize() {
          AppendVector(n);
        } else {
          InsertOneByOne(r, n);
        }
      }
      Unseal(seal);
    }

    method IsFreeRange(r: int, n: nat) returns (free: bool)
      requires Valid()
      ensures (n > 0 ==> free == AllFree(State().used, r, n)) && (free ==> r >= 0 && AllFree(State().used, r, n))
    {
      Unseal(seal);
      Knows(0);
      free := freedom.IsFreeVector(r, n);
      if r >= 0 {
        RangeQueries(freedom.Model(), r, n);
      }
    }

    method InsertOneByOne(r: nat, n: nat)
      requires Valid() && AllFree(State().used, r, n)
      modifies this, freedom, freedom.lists
      ensures Valid() && State() == Insert(old(State()), r, n)
    {
      Unseal(seal);
      ghost var was := State();
      for i := 0 to n
        invariant State() == Insert(was, r, i) && Valid()
        modifies this, freedom, freedom.lists
      {
        InsertNext(was, r, i);
        NextIsFree(was, r, n, i);
        var inserted := InsertRecord(r + i);
      }
      Unseal(seal);
    }

    method AppendVector(n: nat)
      requires Valid()
      modifies this, freedom, freedom.lists
      ensures Valid() && State() == Insert(old(State()), |old(State()).used|, n)
    {
      var r := GetSize();
      ghost var was := State();
      ResizeTo(r + n);
      assert forall i :: r <= i < r + n ==> !UsedAt(State().used, i);
      UseRange(r, n);
      assert n == 0 ==> Mark(was.used, r, 0, true) == was.used;
    }

    method ResizeTo(size: nat)
      requires Valid() && size >= |State().used|
      modifies this, freedom, freedom.lists
      ensures Valid() && State() == Grow(old(State()), size)
    {
      Unseal(seal);
      ghost var was, k := State(), freedom.Model();
      Knows(0);
      FlagsGrown(k, size);
      GrowValid(was, size);
      SameFieldsWhenNothing(was);
      freedom.Resize(size);
      fields := map f | f in fields :: GrowColumn(fields[f], size);
      state := Grow(state, size);
      Unseal(seal);
    }

    method DeleteRecord(r: int) returns (ok: bool)
      requires Valid()
      modifies `state, freedom, freedom.lists
      ensures Valid() && ok == Tables.DeleteVector(old(State()), r, 1).Some?
      ensures State() == if ok then Tables.DeleteVector(old(State()), r, 1).value else old(State())
    {
      assert UsedAt(State().used, r) <==> AllUsed(State().used, r, 1);
      if !IsUsed(r) {
        return false;
      }
      FreeOne(r);
      return true;
    }

    method FreeOne(r: nat)
      requires Valid() && Used(State(), r)
      modifies `state, freedom, freedom.lists
      ensures Valid() && State() == old(State()).(used := Mark(old(State()).used, r, 1, false))
    {
      Unseal(seal);
      Knows(r);
      ghost var k := freedom.Model();
      FlagsFreedMany(k, r, 1);
      assert FreedomKeeper.FreedMany(k, r, 1) == FreedomKeeper.FreedOne(k, r) by {
        assert FreedomKeeper.RemovedMany(k.used, r, 0) == k.used;
      }
      freedom.Free(r);
      state := state.(used := Mark(state.used, r, 1, false));
      Unseal(seal);
    }

    method DeleteVector(r: int, n: nat) returns (ok: bool)
      requires Valid()
      modifies `state, freedom, freedom.lists
      ensures Valid() && (n > 0 ==> ok == Tables.DeleteVector(old(State()), r, n).Some?) && (ok ==> r >= 0)
      ensures State() == if ok then old(State()).(used := State().used) else old(State())
      ensures ok && n > 0 ==> Tables.DeleteVector(old(State()), r, n) == Some(State())
      ensures ok && n == 0 ==> State() == old(State())
      ensures ok ==> forall i :: 0 <= i < |State().used| ==> State().used[i] == (old(State()).used[i] && !(r <= i < r + n))
    {
      ok := IsUsedRange(r, n);
      if ok {
        ghost var was := State();
        FreeRange(r, n);
        assert n == 0 ==> Mark(was.used, r, 0, false) == was.used;
      }
    }

    method IsUsedRange(r: int, n: nat) returns (used: bool)
      requires Valid()
      ensures (n > 0 ==> used == AllUsed(State().used, r, n))
      ensures used ==> AllUsed(State().used, r, n) && r + n <= |State().used|
    {
      Unseal(seal);
      Knows(0);
      used := freedom.IsUsedVector(r, n);
      if r >= 0 {
        RangeQueries(freedom.Model(), r, n);
        assert n > 0 && AllUsed(State().used, r, n) ==> UsedAt(State().used, r + n - 1);
      }
    }

    method FreeRange(r: nat, n: nat)
      requires Valid() && r + n <= |State().used| && AllUsed(State().used, r, n)
      modifies `state, freedom, freedom.lists
      ensures Valid() && State() == old(State()).(used := Mark(old(State()).used, r, n, false))
    {
      Unseal(seal);
      Knows(0);
      RangeQueries(freedom.Model(), r, n);
      FlagsFreedMany(freedom.Model(), r, n);
      freedom.FreeVector(r, n);
      state := state.(used := Mark(state.used, r, n, false));
      Unseal(seal);
    }

    /** The values of one field from a record on; a single value is the same with one. */
    method UpdateVector(k: Kind, r: int, f: nat, vs: seq<Value>) returns (ok: bool)
      requires Valid()
      modifies this
      ensures Valid() && ok == UpdateFields(old(State()), k, r, f, vs).Some?
      ensures State() == if ok then UpdateFields(old(State()), k, r, f, vs).value else old(State())
    {
      Unseal(seal);
      if f !in fields {
        return false;
      }
      if vs == [] {
        Unseal(seal);
        return true;
      }
      var last := r + |vs| - 1;
      Knows(r);
      Knows(last);
      if !freedom.IsUsed(r) || !freedom.IsUsed(last) {
        return false;
      }
      if KindOfType(fields[f].fieldType) != Some(k) {
        return false;
      }
      SetValues(k, r, f, vs);
      Unseal(seal);
      return true;
    }

    method SetValues(k: Kind, r: nat, f: nat, vs: seq<Value>)
      requires Valid() && f in fields && vs != [] && Used(State(), r) && Used(State(), r + |vs| - 1)
      requires KindOfType(fields[f].fieldType) == Some(k)
      modifies this
      ensures Valid() && UpdateFields(old(State()), k, r, f, vs) == Some(State())
    {
      Unseal(seal);
      var c := fields[f];
      UpdateValid(State(), k, r, f, vs);
      fields := fields[f := c.(values := Splice(c.values, r, vs))];
      state := state.(fields := fields);
      Unseal(seal);
    }
  }

  lemma SameFieldsWhenNothing(t: Table)
    requires ValidTable(t)
    ensures (map f | f in t.fields :: GrowColumn(t.fields[f], |t.used|)) == t.fields
  {
    forall f | f in t.fields ensures GrowColumn(t.fields[f], |t.used|) == t.fields[f] {
      GrowColumnTwice(t.fields[f], |t.used|, |t.used|, |t.used|);
    }
  }
}
