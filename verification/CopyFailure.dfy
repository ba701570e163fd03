/**
 A copy of an address space that cannot be undone (kernel/vm.c uvmcopy): the parent
 has a page table without a page before the page at which memory runs out, so that
 the child has no table there when its pages are unmapped again.
 */
module CopyFailure {
  import opened Blocks
  import opened FrameBudget
  import opened PageTable
  import opened VirtualMemory
  import opened UserMemory
  import opened AddressSpace

  /** There is a table for each of the first ENTRIES + 1 pages. */
  ghost predicate Tabled(m: Mem, root: nat)
    requires Trees(m) && root in m.use && m.use[root] == Root
  {
    forall v: nat :: v <= ENTRIES ==> Low(m, root, v) != 0
  }

  /** A parent with one page, the first of its second region, and a table for the first region; a child with nothing. */
  ghost predicate Gap(m: Mem, parent: nat, child: nat)
    requires Trees(m)
  {
    && parent in m.use && m.use[parent] == Root && child in m.use && m.use[child] == Root && parent != child
    && Tabled(m, parent)
    && Vacant(m, parent, 0, ENTRIES)
    && Lookup(m, parent, ENTRIES).v && OwnsPage(m, parent, ENTRIES)
    && Vacant(m, child, 0, MAXVPN) && NoTables(m, child)
  }

  lemma {:induction false} NothingCosts(m: Mem, parent: nat, child: nat, n: nat)
    requires Trees(m) && Gap(m, parent, child) && n <= ENTRIES
    ensures Cost(m, child, 0, Image(m, parent, n)) == 0
    ensures forall w :: w in Image(m, parent, n) ==> w == Nothing
  {
    hide Trees, Low, Lookup, OwnsPage, Need;
    if n > 0 {
      NothingCosts(m, parent, child, n - 1);
      WantIs(m, parent, n - 1);
      CostMore(m, child, 0, Image(m, parent, n - 1), Nothing);
    }
  }

  /** With no free frame, copying this parent ends in the panic of uvmunmap. */
  lemma GapPanics(m: Mem, parent: nat, child: nat, o: Outcome)
    requires Trees(m) && Gap(m, parent, child) && Ends(m, parent, child, 0, ENTRIES + 1, o)
    ensures o == Panic
  {
    GapWanted(m, parent, child);
    NothingCosts(m, parent, child, ENTRIES);
    hide Trees, Low, Lookup, OwnsPage, Need, WantOf, Vacant;
    var ws := Image(m, parent, ENTRIES);
    CostMore(m, child, 0, ws, WantOf(m, parent, ENTRIES));
    NeedSome(m, child, 0, ws, ENTRIES);
    assert HasTables(m, parent, 0, ENTRIES);
    assert StopsAt(m, parent, child, 0, ENTRIES + 1, ENTRIES);
    assert !TableMade(0, ws, 0);
    assert !Walkable(m, parent, child, ENTRIES);
  }

  lemma NeedSome(m: Mem, root: nat, first: nat, ws: seq<Want>, v: nat)
    requires Trees(m) && root in m.use && m.use[root] == Root && v < MAXVPN
    ensures Need(m, root, first, ws, v) > 0
  {
  }

  lemma GapWanted(m: Mem, parent: nat, child: nat)
    requires Trees(m) && Gap(m, parent, child)
    ensures WantOf(m, parent, ENTRIES).Want?
  {
    hide Low, Lookup;
    var f := Lookup(m, parent, ENTRIES).ppn;
    SpotHolds(m, parent, ENTRIES, f);
    InPool(m, f);
    WantIs(m, parent, ENTRIES);
  }

  // ---------------------------------------------------------------- one such parent, made

  /** A space with the first page of each of its first two regions. */
  ghost predicate Half(m: Mem, parent: nat)
    requires Trees(m)
  {
    && parent in m.use && m.use[parent] == Root
    && Tabled(m, parent)
    && (forall v: nat :: v <= ENTRIES ==> (Lookup(m, parent, v).v <==> v == 0 || v == ENTRIES))
    && OwnsPage(m, parent, 0) && OwnsPage(m, parent, ENTRIES)
  }

  lemma RegionOf(v: nat)
    requires v <= ENTRIES
    ensures SameRegion(v, 0) <==> v < ENTRIES
    ensures SameRegion(v, ENTRIES) <==> v == ENTRIES
  {
  }

  lemma HalfMade(m0: Mem, m1: Mem, m2: Mem, parent: nat, w: Want)
    requires Trees(m0) && parent in m0.use && m0.use[parent] == Root && w.Want?
    requires Vacant(m0, parent, 0, MAXVPN) && Filled(m0, m1, parent, 0, [w]) && Filled(m1, m2, parent, ENTRIES, [w])
    requires Trees(m1) && parent in m1.use && m1.use[parent] == Root && Grew(m0, m1, parent, 0, true)
    requires Trees(m2) && parent in m2.use && m2.use[parent] == Root && Grew(m1, m2, parent, ENTRIES, true)
    ensures Half(m2, parent)
  {
    FilledOwns(m1, m2, parent, ENTRIES, [w]);
    assert OwnsPage(m2, parent, ENTRIES);
    FirstKept(m0, m1, m2, parent, w);
    hide Trees, Lookup, Low, Filled, Grew, OwnsPage, Vacant, OwnsPages, HasTables;
    forall v: nat | v <= ENTRIES
      ensures Low(m2, parent, v) != 0 && (Lookup(m2, parent, v).v <==> v == 0 || v == ENTRIES)
    {
      HalfAt(m0, m1, m2, parent, w, v);
    }
  }

  lemma HalfAt(m0: Mem, m1: Mem, m2: Mem, parent: nat, w: Want, v: nat)
    requires Trees(m0) && parent in m0.use && m0.use[parent] == Root && w.Want? && v <= ENTRIES
    requires Vacant(m0, parent, 0, MAXVPN) && Filled(m0, m1, parent, 0, [w]) && Filled(m1, m2, parent, ENTRIES, [w])
    requires Trees(m1) && parent in m1.use && m1.use[parent] == Root && Grew(m0, m1, parent, 0, true)
    requires Trees(m2) && parent in m2.use && m2.use[parent] == Root && Grew(m1, m2, parent, ENTRIES, true)
    ensures Low(m2, parent, v) != 0 && (Lookup(m2, parent, v).v <==> v == 0 || v == ENTRIES)
  {
    hide Trees, Lookup, Low, Mid, Owner, FramesFilled, SameRegion, SameSpan, OthersTables;
    RegionOf(v);
    assert GrewAt(m0, m1, parent, 0, true, v) && GrewAt(m1, m2, parent, ENTRIES, true, v);
    assert FilledAt(m0, m1, parent, 0, [w], 0) && FilledAt(m1, m2, parent, ENTRIES, [w], ENTRIES);
    if v != 0 && v != ENTRIES {
      assert Lookup(m1, parent, v) == Lookup(m0, parent, v) && Lookup(m2, parent, v) == Lookup(m1, parent, v);
    }
  }

  lemma FirstKept(m0: Mem, m1: Mem, m2: Mem, parent: nat, w: Want)
    requires Filled(m0, m1, parent, 0, [w]) && Filled(m1, m2, parent, ENTRIES, [w]) && w.Want?
    requires parent in m1.use && m1.use[parent] == Root
    ensures Trees(m2) && parent in m2.use && m2.use[parent] == Root && OwnsPage(m2, parent, 0)
  {
    hide Trees, Low;
    assert FilledAt(m0, m1, parent, 0, [w], 0);
    var f := Lookup(m1, parent, 0).ppn;
    hide Lookup;
    StaysOwned(m1.use, m2.use, f);
  }

  /** A frame keeps its owner while frames in use keep their uses. */
  lemma StaysOwned(use: map<nat, Use>, use': map<nat, Use>, f: nat)
    requires use'.Keys == use.Keys && Owner(use, f).Spot?
    requires use'[f] == use[f] && forall g: nat :: g in use && use[g].Node? ==> use'[g] == use[g]
    ensures Owner(use', f) == Owner(use, f)
  {
  }

  method MakeHalf(vm: Vm) returns (parent: nat)
    requires vm.Valid() && |vm.free| >= 8
    modifies vm`pages, vm`freelist, vm`use, vm`free
    ensures vm.Valid() && Half(Mem(vm.lo, vm.pages, vm.use), parent) && |vm.free| >= 1
  {
    hide Trees, FreeList, Lookup, SameMaps, Junk, OthersTables, Low, Filled, Grew, Half, NoTables;
    parent := UvmCreate(vm);
    ghost var m0 := Mem(vm.lo, vm.pages, vm.use);
    JunkPage();
    MissingFew(m0, parent, 0);
    var ok := FillOne(vm, parent, 0, RWXU, Junk(0));
    ghost var m1 := Mem(vm.lo, vm.pages, vm.use);
    MissingFew(m1, parent, ENTRIES);
    OthersFilled(m0, m1, parent, 0, Want(RWXU, Junk(0)), ENTRIES);
    ok := FillOne(vm, parent, ENTRIES, RWXU, Junk(0));
    HalfMade(m0, m1, Mem(vm.lo, vm.pages, vm.use), parent, Want(RWXU, Junk(0)));
  }

  lemma MissingFew(m: Mem, root: nat, v: nat)
    requires Trees(m) && root in m.use && m.use[root] == Root && v < MAXVPN
    ensures Missing(m, root, v) <= 2
  {
  }

  lemma OthersFilled(m: Mem, m': Mem, root: nat, first: nat, w: Want, v: nat)
    requires Filled(m, m', root, first, [w]) && root in m.use && m.use[root] == Root && v < MAXVPN && v != first
    requires Vacant(m, root, 0, MAXVPN)
    ensures !Lookup(m', root, v).v
  {
    hide Trees, Lookup, FilledAt;
  }

  /** A child beside it. */
  lemma HalfBeside(m: Mem, m': Mem, parent: nat, child: nat)
    requires Trees(m) && Half(m, parent) && SameMaps(m, m') && OthersTables(m, m', child)
    requires child in m.use && m.use[child] == Free && m'.use == m.use[child := Root]
    ensures Half(m', parent) && parent != child
  {
    hide Trees, Low;
    StaysOwned(m.use, m'.use, Lookup(m, parent, 0).ppn);
    StaysOwned(m.use, m'.use, Lookup(m, parent, ENTRIES).ppn);
    hide Lookup;
    forall v: nat | v <= ENTRIES ensures Low(m', parent, v) != 0 {
      assert OtherTable(m, m', parent, v);
    }
  }

  /** Unmapping the first page leaves its table. */
  lemma GapMade(m: Mem, m': Mem, parent: nat, child: nat)
    requires Trees(m) && Half(m, parent) && child in m.use && m.use[child] == Root && parent != child
    requires Vacant(m, child, 0, MAXVPN) && NoTables(m, child) && Unmapped(m, m', parent, 0, 1, true)
    ensures Trees(m') && Gap(m', parent, child)
  {
    GapOwned(m, m', parent);
    hide Trees, Low, Lookup, OwnsPage, Unmapped;
    GapChild(m, m', parent, child);
    hide NoTables;
    assert Tabled(m', parent) && Vacant(m', parent, 0, ENTRIES) by {
      forall v: nat | v <= ENTRIES ensures Low(m', parent, v) != 0 && (v < ENTRIES ==> !Lookup(m', parent, v).v) {
        GoneAt(m, m', parent, parent, v);
      }
    }
  }

  lemma GapChild(m: Mem, m': Mem, parent: nat, child: nat)
    requires Trees(m) && child in m.use && m.use[child] == Root && parent != child
    requires Vacant(m, child, 0, MAXVPN) && NoTables(m, child) && Unmapped(m, m', parent, 0, 1, true)
    ensures Trees(m') && child in m'.use && m'.use[child] == Root && Vacant(m', child, 0, MAXVPN) && NoTables(m', child)
  {
    hide Trees, Low, Lookup, Unmapped;
    GoneAt(m, m', parent, child, 0);
    forall v: nat | v < MAXVPN ensures Low(m', child, v) == 0 && !Lookup(m', child, v).v {
      GoneAt(m, m', parent, child, v);
    }
  }

  lemma GoneAt(m: Mem, m': Mem, root: nat, r: nat, v: nat)
    requires Unmapped(m, m', root, 0, 1, true) && Trees(m) && r in m.use && m.use[r] == Root && v < MAXVPN
    ensures Trees(m') && r in m'.use && m'.use[r] == Root && Low(m', r, v) == Low(m, r, v)
    ensures if r == root && v == 0 then !Lookup(m', r, v).v else Lookup(m', r, v) == Lookup(m, r, v)
  {
    hide Trees, Low, Lookup, FramesGone;
  }

  lemma GapOwned(m: Mem, m': Mem, parent: nat)
    requires Trees(m) && Half(m, parent) && Unmapped(m, m', parent, 0, 1, true)
    ensures Trees(m') && parent in m'.use && m'.use[parent] == Root && OwnsPage(m', parent, ENTRIES)
    ensures Lookup(m', parent, ENTRIES) == Lookup(m, parent, ENTRIES)
  {
    hide Trees, Low, Lookup;
    StaysOwned(m.use, m'.use, Lookup(m, parent, ENTRIES).ppn);
  }

  /** Taking a frame changes none of this. */
  lemma GapKept(m: Mem, m': Mem, parent: nat, child: nat, f: nat)
    requires Trees(m) && Trees(m') && Gap(m, parent, child) && SameTables(m, m')
    requires f in m.use && m.use[f] == Free && m'.use == m.use[f := Held]
    ensures Gap(m', parent, child)
  {
    TablesMaps(m, m');
    HeldTables(m, m', parent, child, f);
    hide Trees, Low, SameTables, Tabled, NoTables, Lookup;
    StaysOwned(m.use, m'.use, Lookup(m, parent, ENTRIES).ppn);
    SameVacant(m, m', parent, 0, ENTRIES);
    SameVacant(m, m', child, 0, MAXVPN);
    hide Vacant;
  }

  lemma SameVacant(m: Mem, m': Mem, root: nat, first: nat, n: nat)
    requires SameMaps(m, m') && root in m.use && m.use[root] == Root && Vacant(m, root, first, n)
    ensures root in m'.use && m'.use[root] == Root && Vacant(m', root, first, n)
  {
    hide Trees, Lookup;
  }

  lemma TakenStays(use: map<nat, Use>, f: nat, root: nat)
    requires f in use && use[f] == Free
    ensures NewOnPath(use, use[f := Held], root, 0, 1) && TablesStay(use, use[f := Held])
  {
  }

  lemma HeldTables(m: Mem, m': Mem, parent: nat, child: nat, f: nat)
    requires Trees(m) && Trees(m') && Gap(m, parent, child)
    requires f in m.use && m.use[f] == Free && m'.use == m.use[f := Held]
    ensures parent in m'.use && m'.use[parent] == Root && child in m'.use && m'.use[child] == Root
    ensures NoTables(m', child) && Tabled(m', parent)
  {
    TakenStays(m.use, f, parent);
    hide Trees, Low, NewOnPath, Lookup, OwnsPage, Vacant, TablesStay;
    OthersStay(m, m', parent, 0);
    forall v: nat | v <= ENTRIES ensures Low(m', parent, v) != 0 {
      StillThere(m, m', parent, v);
    }
    forall v: nat | v < MAXVPN ensures Low(m', child, v) == 0 {
      assert OtherTable(m, m', child, v);
    }
  }

  /** The rest of memory goes to others. */
  method Drain(vm: Vm, ghost parent: nat, ghost child: nat)
    requires vm.Valid() && Gap(Mem(vm.lo, vm.pages, vm.use), parent, child)
    modifies vm`pages, vm`freelist, vm`use, vm`free
    ensures vm.Valid() && Gap(Mem(vm.lo, vm.pages, vm.use), parent, child) && vm.free == []
  {
    hide Trees, FreeList, Junk, Gap, SameTables;
    var f := 1;
    while f != 0
      invariant vm.Valid() && Gap(Mem(vm.lo, vm.pages, vm.use), parent, child) && (f == 0 ==> vm.free == [])
      decreases |vm.free|, f
    {
      ghost var m := Mem(vm.lo, vm.pages, vm.use);
      f := vm.Kalloc();
      if f != 0 {
        GapKept(m, Mem(vm.lo, vm.pages, vm.use), parent, child, f);
      }
    }
  }

  /** Such a parent can be made, and copying it when memory is gone panics instead of failing. */
  method CopyPanics() returns (o: Outcome)
    ensures o == Panic
  {
    hide Trees, FreeList, Lookup, Unmapped, Half, Gap, SameMaps, OthersTables, Vacant, NoTables, Ends, OwnsPages,
        HasTables, Low;
    var vm := new Vm(1, 20);
    var parent := MakeHalf(vm);
    ghost var m := Mem(vm.lo, vm.pages, vm.use);
    var child := UvmCreate(vm);
    ghost var m1 := Mem(vm.lo, vm.pages, vm.use);
    HalfBeside(m, m1, parent, child);
    HalfUnmaps(m1, parent);
    ghost var k;
    o, k := UvmUnmap(vm, parent, 0, 1, true);
    GapMade(m1, Mem(vm.lo, vm.pages, vm.use), parent, child);
    Drain(vm, parent, child);
    ghost var m2 := Mem(vm.lo, vm.pages, vm.use);
    GapCopies(m2, parent, child);
    assert Up((ENTRIES + 1) * PGSIZE) == ENTRIES + 1;
    o := UvmCopy(vm, parent, child, (ENTRIES + 1) * PGSIZE);
    GapPanics(m2, parent, child, o);
  }

  lemma HalfUnmaps(m: Mem, parent: nat)
    requires Trees(m) && Half(m, parent)
    ensures parent in m.use && m.use[parent] == Root && OwnsPages(m, parent, 0, 1) && HasTables(m, parent, 0, 1)
  {
    hide Trees, Low, Lookup;
  }

  lemma GapCopies(m: Mem, parent: nat, child: nat)
    requires Trees(m) && Gap(m, parent, child)
    ensures parent in m.use && m.use[parent] == Root && child in m.use && m.use[child] == Root && parent != child
    ensures OwnsPages(m, parent, 0, ENTRIES + 1) && Vacant(m, child, 0, ENTRIES + 1)
  {
    hide Trees, Low, Lookup;
  }
}
