/**
 User memory (kernel/vm.c): unmapping, growing, shrinking, copying and freeing an
 address space, and moving bytes in and out of it.
 */
module UserMemory {
  import opened Blocks
  import opened FrameBudget
  import opened PageTable
  import opened VirtualMemory

  // ---------------------------------------------------------------- unmapping, as values

  /** Frame f is mapped at one of k pages of an address space. */
  predicate InRun(use: map<nat, Use>, f: nat, root: nat, first: nat, k: nat) {
    var s := Owner(use, f);
    s.Spot? && s.root == root && first <= s.vpn < first + k
  }

  /** k pages of a space are mapped no more; every other page, and every table, is as it was. */
  ghost predicate MapsGone(m: Mem, m': Mem, root: nat, first: nat, k: nat) {
    && Trees(m) && Trees(m')
    && (forall r :: r in m.use && m.use[r] == Root ==> r in m'.use && m'.use[r] == Root)
    && (forall r, v :: r in m.use && m.use[r] == Root && 0 <= v < MAXVPN ==>
          && Low(m', r, v) == Low(m, r, v)
          && Lookup(m', r, v) == if r == root && first <= v < first + k then EMPTY else Lookup(m, r, v))
  }

  /** The frames that were mapped there are free, or with nobody; the rest are as they were. */
  ghost predicate FramesGone(m: Mem, m': Mem, root: nat, first: nat, k: nat, doFree: bool) {
    && m'.use.Keys == m.use.Keys && m'.lo == m.lo && |m'.pages| == |m.pages|
    && (forall f: nat :: f in m.use ==>
          m'.use[f] == if InRun(m.use, f, root, first, k) then (if doFree then Free else Held) else m.use[f])
    && (forall f: nat ::
          f in m.use && f < |m.pages| && !IsTable(m, f) && !(doFree && InRun(m.use, f, root, first, k)) ==>
            m'.pages[f] == m.pages[f])
  }

  ghost predicate Unmapped(m: Mem, m': Mem, root: nat, first: nat, k: nat, doFree: bool) {
    MapsGone(m, m', root, first, k) && FramesGone(m, m', root, first, k, doFree)
  }

  lemma OwnerSame(use: map<nat, Use>, use': map<nat, Use>, f: nat)
    requires f in use && f in use' && use'[f] == use[f]
    requires forall t: nat :: t in use && use[t].Node? ==> t in use' && use'[t] == use[t]
    requires forall t: nat :: t in use' && use'[t].Node? ==> t in use && use[t].Node?
    ensures Owner(use', f) == Owner(use, f)
  {
  }

  lemma FramesGoneMore(m: Mem, m1: Mem, m2: Mem, root: nat, first: nat, k: nat, doFree: bool)
    requires FramesGone(m, m1, root, first, k, doFree) && FramesGone(m1, m2, root, first + k, 1, doFree)
    ensures FramesGone(m, m2, root, first, k + 1, doFree)
  {
    forall f: nat | f in m.use && !InRun(m.use, f, root, first, k) ensures Owner(m1.use, f) == Owner(m.use, f) {
      OwnerSame(m.use, m1.use, f);
    }
    forall f: nat | f in m.use && InRun(m.use, f, root, first, k) ensures Owner(m1.use, f) == Nowhere {
    }
    hide Owner;
    FramesGoneChain(m, m1, m2, root, first, k, doFree);
  }

  lemma FramesGoneChain(m: Mem, m1: Mem, m2: Mem, root: nat, first: nat, k: nat, doFree: bool)
    requires FramesGone(m, m1, root, first, k, doFree) && FramesGone(m1, m2, root, first + k, 1, doFree)
    requires forall f: nat :: f in m.use && !InRun(m.use, f, root, first, k) ==> Owner(m1.use, f) == Owner(m.use, f)
    requires forall f: nat :: f in m.use && InRun(m.use, f, root, first, k) ==> Owner(m1.use, f) == Nowhere
    ensures FramesGone(m, m2, root, first, k + 1, doFree)
  {
    hide Owner;
  }

  lemma MapsGoneMore(m: Mem, m1: Mem, m2: Mem, root: nat, first: nat, k: nat)
    requires MapsGone(m, m1, root, first, k) && MapsGone(m1, m2, root, first + k, 1)
    ensures MapsGone(m, m2, root, first, k + 1)
  {
    hide Trees, Lookup, Low;
  }

  lemma UnmappedNone(m: Mem, root: nat, first: nat, doFree: bool)
    requires Trees(m)
    ensures Unmapped(m, m, root, first, 0, doFree)
  {
  }

  /** A page that was not mapped has no frame to give up. */
  lemma UnmappedSkip(m: Mem, root: nat, vpn: nat, doFree: bool)
    requires Trees(m) && root in m.use && m.use[root] == Root && vpn < MAXVPN && !Lookup(m, root, vpn).v
    ensures Unmapped(m, m, root, vpn, 1, doFree)
  {
    forall f: nat | InRun(m.use, f, root, vpn, 1) ensures false {
      SpotHolds(m, root, vpn, f);
    }
    hide Trees, Low, Owner;
  }

  lemma ClearStep(m: Mem, head: nat, free: seq<nat>, root: nat, vpn: nat)
    requires Trees(m) && FreeList(m.pages, head, free, m.use) && root in m.use && m.use[root] == Root && vpn < MAXVPN
    requires Lookup(m, root, vpn).v
    ensures var t := Low(m, root, vpn);
            && t != 0 && t < |m.pages| && m.pages[t].Table? && |m.pages[t].ptes| == ENTRIES
            && m.pages[t].ptes[I0(vpn)] == Lookup(m, root, vpn)
            && var m' := Put(m, t, I0(vpn), EMPTY, Release(m, t, I0(vpn)));
            && Trees(m') && FreeList(m'.pages, head, free, m'.use) && OneEntry(m, m', t, I0(vpn), EMPTY)
  {
    var t := Low(m, root, vpn);
    MappedHasTable(m, root, vpn);
    LookupIs(m, root, vpn);
    InPool(m, t);
    hide Trees, FreeList, Low, Lookup, OneEntry;
    LeafCleared(m, t, I0(vpn));
    PutEntry(m, t, I0(vpn), EMPTY, Release(m, t, I0(vpn)));
    var m' := Put(m, t, I0(vpn), EMPTY, Release(m, t, I0(vpn)));
    ListKept(m.pages, m'.pages, head, free, m.use, m'.use);
  }

  /** Only the frame mapped at a page has that page for its spot. */
  lemma OnlySpot(m: Mem, root: nat, vpn: nat, f: nat)
    requires Trees(m) && root in m.use && m.use[root] == Root && vpn < MAXVPN && Lookup(m, root, vpn).v
    ensures InRun(m.use, f, root, vpn, 1) ==>
        f == Lookup(m, root, vpn).ppn
        && m.use[f] == User(Low(m, root, vpn), I0(vpn))
  {
    hide Trees, Low, Lookup, Owner;
    if InRun(m.use, f, root, vpn, 1) {
      SpotHolds(m, root, vpn, f);
    }
  }

  /** The frames after an entry was cleared. */
  lemma ClearFrames(m: Mem, m1: Mem, root: nat, vpn: nat)
    requires Trees(m) && root in m.use && m.use[root] == Root && vpn < MAXVPN && Lookup(m, root, vpn).v
    requires var t := Low(m, root, vpn);
             && t != 0 && t < |m.pages| && m.pages[t].Table? && |m.pages[t].ptes| == ENTRIES && IsTable(m, t)
             && m.pages[t].ptes[I0(vpn)] == Lookup(m, root, vpn)
                 && m1 == Put(m, t, I0(vpn), EMPTY, Release(m, t, I0(vpn)))
    ensures FramesGone(m, m1, root, vpn, 1, false)
  {
    var t, f := Low(m, root, vpn), Lookup(m, root, vpn).ppn;
    if f in m.use && m.use[f] == User(t, I0(vpn)) {
      SpotOf(m, root, vpn, f);
    }
    forall g: nat ensures InRun(m.use, g, root, vpn, 1) <==> g == f && g in m.use && m.use[g] == User(t, I0(vpn)) {
      OnlySpot(m, root, vpn, g);
    }
    hide Trees, Low, Lookup, Owner, InRun;
  }

  lemma GoneMaps(m: Mem, m1: Mem, m2: Mem, root: nat, vpn: nat)
    requires Trees(m) && root in m.use && m.use[root] == Root && vpn < MAXVPN && Low(m, root, vpn) != 0
    requires OneEntry(m, m1, Low(m, root, vpn), I0(vpn), EMPTY) && Trees(m1) && Trees(m2) && SameTables(m1, m2)
    ensures MapsGone(m, m2, root, vpn, 1)
  {
    hide Trees, Low, Lookup, OneEntry, SameTables, SameMaps;
    LeafMaps(m, m1, root, vpn, EMPTY);
    EntryRoots(m, m1, Low(m, root, vpn), I0(vpn), EMPTY);
    TablesMaps(m1, m2);
    GoneCompose(m, m1, m2, root, vpn);
  }

  lemma GoneCompose(m: Mem, m1: Mem, m2: Mem, root: nat, vpn: nat)
    requires Trees(m) && SameMaps(m1, m2)
    requires forall r :: r in m.use && m.use[r] == Root ==> r in m1.use && m1.use[r] == Root
    requires forall r, v :: r in m.use && m.use[r] == Root && 0 <= v < MAXVPN ==>
               && Low(m1, r, v) == Low(m, r, v)
               && Lookup(m1, r, v) == if (r, v) == (root, vpn) then EMPTY else Lookup(m, r, v)
    requires forall r, v :: r in m1.use && m1.use[r] == Root && 0 <= v < MAXVPN ==> Low(m2, r, v) == Low(m1, r, v)
    ensures MapsGone(m, m2, root, vpn, 1)
  {
    hide Trees, Low, Lookup;
    forall r, v | r in m.use && m.use[r] == Root && 0 <= v < MAXVPN
      ensures Low(m2, r, v) == Low(m, r, v)
      ensures Lookup(m2, r, v) == if r == root && vpn <= v < vpn + 1 then EMPTY else Lookup(m, r, v)
    {
      assert Low(m1, r, v) == Low(m, r, v);
      assert Lookup(m2, r, v) == Lookup(m1, r, v);
    }
  }

  lemma GoneFrames(m: Mem, m1: Mem, m2: Mem, root: nat, vpn: nat, f: nat, p: Page)
    requires FramesGone(m, m1, root, vpn, 1, false) && InRun(m.use, f, root, vpn, 1) && f in m.use && f < |m.pages|
    requires forall g: nat :: InRun(m.use, g, root, vpn, 1) ==> g == f
    requires m2 == Mem(m1.lo, m1.pages[f := p], m1.use[f := Free])
    ensures FramesGone(m, m2, root, vpn, 1, true)
  {
    hide InRun;
  }

  method UnmapOne(vm: Vm, root: nat, vpn: nat, doFree: bool) returns (o: Outcome)
    requires vm.Valid() && root in vm.use && vm.use[root] == Root
    requires doFree && vpn < MAXVPN ==> OwnsPage(Mem(vm.lo, vm.pages, vm.use), root, vpn)
    modifies vm`pages, vm`freelist, vm`use, vm`free
    ensures vm.Valid() && root in vm.use && vm.use[root] == Root
    ensures o == if vpn >= MAXVPN || Low(old(Mem(vm.lo, vm.pages, vm.use)), root, vpn) == 0 then Panic else Done
    ensures o == Panic ==> vm.pages == old(vm.pages) && vm.use == old(vm.use) && vm.free == old(vm.free)
    ensures o == Done ==> Unmapped(old(Mem(vm.lo, vm.pages, vm.use)), Mem(vm.lo, vm.pages, vm.use), root, vpn, 1,
                                   doFree)
    ensures o == Done ==> vm.free == Returned(old(Mem(vm.lo, vm.pages, vm.use)), root, vpn, doFree) + old(vm.free)
  {
    hide Trees, FreeList, Lookup, Low, Unmapped, Owner, OneEntry, FramesGone, MapsGone, SameTables;
    ghost var m := Mem(vm.lo, vm.pages, vm.use);
    if vpn >= MAXVPN {
      return Panic;
    }
    var t := vm.Walk(root, vpn, false);
    if t == 0 {
      return Panic;
    }
    LookupIs(m, root, vpn);
    InPool(m, t);
    var pte := vm.pages[t].ptes[I0(vpn)];
    if !pte.v {
      UnmappedSkip(m, root, vpn, doFree);
      return Done;
    }
    ClearEntry(vm, root, vpn, t, doFree);
    o := Done;
  }

  /** The frame that unmapping a page returns, if any. */
  ghost function Returned(m: Mem, root: nat, vpn: nat, doFree: bool): seq<nat>
    requires Trees(m) && root in m.use && m.use[root] == Root && vpn < MAXVPN
  {
    if doFree && Lookup(m, root, vpn).v then [Lookup(m, root, vpn).ppn] else []
  }

  /** The page is not mapped, or to a frame of its own. */
  ghost predicate OwnsPage(m: Mem, root: nat, vpn: nat)
    requires Trees(m) && root in m.use && m.use[root] == Root && vpn < MAXVPN
  {
    Lookup(m, root, vpn).v ==> Owner(m.use, Lookup(m, root, vpn).ppn) == Spot(root, vpn)
  }

  method ClearEntry(vm: Vm, ghost root: nat, vpn: nat, t: nat, doFree: bool)
    requires vm.Valid() && root in vm.use && vm.use[root] == Root && vpn < MAXVPN
    requires Lookup(Mem(vm.lo, vm.pages, vm.use), root, vpn).v && t == Low(Mem(vm.lo, vm.pages, vm.use), root, vpn)
    requires doFree ==> OwnsPage(Mem(vm.lo, vm.pages, vm.use), root, vpn)
    modifies vm`pages, vm`freelist, vm`use, vm`free
    ensures vm.Valid() && root in vm.use && vm.use[root] == Root
    ensures Unmapped(old(Mem(vm.lo, vm.pages, vm.use)), Mem(vm.lo, vm.pages, vm.use), root, vpn, 1, doFree)
    ensures vm.free == Returned(old(Mem(vm.lo, vm.pages, vm.use)), root, vpn, doFree) + old(vm.free)
  {
    hide Trees, FreeList, Lookup, Low, Owner, OneEntry, FramesGone, MapsGone, SameTables;
    ghost var m, free := Mem(vm.lo, vm.pages, vm.use), vm.free;
    MappedHasTable(m, root, vpn);
    LowTable(m, root, vpn);
    InPool(m, t);
    ClearStep(m, vm.freelist, vm.free, root, vpn);
    ghost var m1 := Put(m, t, I0(vpn), EMPTY, Release(m, t, I0(vpn)));
    ClearFrames(m, m1, root, vpn);
    EntryRoots(m, m1, t, I0(vpn), EMPTY);
    var f := vm.pages[t].ptes[I0(vpn)].ppn;
    if doFree {
      OwnedFrame(m, root, vpn);
      FreedPage(m, m1, vm.freelist, vm.free, root, vpn, f);
      var ok := vm.Kfree(f);
      assert ok;
    } else {
      SelfTables(m1);
      GoneMaps(m, m1, m1, root, vpn);
    }
    vm.pages := vm.pages[t := Table(vm.pages[t].ptes[I0(vpn) := EMPTY])];
    vm.use := if doFree then m1.use[f := Free] else m1.use;
    vm.free := Returned(m, root, vpn, doFree) + free;
    assert [] + free == free;
    assert doFree ==> vm.pages == m1.pages[f := Run(old(vm.freelist))];
  }

  lemma SelfTables(m: Mem)
    requires Trees(m)
    ensures SameTables(m, m)
  {
  }

  lemma OwnedFrame(m: Mem, root: nat, vpn: nat)
    requires Trees(m) && root in m.use && m.use[root] == Root && vpn < MAXVPN && Lookup(m, root, vpn).v
    requires OwnsPage(m, root, vpn)
    ensures var f := Lookup(m, root, vpn).ppn;
            f in m.use && m.lo <= f < |m.pages| && m.use[f] == User(Low(m, root, vpn), I0(vpn))
                && InRun(m.use, f, root, vpn, 1)
  {
    hide Trees, Low, Lookup, Owner;
    SpotHolds(m, root, vpn, Lookup(m, root, vpn).ppn);
    InPool(m, Lookup(m, root, vpn).ppn);
  }

  /** Clearing the entry of a page and freeing its frame. */
  lemma FreedPage(m: Mem, m1: Mem, head: nat, free: seq<nat>, root: nat, vpn: nat, f: nat)
    requires Trees(m) && root in m.use && m.use[root] == Root && vpn < MAXVPN && Lookup(m, root, vpn).v
    requires f == Lookup(m, root, vpn).ppn
    requires var t := Low(m, root, vpn);
             && t != 0 && t < |m.pages| && m.pages[t].Table? && |m.pages[t].ptes| == ENTRIES && IsTable(m, t)
             && m.pages[t].ptes[I0(vpn)] == Lookup(m, root, vpn)
                 && m1 == Put(m, t, I0(vpn), EMPTY, Release(m, t, I0(vpn)))
             && OneEntry(m, m1, t, I0(vpn), EMPTY) && f in m.use && f < |m.pages| && m.use[f] == User(t, I0(vpn))
    requires Trees(m1) && FreeList(m1.pages, head, free, m1.use) && FramesGone(m, m1, root, vpn, 1, false)
    requires InRun(m.use, f, root, vpn, 1)
    ensures var m2 := Mem(m1.lo, m1.pages[f := Run(head)], m1.use[f := Free]);
            Trees(m2) && FreeList(m2.pages, f, [f] + free, m2.use) && Unmapped(m, m2, root, vpn, 1, true)
  {
    var m2 := Mem(m1.lo, m1.pages[f := Run(head)], m1.use[f := Free]);
    RunIsOk(head);
    hide Trees, FreeList, Lookup, Low, Owner, OneEntry, FramesGone, MapsGone, SameTables, PageOk;
    PageChanges(m1, f, Run(head), Free);
    ListPush(m1.pages, head, free, m1.use, f);
    GoneMaps(m, m1, m2, root, vpn);
    forall g: nat | InRun(m.use, g, root, vpn, 1) ensures g == f {
      OnlySpot(m, root, vpn, g);
    }
    GoneFrames(m, m1, m2, root, vpn, f, Run(head));
  }

  lemma RunIsOk(head: nat)
    ensures PageOk(Free, Run(head))
  {
  }

  // ---------------------------------------------------------------- a run of pages

  /** Every page of a range below MAXVA is not mapped, or to a frame of its own. */
  ghost predicate OwnsPages(m: Mem, root: nat, first: nat, n: nat)
    requires Trees(m) && root in m.use && m.use[root] == Root
  {
    forall v :: first <= v < first + n && v < MAXVPN ==> OwnsPage(m, root, v)
  }

  /** Every page of a range is below MAXVA and has a level-0 table. */
  ghost predicate HasTables(m: Mem, root: nat, first: nat, n: nat)
    requires Trees(m) && root in m.use && m.use[root] == Root
  {
    && (n > 0 ==> first + n <= MAXVPN)
    && forall v :: first <= v < first + n ==> Low(m, root, v) != 0
  }

  lemma OwnsRest(m: Mem, m': Mem, root: nat, first: nat, k: nat, n: nat, doFree: bool)
    requires Unmapped(m, m', root, first, k, doFree) && root in m.use && m.use[root] == Root && root in m'.use
    requires m'.use[root] == Root
    requires OwnsPages(m, root, first, n) && k < n && first + k < MAXVPN
    ensures OwnsPage(m', root, first + k)
  {
    hide Trees, Lookup, Low;
    var v := first + k;
    assert Lookup(m', root, v) == Lookup(m, root, v);
    assert OwnsPage(m, root, v);
    if Lookup(m, root, v).v {
      var f := Lookup(m, root, v).ppn;
      OwnerSame(m.use, m'.use, f);
    }
  }

  /** uvmunmap: panics exactly if a page of the range has no level-0 table. */
  method UvmUnmap(vm: Vm, root: nat, va: nat, n: nat, doFree: bool) returns (o: Outcome, ghost k: nat)
    requires vm.Valid() && root in vm.use && vm.use[root] == Root
    requires doFree ==> OwnsPages(Mem(vm.lo, vm.pages, vm.use), root, va / PGSIZE, n)
    modifies vm`pages, vm`freelist, vm`use, vm`free
    ensures vm.Valid() && root in vm.use && vm.use[root] == Root && k <= n
    ensures Unmapped(old(Mem(vm.lo, vm.pages, vm.use)), Mem(vm.lo, vm.pages, vm.use), root, va / PGSIZE, k, doFree)
    ensures var m := old(Mem(vm.lo, vm.pages, vm.use));
            o == if va % PGSIZE == 0 && HasTables(m, root, va / PGSIZE, n) then Done else Panic
    ensures o == Done ==> k == n
  {
    hide Trees, FreeList, Lookup, Low, Unmapped, Owner, OwnsPage;
    ghost var m := Mem(vm.lo, vm.pages, vm.use);
    k := 0;
    UnmappedNone(m, root, va / PGSIZE, doFree);
    if va % PGSIZE != 0 {
      return Panic, 0;
    }
    var a := va / PGSIZE;
    var first := a;
    while a < first + n
      invariant first <= a <= first + n && k == a - first && vm.Valid() && root in vm.use && vm.use[root] == Root
      invariant Unmapped(m, Mem(vm.lo, vm.pages, vm.use), root, first, k, doFree)
      invariant HasTables(m, root, first, k)
    {
      ghost var m1 := Mem(vm.lo, vm.pages, vm.use);
      if doFree && a < MAXVPN {
        OwnsRest(m, m1, root, first, k, n, doFree);
      }
      UnmappedLow(m, m1, root, first, k, doFree);
      o := UnmapOne(vm, root, a, doFree);
      if o == Panic {
        return;
      }
      UnmappedMore(m, m1, Mem(vm.lo, vm.pages, vm.use), root, first, k, doFree);
      k, a := k + 1, a + 1;
    }
    o := Done;
  }

  lemma UnmappedLow(m: Mem, m': Mem, root: nat, first: nat, k: nat, doFree: bool)
    requires Unmapped(m, m', root, first, k, doFree) && root in m.use && m.use[root] == Root
    ensures root in m'.use && m'.use[root] == Root
    ensures forall v :: 0 <= v < MAXVPN ==> Low(m', root, v) == Low(m, root, v)
  {
    hide Trees, Lookup, Low;
  }

  lemma UnmappedMore(m: Mem, m1: Mem, m2: Mem, root: nat, first: nat, k: nat, doFree: bool)
    requires Unmapped(m, m1, root, first, k, doFree) && Unmapped(m1, m2, root, first + k, 1, doFree)
    ensures Unmapped(m, m2, root, first, k + 1, doFree)
  {
    hide MapsGone, FramesGone;
    MapsGoneMore(m, m1, m2, root, first, k);
    FramesGoneMore(m, m1, m2, root, first, k, doFree);
  }

  // ---------------------------------------------------------------- filling pages, as values

  /** What a page is to hold: nothing, or a page of bytes with permissions. */
  datatype Want = Nothing | Want(perm: Perm, page: Page)

  ghost predicate PageFilled(m: Mem, m': Mem, root: nat, v: nat, w: Want)
    requires Trees(m') && root in m'.use && m'.use[root] == Root && v < MAXVPN
  {
    var e := Lookup(m', root, v);
    match w
    case Nothing => !e.v
    case Want(perm, page) =>
      && e.v && e.perm == perm && e.ppn in m.use && m.use[e.ppn] == Free
      && Owner(m'.use, e.ppn) == Spot(root, v) && e.ppn < |m'.pages| && m'.pages[e.ppn] == page
  }

  /** Pages from first on hold what was wanted, on frames that were free; the rest of every map is as it was. */
  ghost predicate MapsFilled(m: Mem, m': Mem, root: nat, first: nat, ws: seq<Want>) {
    && Trees(m) && Trees(m') && root in m'.use && m'.use[root] == Root && first + |ws| <= MAXVPN
    && (forall r :: r in m.use && m.use[r] == Root ==> r in m'.use && m'.use[r] == Root)
    && (forall r, v ::
          r in m.use && m.use[r] == Root && 0 <= v < MAXVPN && !(r == root && first <= v < first + |ws|) ==>
            Lookup(m', r, v) == Lookup(m, r, v))
    && (forall v :: first <= v < first + |ws| ==> FilledAt(m, m', root, first, ws, v))
  }

  ghost predicate FilledAt(m: Mem, m': Mem, root: nat, first: nat, ws: seq<Want>, v: nat)
    requires Trees(m') && root in m'.use && m'.use[root] == Root && first <= v < first + |ws| && v < MAXVPN
  {
    PageFilled(m, m', root, v, ws[v - first])
  }

  /** Frames in use are as they were; free ones are free, or tables, or mapped at those pages. */
  ghost predicate FramesFilled(m: Mem, m': Mem, root: nat, first: nat, n: nat) {
    && m'.use.Keys == m.use.Keys && m'.lo == m.lo && |m'.pages| == |m.pages|
    && (forall f: nat :: f in m.use && m.use[f] != Free ==> m'.use[f] == m.use[f])
    && (forall f: nat :: f in m.use && f < |m.pages| && m.use[f] != Free && !IsTable(m, f) ==>
        m'.pages[f] == m.pages[f])
    && (forall f: nat :: f in m.use && m.use[f] == Free ==>
          m'.use[f] == Free || m'.use[f].Node? || InRun(m'.use, f, root, first, n))
  }

  ghost predicate Filled(m: Mem, m': Mem, root: nat, first: nat, ws: seq<Want>) {
    MapsFilled(m, m', root, first, ws) && FramesFilled(m, m', root, first, |ws|)
  }

  lemma FilledNone(m: Mem, root: nat, first: nat)
    requires Trees(m) && root in m.use && m.use[root] == Root && first <= MAXVPN
    ensures Filled(m, m, root, first, [])
  {
  }

  /** A page that is to stay unmapped. */
  lemma FilledSkip(m: Mem, root: nat, vpn: nat)
    requires Trees(m) && root in m.use && m.use[root] == Root && vpn < MAXVPN && !Lookup(m, root, vpn).v
    ensures Filled(m, m, root, vpn, [Nothing])
  {
    hide Lookup;
    assert FilledAt(m, m, root, vpn, [Nothing], vpn);
  }

  lemma FramesFilledMore(m: Mem, m1: Mem, m2: Mem, root: nat, first: nat, k: nat)
    requires FramesFilled(m, m1, root, first, k) && FramesFilled(m1, m2, root, first + k, 1)
    ensures FramesFilled(m, m2, root, first, k + 1)
    ensures forall f: nat :: f in m.use && m1.use[f].User? ==>
        Owner(m2.use, f) == Owner(m1.use, f)
        || Owner(m1.use, f) == Nowhere
  {
    forall f: nat | f in m.use && m1.use[f].User?
        && Owner(m1.use, f) != Nowhere ensures Owner(m2.use, f) == Owner(m1.use, f) {
      FilledOwner(m1, m2, root, first + k, 1, f);
    }
    forall f: nat | f in m.use && f < |m.pages| && m.use[f] != Free
        && !IsTable(m, f) ensures m2.pages[f] == m.pages[f] {
      assert m1.use[f] == m.use[f] && m1.pages[f] == m.pages[f];
    }
    forall f: nat | f in m.use && m.use[f] == Free
      ensures m2.use[f] == Free || m2.use[f].Node? || InRun(m2.use, f, root, first, k + 1)
    {
      if InRun(m1.use, f, root, first, k) {
        FilledOwner(m1, m2, root, first + k, 1, f);
      }
    }
  }

  lemma FilledOwner(m: Mem, m': Mem, root: nat, first: nat, k: nat, f: nat)
    requires FramesFilled(m, m', root, first, k) && Owner(m.use, f) != Nowhere
    ensures Owner(m'.use, f) == Owner(m.use, f)
  {
  }

  lemma MapsFilledMore(m: Mem, m1: Mem, m2: Mem, root: nat, first: nat, ws: seq<Want>, w: Want)
    requires MapsFilled(m, m1, root, first, ws) && MapsFilled(m1, m2, root, first + |ws|, [w])
    requires FramesFilled(m, m1, root, first, |ws|) && FramesFilled(m1, m2, root, first + |ws|, 1)
    requires root in m.use && m.use[root] == Root
    ensures MapsFilled(m, m2, root, first, ws + [w])
  {
    hide Trees, Lookup, Owner;
    var ws' := ws + [w];
    forall v | first <= v < first + |ws'| ensures FilledAt(m, m2, root, first, ws', v) {
      if v < first + |ws| {
        assert FilledAt(m, m1, root, first, ws, v);
        assert Lookup(m2, root, v) == Lookup(m1, root, v);
        if ws[v - first].Want? {
          FilledPage(m1, m2, root, first + |ws|, 1, Lookup(m1, root, v).ppn, root, v);
        }
      } else {
        assert FilledAt(m1, m2, root, first + |ws|, [w], v);
        FreedBefore(m, m1, root, first, |ws|, m2, v);
      }
    }
  }

  /** A user page keeps its bytes and its spot. */
  lemma FilledPage(m: Mem, m': Mem, root: nat, first: nat, k: nat, f: nat, r: nat, v: nat)
    requires FramesFilled(m, m', root, first, k) && Owner(m.use, f) == Spot(r, v) && f < |m.pages|
    ensures Owner(m'.use, f) == Spot(r, v) && m'.pages[f] == m.pages[f]
  {
    FilledOwner(m, m', root, first, k, f);
  }

  /** A frame that was free after some pages were filled was free before. */
  lemma FreedBefore(m: Mem, m1: Mem, root: nat, first: nat, k: nat, m2: Mem, v: nat)
    requires FramesFilled(m, m1, root, first, k)
    ensures forall f: nat :: f in m1.use && m1.use[f] == Free ==> f in m.use && m.use[f] == Free
  {
  }

  lemma FilledMore(m: Mem, m1: Mem, m2: Mem, root: nat, first: nat, ws: seq<Want>, w: Want)
    requires Filled(m, m1, root, first, ws) && Filled(m1, m2, root, first + |ws|, [w]) && root in m.use
    requires m.use[root] == Root
    ensures Filled(m, m2, root, first, ws + [w])
  {
    hide MapsFilled, FramesFilled;
    MapsFilledMore(m, m1, m2, root, first, ws, w);
    FramesFilledMore(m, m1, m2, root, first, |ws|);
  }

  /** Every map and every frame in use is as it was; some free frames may have become page tables. */
  ghost predicate Restored(m: Mem, m': Mem) {
    SameMaps(m, m') && FramesKept(m, m')
  }

  lemma FilledRestored(m: Mem, m1: Mem, m2: Mem, root: nat, first: nat, ws: seq<Want>)
    requires Filled(m, m1, root, first, ws) && Restored(m1, m2)
    ensures Filled(m, m2, root, first, ws)
  {
    hide Trees, Lookup, FilledAt, FramesFilled, FramesKept;
    RestoredFrames(m, m1, m2, root, first, |ws|);
    forall v | first <= v < first + |ws| ensures FilledAt(m, m2, root, first, ws, v) {
      RestoredAt(m, m1, m2, root, first, ws, v);
    }
    RestoredRest(m, m1, m2, root, first, ws);
  }

  lemma RestoredRest(m: Mem, m1: Mem, m2: Mem, root: nat, first: nat, ws: seq<Want>)
    requires MapsFilled(m, m1, root, first, ws) && SameMaps(m1, m2)
    ensures forall r :: r in m.use && m.use[r] == Root ==> r in m2.use && m2.use[r] == Root
    ensures forall r, v ::
              r in m.use && m.use[r] == Root && 0 <= v < MAXVPN && !(r == root && first <= v < first + |ws|) ==>
                Lookup(m2, r, v) == Lookup(m, r, v)
  {
    hide Trees, Lookup, FilledAt;
  }

  lemma RestoredAt(m: Mem, m1: Mem, m2: Mem, root: nat, first: nat, ws: seq<Want>, v: nat)
    requires MapsFilled(m, m1, root, first, ws) && SameMaps(m1, m2) && FramesKept(m1, m2) && first <= v < first + |ws|
    ensures root in m2.use && m2.use[root] == Root && FilledAt(m, m2, root, first, ws, v)
  {
    hide Trees, Lookup, Owner;
    assert FilledAt(m, m1, root, first, ws, v);
    if ws[v - first].Want? {
      KeptPage(m1, m2, Lookup(m1, root, v).ppn);
    }
  }

  lemma KeptPage(m: Mem, m': Mem, f: nat)
    requires FramesKept(m, m') && Owner(m.use, f) != Nowhere && f < |m.pages|
    ensures Owner(m'.use, f) == Owner(m.use, f) && m'.pages[f] == m.pages[f]
  {
  }

  lemma RestoredFrames(m: Mem, m1: Mem, m2: Mem, root: nat, first: nat, n: nat)
    requires FramesFilled(m, m1, root, first, n) && FramesKept(m1, m2)
    ensures FramesFilled(m, m2, root, first, n)
  {
    forall f: nat | f in m.use && f < |m.pages| && m.use[f] != Free
        && !IsTable(m, f) ensures m2.pages[f] == m.pages[f] {
      assert m1.use[f] == m.use[f] && m1.pages[f] == m.pages[f];
    }
    forall f: nat | f in m.use && m.use[f] == Free ensures m2.use[f] == Free || m2.use[f].Node?
        || InRun(m2.use, f, root, first, n) {
    }
  }

  /** The frames of filled pages are the pages' own. */
  lemma FilledOwns(m: Mem, m': Mem, root: nat, first: nat, ws: seq<Want>)
    requires Filled(m, m', root, first, ws)
    ensures OwnsPages(m', root, first, |ws|)
    ensures (forall w :: w in ws ==> w.Want?) ==> HasTables(m', root, first, |ws|)
  {
    hide Trees, Lookup, Owner, FramesFilled, Low;
    forall v | first <= v < first + |ws| && v < MAXVPN ensures OwnsPage(m', root, v) {
      assert FilledAt(m, m', root, first, ws, v);
    }
    if forall w :: w in ws ==> w.Want? {
      forall v | first <= v < first + |ws| ensures v < MAXVPN && Low(m', root, v) != 0 {
        assert FilledAt(m, m', root, first, ws, v) && ws[v - first] in ws;
        MappedHasTable(m', root, v);
      }
    }
  }

  /** Unmapping what was filled brings back every map and every frame but those of page tables. */
  lemma Undone(m: Mem, m1: Mem, m2: Mem, root: nat, first: nat, ws: seq<Want>)
    requires Filled(m, m1, root, first, ws) && Unmapped(m1, m2, root, first, |ws|, true) && Trees(m) && Trees(m1)
    requires root in m.use && m.use[root] == Root
    requires forall v :: first <= v < first + |ws| && v < MAXVPN ==> !Lookup(m, root, v).v
    ensures Restored(m, m2)
  {
    hide Trees, FramesFilled, FramesGone, FramesKept, Low, Lookup, MapsGone, MapsFilled;
    FilledRange(m, m1, root, first, ws);
    UndoneFrames(m, m1, m2, root, first, |ws|);
    UndoneMaps(m, m1, m2, root, first, ws);
  }

  lemma UndoneMaps(m: Mem, m1: Mem, m2: Mem, root: nat, first: nat, ws: seq<Want>)
    requires MapsFilled(m, m1, root, first, ws) && MapsGone(m1, m2, root, first, |ws|)
    requires root in m.use && m.use[root] == Root
    requires forall v :: first <= v < first + |ws| ==> !Lookup(m, root, v).v
    ensures SameMaps(m, m2)
  {
    hide Trees, Low, Lookup, FilledAt;
    forall r, v | r in m.use && m.use[r] == Root && 0 <= v < MAXVPN ensures Lookup(m2, r, v) == Lookup(m, r, v) {
      if r == root && first <= v < first + |ws| {
        InvalidIsEmpty(m, r, v);
      }
    }
  }

  lemma InvalidIsEmpty(m: Mem, r: nat, v: nat)
    requires Trees(m) && r in m.use && m.use[r] == Root && v < MAXVPN && !Lookup(m, r, v).v
    ensures Lookup(m, r, v) == EMPTY
  {
  }

  lemma UndoneFrames(m: Mem, m1: Mem, m2: Mem, root: nat, first: nat, n: nat)
    requires FramesFilled(m, m1, root, first, n) && FramesGone(m1, m2, root, first, n, true) && Trees(m) && Trees(m1)
    requires root in m.use && m.use[root] == Root && forall v :: first <= v < first + n && v < MAXVPN ==>
        !Lookup(m, root, v).v
    requires first + n <= MAXVPN
    ensures FramesKept(m, m2)
  {
    hide Owner, InRun, Trees, Lookup;
    forall f: nat | f in m.use && m.use[f] != Free ensures !InRun(m1.use, f, root, first, n) {
      NotBefore(m, m1, root, first, n, f);
    }
    forall f: nat | f in m.use && f < |m.pages| && m.use[f] != Free
        && !IsTable(m, f) ensures m2.pages[f] == m.pages[f] {
      assert m1.use[f] == m.use[f] && m1.pages[f] == m.pages[f];
    }
  }

  /** A frame in use before was not mapped at a page that had no mapping. */
  lemma NotBefore(m: Mem, m1: Mem, root: nat, first: nat, n: nat, f: nat)
    requires FramesFilled(m, m1, root, first, n) && Trees(m) && Trees(m1) && f in m.use && m.use[f] != Free
    requires root in m.use && m.use[root] == Root && forall v :: first <= v < first + n && v < MAXVPN ==>
        !Lookup(m, root, v).v
    requires first + n <= MAXVPN
    ensures !InRun(m1.use, f, root, first, n)
  {
    if m.use[f].User? {
      HasSpot(m, f);
      FilledOwner(m, m1, root, first, n, f);
      hide Trees, Lookup, Owner, Low;
      if InRun(m.use, f, root, first, n) {
        SpotHolds(m, root, Owner(m.use, f).vpn, f);
      }
    }
  }

  lemma HasSpot(m: Mem, f: nat)
    requires Trees(m) && f in m.use && m.use[f].User?
    ensures Owner(m.use, f) != Nowhere
  {
    assert UseRight(m, f);
    assert UseRight(m, m.use[f].parent);
  }

  // ---------------------------------------------------------------- growing and copying

  const RWXU: Perm := Perm(true, true, true, true)

  predicate IsPage(p: Page) {
    p.Data? && |p.bytes| == PGSIZE
  }

  /** A new frame holding a page, mapped at a page that had no mapping; or, out of memory, nothing. */
  method FillOne(vm: Vm, root: nat, vpn: nat, perm: Perm, page: Page) returns (ok: bool)
    requires vm.Valid() && root in vm.use && vm.use[root] == Root && vpn < MAXVPN && IsPage(page) && Leafy(perm)
    requires !Lookup(Mem(vm.lo, vm.pages, vm.use), root, vpn).v
    modifies vm`pages, vm`freelist, vm`use, vm`free
    ensures vm.Valid() && root in vm.use && vm.use[root] == Root
    ensures ok ==> Filled(old(Mem(vm.lo, vm.pages, vm.use)), Mem(vm.lo, vm.pages, vm.use), root, vpn,
                          [Want(perm, page)])
    ensures !ok ==> Restored(old(Mem(vm.lo, vm.pages, vm.use)), Mem(vm.lo, vm.pages, vm.use))
    ensures ok == (|old(vm.free)| > Missing(old(Mem(vm.lo, vm.pages, vm.use)), root, vpn))
    ensures ok ==> |vm.free| == |old(vm.free)| - 1 - Missing(old(Mem(vm.lo, vm.pages, vm.use)), root, vpn)
    ensures Grew(old(Mem(vm.lo, vm.pages, vm.use)), Mem(vm.lo, vm.pages, vm.use), root, vpn, ok)
  {
    ghost var m := Mem(vm.lo, vm.pages, vm.use);
    hide Trees, FreeList, Lookup, Filled, Restored, SameTables, Suffix, Junk, Grew, Missing, Low, Takes, MayMap;
    GrewNone(m, root, vpn);
    RestoredSelf(m);
    var mem := TakePage(vm, root, vpn, perm, page);
    if mem == 0 {
      return false;
    }
    ok := MapNew(vm, root, vpn, perm, page, mem, m);
  }

  /** A frame off the free list, with a page written to it; 0 if there is none. */
  method TakePage(vm: Vm, ghost root: nat, ghost vpn: nat, ghost perm: Perm, page: Page) returns (mem: nat)
    requires vm.Valid() && root in vm.use && vm.use[root] == Root && vpn < MAXVPN && IsPage(page) && Leafy(perm)
    requires !Lookup(Mem(vm.lo, vm.pages, vm.use), root, vpn).v
    modifies vm`pages, vm`freelist, vm`use, vm`free
    ensures vm.Valid() && root in vm.use && vm.use[root] == Root
    ensures mem == 0 ==> old(vm.free) == [] && Mem(vm.lo, vm.pages, vm.use) == old(Mem(vm.lo, vm.pages, vm.use))
    ensures mem != 0 ==>
              && Takes(old(Mem(vm.lo, vm.pages, vm.use)), Mem(vm.lo, vm.pages, vm.use), mem) && vm.pages[mem] == page
              && MayMap(Mem(vm.lo, vm.pages, vm.use), Pte(true, perm, mem), true)
              && !Lookup(Mem(vm.lo, vm.pages, vm.use), root, vpn).v && |old(vm.free)| == |vm.free| + 1
  {
    hide Trees, FreeList, Lookup, SameTables, Junk, MayMap, SameMaps;
    ghost var m := Mem(vm.lo, vm.pages, vm.use);
    mem := vm.Kalloc();
    if mem != 0 {
      ghost var m1 := Mem(vm.lo, vm.pages, vm.use);
      SetPage(m, m1, vm.freelist, vm.free, mem, Junk(5), page, root, vpn, perm);
      vm.pages := vm.pages[mem := page];
      assert vm.use == m1.use[mem := Held];
    }
  }

  /** mappages for one page that has no mapping. */
  method MapPage(vm: Vm, root: nat, vpn: nat, perm: Perm, mem: nat) returns (ok: bool)
    requires vm.Valid() && root in vm.use && vm.use[root] == Root && vpn < MAXVPN
    requires MayMap(Mem(vm.lo, vm.pages, vm.use), Pte(true, perm, mem), true)
    requires !Lookup(Mem(vm.lo, vm.pages, vm.use), root, vpn).v
    modifies vm`pages, vm`freelist, vm`use, vm`free
    ensures vm.Valid() && root in vm.use && vm.use[root] == Root
    ensures MapRun(old(Mem(vm.lo, vm.pages, vm.use)), Mem(vm.lo, vm.pages, vm.use), root, vpn, if ok then 1 else 0, mem,
                   perm, true)
    ensures NewOnPath(old(vm.use), vm.use, root, vpn, 1) && Suffix(old(vm.free), vm.free)
    ensures Low(Mem(vm.lo, vm.pages, vm.use), root, vpn) != 0 <==> ok
    ensures !ok ==> vm.free == []
  {
    hide Trees, FreeList, Lookup, MapRun, Suffix, NewOnPath, Low, MayMap;
    ghost var m2 := Mem(vm.lo, vm.pages, vm.use);
    OnePage(vpn);
    var o;
    ghost var k;
    o, k := vm.MapPages(root, vpn * PGSIZE, PGSIZE, mem, perm, true);
    ok := o == Done;
    if ok {
      RunTable(m2, Mem(vm.lo, vm.pages, vm.use), root, vpn, mem, perm);
    }
  }

  /** Maps a frame that holds a page, or gives it back if there is no memory for the tables. */
  method MapNew(vm: Vm, root: nat, vpn: nat, perm: Perm, page: Page, mem: nat, ghost m: Mem) returns (ok: bool)
    requires vm.Valid() && root in vm.use && vm.use[root] == Root && vpn < MAXVPN
    requires Takes(m, Mem(vm.lo, vm.pages, vm.use), mem) && vm.pages[mem] == page
    requires root in m.use && m.use[root] == Root
    requires MayMap(Mem(vm.lo, vm.pages, vm.use), Pte(true, perm, mem), true)
    requires !Lookup(Mem(vm.lo, vm.pages, vm.use), root, vpn).v
    modifies vm`pages, vm`freelist, vm`use, vm`free
    ensures vm.Valid() && root in vm.use && vm.use[root] == Root
    ensures ok ==> Filled(m, Mem(vm.lo, vm.pages, vm.use), root, vpn, [Want(perm, page)])
    ensures !ok ==> Restored(m, Mem(vm.lo, vm.pages, vm.use))
    ensures ok == (|old(vm.free)| >= Missing(m, root, vpn))
    ensures ok ==> |vm.free| == |old(vm.free)| - Missing(m, root, vpn)
    ensures Grew(m, Mem(vm.lo, vm.pages, vm.use), root, vpn, ok)
  {
    ghost var m2, free2 := Mem(vm.lo, vm.pages, vm.use), vm.free;
    ListFree(vm.pages, vm.freelist, vm.free, vm.use);
    hide Trees, FreeList, Lookup, MapRun, Filled, Restored, SameTables, Suffix, Grew, NewOnPath, Missing, ListsFree,
        Low, TablesStay, MayMap, IsTable;
    TakesFree(m, m2, mem);
    hide Takes;
    ok := MapPage(vm, root, vpn, perm, mem);
    ghost var m3 := Mem(vm.lo, vm.pages, vm.use);
    ListFree(vm.pages, vm.freelist, vm.free, vm.use);
    FillTables(m, m2, m3, root, vpn, mem, perm, free2, vm.free, ok);
    if ok {
      FillDone(m, m2, m3, root, vpn, mem, perm, page);
    } else {
      GiveUp(vm, root, vpn, perm, mem, m, m2);
    }
  }

  /** The failure path of mapping one frame: the frame goes back. */
  method GiveUp(vm: Vm, ghost root: nat, ghost vpn: nat, ghost perm: Perm, mem: nat, ghost m: Mem, ghost m2: Mem)
    requires vm.Valid() && root in vm.use && vm.use[root] == Root && vpn < MAXVPN
    requires root in m.use && m.use[root] == Root
    requires Takes(m, m2, mem) && MapRun(m2, Mem(vm.lo, vm.pages, vm.use), root, vpn, 0, mem, perm, true)
    requires TablesStay(m.use, vm.use) && NewOnPath(m.use, vm.use, root, vpn, 1)
    requires !IsTable(Mem(vm.lo, vm.pages, vm.use), mem) && Low(Mem(vm.lo, vm.pages, vm.use), root, vpn) == 0
    modifies vm`pages, vm`freelist, vm`use, vm`free
    ensures vm.Valid() && root in vm.use && vm.use[root] == Root
    ensures Restored(m, Mem(vm.lo, vm.pages, vm.use)) && Grew(m, Mem(vm.lo, vm.pages, vm.use), root, vpn, false)
  {
    hide Trees, FreeList, MapRun, Restored, SameTables, Grew, NewOnPath, Low, TablesStay, IsTable, SameMaps, Kept;
    ghost var m3 := Mem(vm.lo, vm.pages, vm.use);
    TakesFree(m, m2, mem);
    hide Takes;
    FillFails(m, m2, m3, root, vpn, mem, perm);
    vm.FreeHeld(mem);
    FillUndone(m, m2, m3, Mem(vm.lo, vm.pages, vm.use), mem, vm.pages[mem]);
    UndoneTables(m, m3, Mem(vm.lo, vm.pages, vm.use), root, vpn, mem);
  }

  lemma TakesFree(m: Mem, m2: Mem, f: nat)
    requires Takes(m, m2, f)
    ensures Trees(m) && f in m.use && m.use[f] == Free && f in m2.use && m2.use[f] == Held && f < |m2.pages|
  {
  }

  lemma RunTable(m2: Mem, m3: Mem, root: nat, vpn: nat, f: nat, perm: Perm)
    requires MapRun(m2, m3, root, vpn, 1, f, perm, true) && root in m2.use && m2.use[root] == Root && vpn < MAXVPN
    ensures root in m3.use && m3.use[root] == Root && Trees(m3) && Low(m3, root, vpn) != 0
  {
    hide Trees, Lookup, Low;
    assert Lookup(m3, root, vpn).v;
    MappedHasTable(m3, root, vpn);
  }

  lemma ListFree(pages: seq<Page>, head: nat, free: seq<nat>, use: map<nat, Use>)
    requires FreeList(pages, head, free, use)
    ensures ListsFree(free, use)
  {
  }

  lemma GrewNone(m: Mem, root: nat, vpn: nat)
    requires Trees(m) && root in m.use && m.use[root] == Root
    ensures Grew(m, m, root, vpn, false)
  {
  }

  /** The tables that mapping one page makes, and the frames they take. */
  lemma FillTables(m: Mem, m2: Mem, m3: Mem, root: nat, vpn: nat, f: nat, perm: Perm, free2: seq<nat>, free3: seq<nat>,
                   ok: bool)
    requires Takes(m, m2, f) && MapRun(m2, m3, root, vpn, if ok then 1 else 0, f, perm, true) && vpn < MAXVPN
    requires root in m.use && m.use[root] == Root && NewOnPath(m2.use, m3.use, root, vpn, 1)
    requires ListsFree(free2, m2.use) && ListsFree(free3, m3.use) && Suffix(free2, free3)
    requires Trees(m3) && root in m3.use && m3.use[root] == Root && (Low(m3, root, vpn) != 0 <==> ok)
    ensures Grew(m, m3, root, vpn, ok)
    ensures |free2| - |free3| == Missing(m, root, vpn) - (if ok then 0 else Missing(m3, root, vpn))
    ensures ok || Missing(m3, root, vpn) > 0
    ensures TablesStay(m.use, m3.use) && NewOnPath(m.use, m3.use, root, vpn, 1) && !IsTable(m3, f)
  {
    hide Trees, MapsAre, OwnsRun, SameMaps, NewOnPath, ListsFree, Suffix;
    FillUses(m, m2, m3, root, vpn, f, perm, ok);
    MissingSame(m, m2, root, vpn, f);
    hide Takes, MapRun;
    TablesTaken(m2, m3, root, vpn, free2, free3);
    GrewBy(m, m3, root, vpn);
  }

  lemma FillUses(m: Mem, m2: Mem, m3: Mem, root: nat, vpn: nat, f: nat, perm: Perm, ok: bool)
    requires Takes(m, m2, f) && MapRun(m2, m3, root, vpn, if ok then 1 else 0, f, perm, true)
    requires NewOnPath(m2.use, m3.use, root, vpn, 1)
    ensures TablesStay(m2.use, m3.use) && TablesStay(m.use, m3.use) && !IsTable(m3, f)
    ensures NewOnPath(m.use, m3.use, root, vpn, 1)
    ensures forall g: nat :: g in m2.use && m2.use[g] == Free ==> m3.use[g] == Free || m3.use[g].Node?
  {
    hide Trees, MapsAre, SameMaps;
    assert f in m2.use && m2.use[f] == Held;
  }

  lemma MissingSame(m: Mem, m2: Mem, root: nat, vpn: nat, f: nat)
    requires Takes(m, m2, f) && root in m.use && m.use[root] == Root && vpn < MAXVPN
    ensures root in m2.use && m2.use[root] == Root && Missing(m2, root, vpn) == Missing(m, root, vpn)
  {
    hide Trees;
    NewOnPathNone(m.use, root, vpn, 1);
    assert NewOnPath(m.use, m2.use, root, vpn, 1);
    hide Takes;
    StillThere(m, m2, root, vpn);
    NewMid(m, m2, root, vpn, vpn);
    NewLow(m, m2, root, root, vpn, vpn);
  }

  /** Giving back the frame that found no place leaves the tables as they are. */
  lemma UndoneTables(m: Mem, m3: Mem, m4: Mem, root: nat, vpn: nat, f: nat)
    requires Trees(m) && Trees(m3) && Trees(m4) && TablesStay(m.use, m3.use) && NewOnPath(m.use, m3.use, root, vpn, 1)
    requires f in m3.use && m4.use == m3.use[f := Free] && !IsTable(m3, f) && f in m.use && m.use[f] == Free
    requires root in m.use && m.use[root] == Root && root in m3.use && m3.use[root] == Root && vpn < MAXVPN
    requires Low(m3, root, vpn) == 0
    ensures root in m4.use && m4.use[root] == Root && Grew(m, m4, root, vpn, false)
  {
    hide Trees, NewOnPath, TablesStay;
    UndoneNew(m.use, m3.use, root, vpn, f);
    if Low(m4, root, vpn) != 0 {
      LowByUse(m3, root, vpn, Low(m4, root, vpn));
    }
    hide Low;
    GrewBy(m, m4, root, vpn);
  }

  lemma UndoneNew(use: map<nat, Use>, use3: map<nat, Use>, root: nat, vpn: nat, f: nat)
    requires NewOnPath(use, use3, root, vpn, 1) && f in use3 && !use3[f].Node?
    requires TablesStay(use, use3) && f in use && use[f] == Free
    ensures NewOnPath(use, use3[f := Free], root, vpn, 1) && TablesStay(use, use3[f := Free])
  {
    var use4 := use3[f := Free];
    forall g: nat | g in use && use[g] == Free && g in use4 && use4[g].Node?
      ensures exists v :: vpn <= v < vpn + 1 && OnPath(use4, g, root, v)
    {
      NewPath(use, use3, root, vpn, g);
      assert OnPath(use4, g, root, vpn);
    }
  }

  lemma RestoredSelf(m: Mem)
    requires Trees(m)
    ensures Restored(m, m)
  {
  }

  lemma OnePage(vpn: nat)
    ensures Pages(vpn * PGSIZE, PGSIZE) == 1 && vpn * PGSIZE / PGSIZE == vpn
  {
  }

  /** m with frame f taken off the free list. */
  ghost predicate Takes(m: Mem, m': Mem, f: nat) {
    && Trees(m) && Trees(m') && f in m.use && m.use[f] == Free && f < |m.pages| && |m'.pages| == |m.pages|
        && m'.lo == m.lo
    && m'.use == m.use[f := Held] && SameMaps(m, m')
    && forall g :: 0 <= g < |m.pages| && g != f ==> m'.pages[g] == m.pages[g]
  }

  lemma SetPage(m: Mem, m1: Mem, head: nat, free: seq<nat>, f: nat, junk: Page, page: Page, root: nat, vpn: nat,
                perm: Perm)
    requires Trees(m) && Trees(m1) && SameTables(m, m1) && FreeList(m1.pages, head, free, m1.use) && IsPage(page)
    requires Leafy(perm)
    requires f in m.use && m.use[f] == Free && f < |m.pages| && m1.use == m.use[f := Held] && m1.lo == m.lo
    requires m1.pages == m.pages[f := junk]
    requires root in m.use && m.use[root] == Root && vpn < MAXVPN && !Lookup(m, root, vpn).v
    ensures var m2 := Mem(m1.lo, m1.pages[f := page], m1.use);
            && Trees(m2) && FreeList(m2.pages, head, free, m2.use) && Takes(m, m2, f) && m2.pages[f] == page
            && MayMap(m2, Pte(true, perm, f), true) && root in m2.use && m2.use[root] == Root
                && !Lookup(m2, root, vpn).v
  {
    assert PageOk(Held, page);
    hide Trees, FreeList, Lookup, PageOk;
    PageChanges(m1, f, page, Held);
    var m2 := Mem(m1.lo, m1.pages[f := page], m1.use);
    assert m1.use[f := Held] == m1.use;
    ListKept(m1.pages, m2.pages, head, free, m1.use, m2.use);
    TablesMaps(m, m1);
    TablesMaps(m1, m2);
    MapsTwice(m, m1, m2);
  }

  lemma FillDone(m: Mem, m2: Mem, m3: Mem, root: nat, vpn: nat, f: nat, perm: Perm, page: Page)
    requires Takes(m, m2, f) && m2.pages[f] == page && MapRun(m2, m3, root, vpn, 1, f, perm, true) && vpn < MAXVPN
    requires root in m.use && m.use[root] == Root
    ensures Filled(m, m3, root, vpn, [Want(perm, page)])
  {
    hide Trees, Owner, Takes, Kept, MapsAre, FramesFilled;
    assert Frames(f, 1) == {f};
    assert Owner(m3.use, f) == Spot(root, vpn);
    FillFrames(m, m2, m3, root, vpn, f);
    FillBytes(m, m2, m3, f, page);
    FillMaps(m, m2, m3, root, vpn, f, perm, page);
  }

  lemma FillMaps(m: Mem, m2: Mem, m3: Mem, root: nat, vpn: nat, f: nat, perm: Perm, page: Page)
    requires Takes(m, m2, f) && MapsAre(m2, m3, root, vpn, 1, f, perm) && vpn < MAXVPN && root in m.use
    requires m.use[root] == Root
    requires Owner(m3.use, f) == Spot(root, vpn) && f < |m3.pages| && m3.pages[f] == page
    ensures MapsFilled(m, m3, root, vpn, [Want(perm, page)])
  {
    hide Trees, Owner, Lookup;
    forall r, v | r in m.use && m.use[r] == Root && 0 <= v < MAXVPN && !(r == root && vpn <= v < vpn + 1)
      ensures Lookup(m3, r, v) == Lookup(m, r, v)
    {
      assert Lookup(m2, r, v) == Lookup(m, r, v);
    }
    assert FilledAt(m, m3, root, vpn, [Want(perm, page)], vpn);
  }

  lemma FillBytes(m: Mem, m2: Mem, m3: Mem, f: nat, page: Page)
    requires Takes(m, m2, f) && m2.pages[f] == page && Kept(m2, m3, {f})
    ensures f < |m3.pages| && m3.pages[f] == page
  {
    hide Trees, SameMaps;
  }

  lemma FillFrames(m: Mem, m2: Mem, m3: Mem, root: nat, vpn: nat, f: nat)
    requires Takes(m, m2, f) && Kept(m2, m3, {f}) && Owner(m3.use, f) == Spot(root, vpn)
    ensures FramesFilled(m, m3, root, vpn, 1)
  {
    hide Trees, SameMaps, Owner;
  }

  lemma FillFails(m: Mem, m2: Mem, m3: Mem, root: nat, vpn: nat, f: nat, perm: Perm)
    requires Takes(m, m2, f) && MapRun(m2, m3, root, vpn, 0, f, perm, true)
    ensures f in m3.use && m3.use[f] == Held && Kept(m2, m3, {}) && SameMaps(m2, m3)
  {
    hide Trees, Owner;
    assert Frames(f, 0) == {};
  }

  lemma FillUndone(m: Mem, m2: Mem, m3: Mem, m4: Mem, f: nat, p: Page)
    requires Takes(m, m2, f) && Kept(m2, m3, {}) && SameMaps(m2, m3) && SameTables(m3, m4) && Trees(m3) && Trees(m4)
    requires f in m3.use && f < |m3.pages| && m4 == Mem(m3.lo, m3.pages[f := p], m3.use[f := Free])
    ensures Restored(m, m4)
  {
    hide Trees, SameTables, Kept, SameMaps;
    FillUndoneFrames(m, m2, m3, m4, f, p);
    hide FramesKept;
    TablesMaps(m3, m4);
    MapsTwice(m, m2, m3);
    MapsTwice(m, m3, m4);
  }

  lemma FillUndoneFrames(m: Mem, m2: Mem, m3: Mem, m4: Mem, f: nat, p: Page)
    requires Takes(m, m2, f) && Kept(m2, m3, {})
    requires f in m3.use && f < |m3.pages| && m4 == Mem(m3.lo, m3.pages[f := p], m3.use[f := Free])
    ensures FramesKept(m, m4)
  {
    hide Trees, SameMaps, IsTable;
    UsesBack(m.use, m2.use, m3.use, m4.use, f);
    PagesBack(m, m2, m3, m4, f);
  }

  lemma UsesBack(u: map<nat, Use>, u2: map<nat, Use>, u3: map<nat, Use>, u4: map<nat, Use>, f: nat)
    requires f in u && u[f] == Free && u2 == u[f := Held] && u3.Keys == u2.Keys && u4 == u3[f := Free]
    requires forall g: nat :: g in u2 && u2[g] != Free ==> u3[g] == u2[g]
    requires forall g: nat :: g in u2 && u2[g] == Free ==> u3[g] == Free || u3[g].Node?
    ensures u4.Keys == u.Keys
    ensures forall g: nat :: g in u && u[g] != Free ==> u4[g] == u[g]
    ensures forall g: nat :: g in u && u[g] == Free ==> u4[g] == Free || u4[g].Node?
  {
  }

  lemma PagesBack(m: Mem, m2: Mem, m3: Mem, m4: Mem, f: nat)
    requires Takes(m, m2, f) && Kept(m2, m3, {}) && |m4.pages| == |m3.pages|
    requires forall g :: 0 <= g < |m3.pages| && g != f ==> m4.pages[g] == m3.pages[g]
    ensures forall g: nat :: g in m.use && g < |m.pages| && m.use[g] != Free && !IsTable(m, g) ==>
        m4.pages[g] == m.pages[g]
  {
    hide Trees, SameMaps;
    forall g: nat | g in m.use && g < |m.pages| && m.use[g] != Free
        && !IsTable(m, g) ensures m4.pages[g] == m.pages[g] {
      assert m2.use[g] == m.use[g] && m2.pages[g] == m.pages[g];
    }
  }

  /** The number of pages that sz bytes take. */
  function Up(sz: nat): nat {
    (sz + PGSIZE - 1) / PGSIZE
  }

  /** No page of a range is mapped. */
  ghost predicate Vacant(m: Mem, root: nat, first: nat, n: nat)
    requires Trees(m) && root in m.use && m.use[root] == Root
  {
    forall v :: first <= v < first + n && v < MAXVPN ==> !Lookup(m, root, v).v
  }

  /** n pages of zeros. */
  function ZeroPages(n: nat): (ws: seq<Want>)
    ensures |ws| == n && forall w :: w in ws ==> w == Want(RWXU, Junk(0))
  {
    if n == 0 then [] else ZeroPages(n - 1) + [Want(RWXU, Junk(0))]
  }

  // ---------------------------------------------------------------- what filling takes

  /** Filling these pages makes the level-0 table for page v, and the level-1 table. */
  ghost predicate TableMade(first: nat, ws: seq<Want>, v: nat) {
    exists k :: 0 <= k < |ws| && ws[k].Want? && SameRegion(v, first + k)
  }

  ghost predicate SpanMade(first: nat, ws: seq<Want>, v: nat) {
    exists k :: 0 <= k < |ws| && ws[k].Want? && SameSpan(v, first + k)
  }

  /** The frames that page v takes after these pages: its own, and the tables missing on the way to it. */
  ghost function Need(m: Mem, root: nat, first: nat, ws: seq<Want>, v: nat): nat
    requires Trees(m) && root in m.use && m.use[root] == Root && v < MAXVPN
  {
    1 + (if Mid(m, root, v) == 0 && !SpanMade(first, ws, v) then 1 else 0)
      + if Low(m, root, v) == 0 && !TableMade(first, ws, v) then 1 else 0
  }

  /** The frames that filling pages takes. */
  ghost function Cost(m: Mem, root: nat, first: nat, ws: seq<Want>): nat
    requires Trees(m) && root in m.use && m.use[root] == Root && first + |ws| <= MAXVPN
    decreases |ws|
  {
    if ws == [] then 0
    else
      var n := |ws| - 1;
      Cost(m, root, first, ws[..n]) + if ws[n].Want? then Need(m, root, first, ws[..n], first + n) else 0
  }

  lemma {:induction false} CostMono(m: Mem, root: nat, first: nat, ws: seq<Want>, k: nat)
    requires Trees(m) && root in m.use && m.use[root] == Root && first + |ws| <= MAXVPN && k <= |ws|
    ensures Cost(m, root, first, ws[..k]) <= Cost(m, root, first, ws)
    decreases |ws|
  {
    hide Trees, Need;
    if k == |ws| {
      assert ws[..k] == ws;
    } else {
      CostMono(m, root, first, ws[..|ws| - 1], k);
      assert ws[..|ws| - 1][..k] == ws[..k];
    }
  }

  lemma CostMore(m: Mem, root: nat, first: nat, ws: seq<Want>, w: Want)
    requires Trees(m) && root in m.use && m.use[root] == Root && first + |ws| < MAXVPN
    ensures Cost(m, root, first, ws + [w])
         == Cost(m, root, first, ws) + if w.Want? then Need(m, root, first, ws, first + |ws|) else 0
  {
    hide Trees, Need;
    assert (ws + [w])[..|ws|] == ws;
  }

  /** The tables of a space after filling: those it had, and those made. */
  ghost predicate TablesFor(m: Mem, m': Mem, root: nat, first: nat, ws: seq<Want>)
    requires Trees(m) && root in m.use && m.use[root] == Root
    requires Trees(m') && root in m'.use && m'.use[root] == Root
  {
    && (forall v :: 0 <= v < MAXVPN ==> (Low(m', root, v) != 0 <==> Low(m, root, v) != 0 || TableMade(first, ws, v)))
    && (forall v :: 0 <= v < MAXVPN ==> (Mid(m', root, v) != 0 <==> Mid(m, root, v) != 0 || SpanMade(first, ws, v)))
    && OthersTables(m, m', root)
  }

  lemma TablesForNone(m: Mem, root: nat, first: nat)
    requires Trees(m) && root in m.use && m.use[root] == Root
    ensures TablesFor(m, m, root, first, [])
  {
    hide Trees, Low, Mid;
  }

  lemma MadeMore(first: nat, ws: seq<Want>, w: Want, v: nat)
    ensures TableMade(first, ws + [w], v) <==> TableMade(first, ws, v) || (w.Want? && SameRegion(v, first + |ws|))
    ensures SpanMade(first, ws + [w], v) <==> SpanMade(first, ws, v) || (w.Want? && SameSpan(v, first + |ws|))
  {
    hide SameRegion, SameSpan;
    var all := ws + [w];
    assert forall k :: 0 <= k < |ws| ==> all[k] == ws[k];
    assert all[|ws|] == w;
  }

  lemma TablesForMore(m: Mem, m1: Mem, m2: Mem, root: nat, first: nat, ws: seq<Want>, w: Want)
    requires Trees(m) && root in m.use && m.use[root] == Root
    requires Trees(m1) && root in m1.use && m1.use[root] == Root
    requires Trees(m2) && root in m2.use && m2.use[root] == Root
    requires TablesFor(m, m1, root, first, ws)
    requires if w.Want? then Grew(m1, m2, root, first + |ws|, true) else m2 == m1
    ensures TablesFor(m, m2, root, first, ws + [w])
  {
    hide Trees, Low, Mid, TableMade, SpanMade, SameRegion, SameSpan, OthersTables;
    if w.Want? {
      OthersTablesTwice(m, m1, m2, root);
    }
    forall v | 0 <= v < MAXVPN
      ensures Low(m2, root, v) != 0 <==> Low(m, root, v) != 0 || TableMade(first, ws + [w], v)
      ensures Mid(m2, root, v) != 0 <==> Mid(m, root, v) != 0 || SpanMade(first, ws + [w], v)
    {
      MadeMore(first, ws, w, v);
      assert w.Want? ==> GrewAt(m1, m2, root, first + |ws|, true, v);
    }
  }

  lemma NeedIs(m: Mem, m1: Mem, root: nat, first: nat, ws: seq<Want>, v: nat)
    requires Trees(m) && root in m.use && m.use[root] == Root && v < MAXVPN
    requires Trees(m1) && root in m1.use && m1.use[root] == Root && TablesFor(m, m1, root, first, ws)
    ensures Need(m, root, first, ws, v) == 1 + Missing(m1, root, v)
  {
    hide Trees, TableMade, SpanMade;
  }

  /** Takes pages off the top of an address space and frees them. */
  method UvmDealloc(vm: Vm, root: nat, oldsz: nat, newsz: nat) returns (o: Outcome, r: nat)
    requires vm.Valid() && root in vm.use && vm.use[root] == Root
    requires newsz < oldsz ==> OwnsPages(Mem(vm.lo, vm.pages, vm.use), root, Up(newsz), Up(oldsz) - Up(newsz))
    modifies vm`pages, vm`freelist, vm`use, vm`free
    ensures vm.Valid() && root in vm.use && vm.use[root] == Root
    ensures newsz >= oldsz ==> o == Done && r == oldsz && vm.pages == old(vm.pages) && vm.use == old(vm.use)
    ensures newsz < oldsz ==>
              && r == newsz
              && o == (if HasTables(old(Mem(vm.lo, vm.pages, vm.use)), root, Up(newsz), Up(oldsz) - Up(newsz))
                       then Done else Panic)
    ensures newsz < oldsz && o == Done ==>
              Unmapped(old(Mem(vm.lo, vm.pages, vm.use)), Mem(vm.lo, vm.pages, vm.use), root, Up(newsz),
                       Up(oldsz) - Up(newsz), true)
  {
    hide Trees, FreeList, Unmapped, OwnsPage;
    UpMono(newsz, oldsz);
    o, r := Done, newsz;
    if newsz >= oldsz {
      return Done, oldsz;
    }
    UnmappedNone(Mem(vm.lo, vm.pages, vm.use), root, Up(newsz), true);
    if Up(newsz) < Up(oldsz) {
      UpAligned(Up(newsz));
      ghost var k;
      o, k := UvmUnmap(vm, root, Up(newsz) * PGSIZE, Up(oldsz) - Up(newsz), true);
    }
  }

  lemma UpMono(a: nat, b: nat)
    ensures a <= b ==> Up(a) <= Up(b)
  {
  }

  lemma UpAligned(v: nat)
    ensures v * PGSIZE % PGSIZE == 0 && v * PGSIZE / PGSIZE == v && Up(v * PGSIZE) == v
  {
  }

  /** The first page from a on, below end, that cannot be mapped anew; end if there is none. */
  ghost function FirstBar(m: Mem, root: nat, a: nat, end: nat): (v: nat)
    requires Trees(m) && root in m.use && m.use[root] == Root && a <= end
    ensures a <= v <= end && (v < end ==> Barred(m, root, v)) && forall u :: a <= u < v ==> !Barred(m, root, u)
    decreases end - a
  {
    if a == end || Barred(m, root, a) then a else FirstBar(m, root, a + 1, end)
  }

  /** The page is mapped, or past the largest address: mappages panics. */
  ghost predicate Barred(m: Mem, root: nat, v: nat)
    requires Trees(m) && root in m.use && m.use[root] == Root
  {
    v >= MAXVPN || Lookup(m, root, v).v
  }

  /** What becomes of growing by the pages from first up to end with this many free frames. */
  ghost function AllocEnds(m: Mem, root: nat, first: nat, end: nat, frames: nat): Outcome
    requires Trees(m) && root in m.use && m.use[root] == Root && first <= end && first <= MAXVPN
  {
    var bar := FirstBar(m, root, first, end);
    BarBelow(m, root, first, end);
    var cost := Cost(m, root, first, ZeroPages(bar - first));
    if frames < cost then NoMemory else if bar == end then Done else if frames == cost then NoMemory else Panic
  }

  lemma BarBelow(m: Mem, root: nat, first: nat, end: nat)
    requires Trees(m) && root in m.use && m.use[root] == Root && first <= end && first <= MAXVPN
    ensures FirstBar(m, root, first, end) <= MAXVPN && Vacant(m, root, first, FirstBar(m, root, first, end) - first)
  {
    hide Trees, Lookup;
    var bar := FirstBar(m, root, first, end);
    assert bar > MAXVPN ==> !Barred(m, root, MAXVPN);
    forall v | first <= v < bar && v < MAXVPN ensures !Lookup(m, root, v).v {
      assert !Barred(m, root, v);
    }
  }

  /** A page not mapped before is now: for user code to read, write and run, on a frame that was free, all zeros. */
  ghost predicate ZeroAt(m: Mem, m': Mem, root: nat, v: nat) {
    && Trees(m) && Trees(m') && root in m.use && m.use[root] == Root && root in m'.use && m'.use[root] == Root
    && v < MAXVPN && !Lookup(m, root, v).v
    && var e := Lookup(m', root, v);
    && e.v && e.perm.r && e.perm.w && e.perm.x && e.perm.u
    && e.ppn in m.use && m.use[e.ppn] == Free && e.ppn < |m'.pages| && m'.pages[e.ppn].Data?
    && |m'.pages[e.ppn].bytes| == PGSIZE && forall i :: 0 <= i < PGSIZE ==> m'.pages[e.ppn].bytes[i] == 0
  }

  lemma FilledZero(m: Mem, m': Mem, root: nat, first: nat, n: nat, v: nat)
    requires Filled(m, m', root, first, ZeroPages(n)) && root in m.use && m.use[root] == Root
    requires Vacant(m, root, first, n) && first <= v < first + n
    ensures ZeroAt(m, m', root, v)
  {
    hide Trees, Lookup, Owner;
    assert FilledAt(m, m', root, first, ZeroPages(n), v);
    assert ZeroPages(n)[v - first] in ZeroPages(n);
  }

  /**
   Grows an address space with pages of zeros. If memory runs out, it is left as it
   was; a page that is mapped already or past the largest address is a panic, if
   memory lasts until it.
   */
  method UvmAlloc(vm: Vm, root: nat, oldsz: nat, newsz: nat) returns (o: Outcome, r: nat)
    requires vm.Valid() && root in vm.use && vm.use[root] == Root && oldsz <= MAXVPN * PGSIZE
    modifies vm`pages, vm`freelist, vm`use, vm`free
    ensures vm.Valid() && root in vm.use && vm.use[root] == Root
    ensures newsz < oldsz ==> o == Done && r == oldsz && vm.pages == old(vm.pages) && vm.use == old(vm.use)
    ensures newsz >= oldsz ==>
              && Up(oldsz) <= Up(newsz) && Up(oldsz) <= MAXVPN
              && o == AllocEnds(old(Mem(vm.lo, vm.pages, vm.use)), root, Up(oldsz), Up(newsz), |old(vm.free)|)
    ensures newsz >= oldsz && o == Done ==>
              && r == newsz
              && Filled(old(Mem(vm.lo, vm.pages, vm.use)), Mem(vm.lo, vm.pages, vm.use), root, Up(oldsz),
                        ZeroPages(Up(newsz) - Up(oldsz)))
              && Up(newsz) <= MAXVPN
              && |vm.free| == |old(vm.free)| - Cost(old(Mem(vm.lo, vm.pages, vm.use)), root, Up(oldsz),
                                                    ZeroPages(Up(newsz) - Up(oldsz)))
    ensures newsz >= oldsz && o == Done ==> forall v :: Up(oldsz) <= v && v * PGSIZE < newsz ==>
              ZeroAt(old(Mem(vm.lo, vm.pages, vm.use)), Mem(vm.lo, vm.pages, vm.use), root, v)
    ensures o == NoMemory ==> r == 0 && Restored(old(Mem(vm.lo, vm.pages, vm.use)), Mem(vm.lo, vm.pages, vm.use))
  {
    hide ZeroAt;
    hide Trees, FreeList, Lookup, Filled, Restored, Unmapped, Junk, OwnsPages, HasTables, Cost, TablesFor, Grew,
        Missing, Need, Low, Barred;
    ghost var m := Mem(vm.lo, vm.pages, vm.use);
    if newsz < oldsz {
      return Done, oldsz;
    }
    UpMono(oldsz, newsz);
    UpMono(oldsz, MAXVPN * PGSIZE);
    UpAligned(MAXVPN);
    var first, a := Up(oldsz), Up(oldsz);
    ghost var end := Up(newsz);
    ghost var bar := FirstBar(m, root, first, end);
    BarBelow(m, root, first, end);
    FilledNone(m, root, first);
    CostNone(m, root, first);
    while a * PGSIZE < newsz
      invariant first <= a <= bar && vm.Valid() && root in vm.use && vm.use[root] == Root
      invariant Filled(m, Mem(vm.lo, vm.pages, vm.use), root, first, ZeroPages(a - first))
      invariant TablesFor(m, Mem(vm.lo, vm.pages, vm.use), root, first, ZeroPages(a - first))
      invariant |vm.free| == |old(vm.free)| - Cost(m, root, first, ZeroPages(a - first))
      decreases end - a
    {
      BelowUp(a, newsz);
      BarredHere(m, Mem(vm.lo, vm.pages, vm.use), root, first, a);
      var barred := IsBarred(vm, root, a);
      if barred {
        o := AtBar(vm, root, first, a, m);
        return o, 0;
      }
      var ok := AllocPage(vm, root, first, a, bar, m);
      if !ok {
        return NoMemory, 0;
      }
      a := a + 1;
    }
    AboveUp(a, newsz);
    forall v | first <= v && v * PGSIZE < newsz
      ensures ZeroAt(m, Mem(vm.lo, vm.pages, vm.use), root, v)
    {
      BelowUp(v, newsz);
      FilledZero(m, Mem(vm.lo, vm.pages, vm.use), root, first, end - first, v);
    }
    return Done, newsz;
  }

  /** Whether mappages would panic at a page. */
  method IsBarred(vm: Vm, root: nat, a: nat) returns (yes: bool)
    requires vm.Valid() && root in vm.use && vm.use[root] == Root
    modifies vm`pages, vm`freelist, vm`use, vm`free
    ensures vm.pages == old(vm.pages) && vm.freelist == old(vm.freelist) && vm.use == old(vm.use)
    ensures vm.free == old(vm.free) && yes == Barred(Mem(vm.lo, vm.pages, vm.use), root, a)
  {
    hide Trees, FreeList, Lookup, Low;
    ghost var m := Mem(vm.lo, vm.pages, vm.use);
    if a >= MAXVPN {
      return true;
    }
    var t := vm.Walk(root, a, false);
    if t == 0 {
      MappedHasTable(m, root, a);
      return false;
    }
    LookupIs(m, root, a);
    InPool(m, t);
    yes := vm.pages[t].ptes[I0(a)].v;
  }

  /** A page of a growth that mappages refuses: memory runs out at it, or the kernel panics. */
  method AtBar(vm: Vm, root: nat, first: nat, a: nat, ghost m: Mem) returns (o: Outcome)
    requires vm.Valid() && root in vm.use && vm.use[root] == Root && first <= a
    requires Filled(m, Mem(vm.lo, vm.pages, vm.use), root, first, ZeroPages(a - first))
    requires root in m.use && m.use[root] == Root && Vacant(m, root, first, a - first)
    modifies vm`pages, vm`freelist, vm`use, vm`free
    ensures vm.Valid() && root in vm.use && vm.use[root] == Root
    ensures o == if |old(vm.free)| == 0 then NoMemory else Panic
    ensures o == NoMemory ==> Restored(m, Mem(vm.lo, vm.pages, vm.use))
  {
    hide Trees, FreeList, Lookup, Filled, Restored, Junk, SameTables;
    ghost var m1 := Mem(vm.lo, vm.pages, vm.use);
    RestoredSelf(m1);
    var mem := vm.Kalloc();
    if mem == 0 {
      GiveBack(vm, root, first, a, m, m1);
      return NoMemory;
    }
    return Panic;
  }

  /** A page of a growth. */
  method AllocPage(vm: Vm, root: nat, first: nat, a: nat, ghost bar: nat, ghost m: Mem) returns (ok: bool)
    requires vm.Valid() && root in vm.use && vm.use[root] == Root && first <= a < bar <= MAXVPN
    requires root in m.use && m.use[root] == Root
    requires Filled(m, Mem(vm.lo, vm.pages, vm.use), root, first, ZeroPages(a - first))
    requires TablesFor(m, Mem(vm.lo, vm.pages, vm.use), root, first, ZeroPages(a - first))
    requires Vacant(m, root, first, a - first) && !Barred(Mem(vm.lo, vm.pages, vm.use), root, a)
    modifies vm`pages, vm`freelist, vm`use, vm`free
    ensures vm.Valid() && root in vm.use && vm.use[root] == Root
    ensures Trees(m) && Cost(m, root, first, ZeroPages(a - first)) <= Cost(m, root, first, ZeroPages(bar - first))
    ensures ok ==>
              && Filled(m, Mem(vm.lo, vm.pages, vm.use), root, first, ZeroPages(a + 1 - first))
              && TablesFor(m, Mem(vm.lo, vm.pages, vm.use), root, first, ZeroPages(a + 1 - first))
              && |vm.free| == |old(vm.free)| - Cost(m, root, first, ZeroPages(a + 1 - first))
                              + Cost(m, root, first, ZeroPages(a - first))
    ensures !ok ==>
              && Restored(m, Mem(vm.lo, vm.pages, vm.use))
              && |old(vm.free)| + Cost(m, root, first, ZeroPages(a - first))
                   < Cost(m, root, first, ZeroPages(bar - first))
  {
    hide Trees, FreeList, Lookup, Filled, Restored, Unmapped, Junk, OwnsPages, HasTables, Cost, TablesFor, Grew,
        Missing, Need, Low;
    ghost var m1, ws := Mem(vm.lo, vm.pages, vm.use), ZeroPages(a - first);
    JunkPage();
    FilledRange(m, m1, root, first, ws);
    ZeroCost(m, m1, root, first, a, bar);
    ok := FillOne(vm, root, a, RWXU, Junk(0));
    if ok {
      FilledMore(m, m1, Mem(vm.lo, vm.pages, vm.use), root, first, ws, Want(RWXU, Junk(0)));
      TablesForMore(m, m1, Mem(vm.lo, vm.pages, vm.use), root, first, ws, Want(RWXU, Junk(0)));
    } else {
      GiveBack(vm, root, first, a, m, m1);
    }
  }

  /** Filling pages before it makes no difference to whether a page is barred. */
  lemma BarredHere(m: Mem, m1: Mem, root: nat, first: nat, a: nat)
    requires first <= a && Filled(m, m1, root, first, ZeroPages(a - first)) && root in m.use && m.use[root] == Root
    ensures Trees(m) && Trees(m1) && root in m1.use && m1.use[root] == Root
    ensures Barred(m1, root, a) <==> Barred(m, root, a)
  {
    hide Trees, Lookup, FilledAt;
    if a < MAXVPN {
      FilledBeyond(m, m1, root, first, ZeroPages(a - first), a);
    }
  }

  lemma CostNone(m: Mem, root: nat, first: nat)
    requires Trees(m) && root in m.use && m.use[root] == Root && first <= MAXVPN
    ensures Cost(m, root, first, []) == 0 && TablesFor(m, m, root, first, [])
  {
    TablesForNone(m, root, first);
  }

  /** What one page more costs, and that the whole costs no less. */
  lemma ZeroCost(m: Mem, m1: Mem, root: nat, first: nat, a: nat, end: nat)
    requires Trees(m) && root in m.use && m.use[root] == Root && first <= a < end <= MAXVPN
    requires Trees(m1) && root in m1.use && m1.use[root] == Root
    requires TablesFor(m, m1, root, first, ZeroPages(a - first))
    ensures Cost(m, root, first, ZeroPages(a + 1 - first))
         == Cost(m, root, first, ZeroPages(a - first)) + 1 + Missing(m1, root, a)
    ensures Cost(m, root, first, ZeroPages(a + 1 - first)) <= Cost(m, root, first, ZeroPages(end - first))
  {
    hide Trees, Cost, Need, Missing, TablesFor, Junk;
    CostMore(m, root, first, ZeroPages(a - first), Want(RWXU, Junk(0)));
    NeedIs(m, m1, root, first, ZeroPages(a - first), a);
    ZeroPrefix(end - first, a + 1 - first);
    CostMono(m, root, first, ZeroPages(end - first), a + 1 - first);
  }

  lemma {:induction false} ZeroPrefix(n: nat, k: nat)
    requires k <= n
    ensures ZeroPages(n)[..k] == ZeroPages(k)
  {
    hide Junk;
    if k < n {
      ZeroPrefix(n - 1, k);
    }
  }

  lemma JunkPage()
    ensures IsPage(Junk(0)) && Leafy(RWXU)
  {
  }

  lemma BelowUp(a: nat, sz: nat)
    requires a * PGSIZE < sz
    ensures a < Up(sz)
  {
  }

  lemma AboveUp(a: nat, sz: nat)
    requires a * PGSIZE >= sz && a <= Up(sz)
    ensures a == Up(sz)
  {
  }

  /** The page after those filled is as it was. */
  lemma FilledBeyond(m: Mem, m': Mem, root: nat, first: nat, ws: seq<Want>, v: nat)
    requires Filled(m, m', root, first, ws) && root in m.use && m.use[root] == Root && v == first + |ws| && v < MAXVPN
    ensures Lookup(m', root, v) == Lookup(m, root, v)
  {
    hide Trees, Lookup, FilledAt;
  }

  /** The failure path of growing: what was mapped is unmapped again and its frames freed. */
  method GiveBack(vm: Vm, root: nat, first: nat, a: nat, ghost m: Mem, ghost m1: Mem)
    requires vm.Valid() && root in vm.use && vm.use[root] == Root && first <= a
    requires Filled(m, m1, root, first, ZeroPages(a - first)) && Restored(m1, Mem(vm.lo, vm.pages, vm.use))
    requires root in m.use && m.use[root] == Root && Vacant(m, root, first, a - first)
    modifies vm`pages, vm`freelist, vm`use, vm`free
    ensures vm.Valid() && root in vm.use && vm.use[root] == Root && Restored(m, Mem(vm.lo, vm.pages, vm.use))
  {
    hide Trees, FreeList, Lookup, Restored, Unmapped, MapsFilled, FramesFilled, OwnsPages, HasTables, Junk;
    ghost var ws, m2 := ZeroPages(a - first), Mem(vm.lo, vm.pages, vm.use);
    FilledRestored(m, m1, m2, root, first, ws);
    FilledOwns(m, m2, root, first, ws);
    FilledRange(m, m2, root, first, ws);
    UpAligned(first);
    UpAligned(a);
    var o, r := UvmDealloc(vm, root, a * PGSIZE, first * PGSIZE);
    assert o == Done;
    if a == first {
      UnmappedNone(m2, root, first, true);
    }
    Undone(m, m2, Mem(vm.lo, vm.pages, vm.use), root, first, ws);
  }

  lemma FilledRange(m: Mem, m': Mem, root: nat, first: nat, ws: seq<Want>)
    requires Filled(m, m', root, first, ws)
    ensures first + |ws| <= MAXVPN && Trees(m) && Trees(m')
  {
  }
}
