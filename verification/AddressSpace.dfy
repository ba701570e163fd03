/**
 Whole address spaces (kernel/vm.c): copying one for a child, giving one up, and
 moving bytes in and out of one.
 */
module AddressSpace {
  import opened Blocks
  import opened FrameBudget
  import opened PageTable
  import opened VirtualMemory
  import opened UserMemory

  // ---------------------------------------------------------------- a new address space

  /** uvmcreate: a blank root, or 0 if there is no memory; every other address space is as it was. */
  method UvmCreate(vm: Vm) returns (root: nat)
    requires vm.Valid()
    modifies vm`pages, vm`freelist, vm`use, vm`free
    ensures vm.Valid()
    ensures root == 0 <==> old(vm.free) == []
    ensures root == 0 ==> vm.pages == old(vm.pages) && vm.use == old(vm.use)
    ensures root != 0 ==>
              && root in old(vm.use) && old(vm.use[root]) == Free && vm.use == old(vm.use)[root := Root]
              && SameMaps(old(Mem(vm.lo, vm.pages, vm.use)), Mem(vm.lo, vm.pages, vm.use))
              && Vacant(Mem(vm.lo, vm.pages, vm.use), root, 0, MAXVPN)
              && NoTables(Mem(vm.lo, vm.pages, vm.use), root)
              && OthersTables(old(Mem(vm.lo, vm.pages, vm.use)), Mem(vm.lo, vm.pages, vm.use), root)
              && |vm.free| == |old(vm.free)| - 1
  {
    hide Trees, FreeList, Lookup, SameTables, SameMaps, Junk, OthersTables, NoTables, Low;
    ghost var m := Mem(vm.lo, vm.pages, vm.use);
    root := vm.Kalloc();
    if root != 0 {
      ghost var m1 := Mem(vm.lo, vm.pages, vm.use);
      InPool(m1, root);
      TablesMaps(m, m1);
      RootMade(m1, root);
      ghost var m2 := Mem(m1.lo, m1.pages[root := BlankTable()], m1.use[root := Root]);
      MapsTwice(m, m1, m2);
      ListKept(m1.pages, m2.pages, vm.freelist, vm.free, m1.use, m2.use);
      vm.pages := vm.pages[root := BlankTable()];
      vm.use := vm.use[root := Root];
      NewSpace(m, m2, root);
    }
  }

  /** No page of a space has a table. */
  ghost predicate NoTables(m: Mem, root: nat)
    requires Trees(m) && root in m.use && m.use[root] == Root
  {
    forall v: nat :: v < MAXVPN ==> Low(m, root, v) == 0
  }

  /** A new root has no tables, and takes none from another. */
  lemma NewSpace(m: Mem, m2: Mem, root: nat)
    requires Trees(m) && Trees(m2) && root in m.use && m.use[root] == Free && m2.use == m.use[root := Root]
    ensures NoTables(m2, root) && OthersTables(m, m2, root)
  {
    assert NewOnPath(m.use, m2.use, root, 0, 1);
    OthersStay(m, m2, root, 0);
    forall v: nat | v < MAXVPN ensures Low(m2, root, v) == 0 {
      var mid := Below(m2, root, I2(v));
      if mid != 0 {
        assert m.use[mid] == Node(1, root, I2(v));
        assert UseRight(m, mid);
      }
    }
  }

  // ---------------------------------------------------------------- copying

  /** What a child is to hold at a page: its parent's bytes and permissions, or nothing. */
  ghost function WantOf(m: Mem, root: nat, v: nat): Want
    requires Trees(m) && root in m.use && m.use[root] == Root
  {
    if v < MAXVPN && Lookup(m, root, v).v && Lookup(m, root, v).ppn < |m.pages|
    then Want(Lookup(m, root, v).perm, m.pages[Lookup(m, root, v).ppn]) else Nothing
  }

  /** The first n pages of an address space. */
  ghost function Image(m: Mem, root: nat, n: nat): (ws: seq<Want>)
    requires Trees(m) && root in m.use && m.use[root] == Root
    ensures |ws| == n && forall v :: 0 <= v < n ==> ws[v] == WantOf(m, root, v)
  {
    if n == 0 then [] else Image(m, root, n - 1) + [WantOf(m, root, n - 1)]
  }

  /** What the child is to hold does not change while it is being filled. */
  lemma FilledWant(m: Mem, m': Mem, root: nat, first: nat, ws: seq<Want>, r: nat, v: nat)
    requires Filled(m, m', root, first, ws) && r in m.use && m.use[r] == Root && r != root && v < MAXVPN
    requires OwnsPage(m, r, v)
    ensures r in m'.use && m'.use[r] == Root && Lookup(m', r, v) == Lookup(m, r, v)
    ensures WantOf(m', r, v) == WantOf(m, r, v)
    ensures Lookup(m, r, v).v ==> WantOf(m, r, v).Want? && IsPage(WantOf(m, r, v).page) && Leafy(Lookup(m, r, v).perm)
    ensures Lookup(m, r, v).v ==> Lookup(m, r, v).ppn < |m'.pages|
  {
    if Lookup(m, r, v).v {
      var f := Lookup(m, r, v).ppn;
      SpotHolds(m, r, v, f);
      InPool(m, f);
      LookupLeafy(m, r, v);
    }
    hide Trees, Lookup, FilledAt, Owner;
  }

  lemma LookupLeafy(m: Mem, r: nat, v: nat)
    requires Trees(m) && r in m.use && m.use[r] == Root && v < MAXVPN && Lookup(m, r, v).v
    ensures Leafy(Lookup(m, r, v).perm)
  {
    MappedHasTable(m, r, v);
    LookupIs(m, r, v);
    assert EntryRight(m, Low(m, r, v), I0(v));
  }

  // ---------------------------------------------------------------- where a copy stops

  /** A copy gets as far as page p: the parent has a table for every page before, and there are frames for them. */
  ghost predicate RunsTo(m: Mem, parent: nat, child: nat, frames: nat, p: nat)
    requires Trees(m) && parent in m.use && m.use[parent] == Root && child in m.use && m.use[child] == Root
  {
    p <= MAXVPN && HasTables(m, parent, 0, p) && Cost(m, child, 0, Image(m, parent, p)) <= frames
  }

  ghost predicate NoTableAt(m: Mem, parent: nat, p: nat)
    requires Trees(m) && parent in m.use && m.use[parent] == Root
  {
    p >= MAXVPN || Low(m, parent, p) == 0
  }

  /** A copy of n pages stops at page p: the parent has no table for it, or memory runs out at it. */
  ghost predicate StopsAt(m: Mem, parent: nat, child: nat, frames: nat, n: nat, p: nat)
    requires Trees(m) && parent in m.use && m.use[parent] == Root && child in m.use && m.use[child] == Root
  {
    && p < n && RunsTo(m, parent, child, frames, p)
    && (NoTableAt(m, parent, p) || Cost(m, child, 0, Image(m, parent, p + 1)) > frames)
  }

  /** The child has a table for every page before p, its own or one made for a page of the copy. */
  ghost predicate Walkable(m: Mem, parent: nat, child: nat, p: nat)
    requires Trees(m) && parent in m.use && m.use[parent] == Root && child in m.use && m.use[child] == Root
  {
    forall v :: 0 <= v < p && v < MAXVPN ==> Low(m, child, v) != 0 || TableMade(0, Image(m, parent, p), v)
  }

  lemma {:induction false} ImagePrefix(m: Mem, root: nat, n: nat, k: nat)
    requires Trees(m) && root in m.use && m.use[root] == Root && k <= n
    ensures Image(m, root, n)[..k] == Image(m, root, k)
  {
    hide Trees, WantOf;
    if k < n {
      ImagePrefix(m, root, n - 1, k);
    }
  }

  /** A copy that gets past page p does not stop at it. */
  lemma PastStop(m: Mem, parent: nat, child: nat, frames: nat, n: nat, p: nat, q: nat)
    requires Trees(m) && parent in m.use && m.use[parent] == Root && child in m.use && m.use[child] == Root
    requires RunsTo(m, parent, child, frames, q) && p < q
    ensures !StopsAt(m, parent, child, frames, n, p)
  {
    hide Trees, Cost, Low;
    ImagePrefix(m, parent, q, p + 1);
    CostMono(m, child, 0, Image(m, parent, q), p + 1);
  }

  /** So there is one page at which a copy stops, unless it gets to the end. */
  lemma StopsOnce(m: Mem, parent: nat, child: nat, frames: nat, n: nat, p: nat, q: nat)
    requires Trees(m) && parent in m.use && m.use[parent] == Root && child in m.use && m.use[child] == Root
    requires StopsAt(m, parent, child, frames, n, p)
    ensures StopsAt(m, parent, child, frames, n, q) ==> q == p
    ensures RunsTo(m, parent, child, frames, n) ==> false
  {
    if RunsTo(m, parent, child, frames, n) {
      PastStop(m, parent, child, frames, n, p, n);
    }
    if StopsAt(m, parent, child, frames, n, q) && q != p {
      if q < p {
        PastStop(m, parent, child, frames, n, q, p);
      } else {
        PastStop(m, parent, child, frames, n, p, q);
      }
    }
  }

  /** What becomes of a copy of n pages. */
  ghost predicate Ends(m: Mem, parent: nat, child: nat, frames: nat, n: nat, o: Outcome)
    requires Trees(m) && parent in m.use && m.use[parent] == Root && child in m.use && m.use[child] == Root
  {
    && (o == Done <==> RunsTo(m, parent, child, frames, n))
    && (o == NoMemory <==> exists p :: StopsAt(m, parent, child, frames, n, p) && !NoTableAt(m, parent, p)
                                       && Walkable(m, parent, child, p))
    && (o == Panic <==> exists p :: StopsAt(m, parent, child, frames, n, p)
                                    && (NoTableAt(m, parent, p) || !Walkable(m, parent, child, p)))
  }

  lemma EndsAt(m: Mem, parent: nat, child: nat, frames: nat, n: nat, p: nat, o: Outcome)
    requires Trees(m) && parent in m.use && m.use[parent] == Root && child in m.use && m.use[child] == Root
    requires StopsAt(m, parent, child, frames, n, p)
    requires o == if NoTableAt(m, parent, p) || !Walkable(m, parent, child, p) then Panic else NoMemory
    ensures Ends(m, parent, child, frames, n, o)
  {
    hide StopsAt, NoTableAt, Walkable, RunsTo;
    forall q: nat ensures StopsAt(m, parent, child, frames, n, q) ==> q == p {
      StopsOnce(m, parent, child, frames, n, p, q);
    }
    StopsOnce(m, parent, child, frames, n, p, p);
  }

  lemma EndsDone(m: Mem, parent: nat, child: nat, frames: nat, n: nat)
    requires Trees(m) && parent in m.use && m.use[parent] == Root && child in m.use && m.use[child] == Root
    requires RunsTo(m, parent, child, frames, n)
    ensures Ends(m, parent, child, frames, n, Done)
  {
    hide NoTableAt, Walkable, RunsTo;
    forall q: nat ensures !StopsAt(m, parent, child, frames, n, q) {
      if q < n {
        PastStop(m, parent, child, frames, n, q, n);
      }
    }
  }

  /** Where a copy stands at page i. */
  ghost predicate Copying(m: Mem, m': Mem, parent: nat, child: nat, frames: nat, left: nat, i: nat)
    requires Trees(m) && parent in m.use && m.use[parent] == Root && child in m.use && m.use[child] == Root
  {
    && i <= MAXVPN && HasTables(m, parent, 0, i) && Filled(m, m', child, 0, Image(m, parent, i))
    && Trees(m') && child in m'.use && m'.use[child] == Root && TablesFor(m, m', child, 0, Image(m, parent, i))
    && left == frames - Cost(m, child, 0, Image(m, parent, i))
  }

  /**
   The parent has a table for the page. The child maps it just when its parent did, with
   the same permissions and the same bytes, in another frame; the parent's is as it was.
   */
  ghost predicate CopyAt(m: Mem, m': Mem, parent: nat, child: nat, v: nat) {
    && Trees(m) && Trees(m') && parent in m.use && m.use[parent] == Root && v < MAXVPN
    && parent in m'.use && m'.use[parent] == Root && child in m'.use && m'.use[child] == Root
    && Low(m, parent, v) != 0
    && var e, c := Lookup(m, parent, v), Lookup(m', child, v);
    && Lookup(m', parent, v) == e && (c.v <==> e.v)
    && (e.v ==> c.perm == e.perm && c.ppn != e.ppn && e.ppn < |m.pages| && c.ppn < |m'.pages| == |m.pages|
                && m'.pages[c.ppn] == m.pages[e.ppn] && m'.pages[e.ppn] == m.pages[e.ppn])
  }

  lemma FilledCopies(m: Mem, m': Mem, parent: nat, child: nat, n: nat, v: nat)
    requires Trees(m) && parent in m.use && m.use[parent] == Root && child in m.use && parent != child && v < n
    requires Filled(m, m', child, 0, Image(m, parent, n)) && OwnsPages(m, parent, 0, n) && HasTables(m, parent, 0, n)
    ensures CopyAt(m, m', parent, child, v)
  {
    hide Trees, Lookup, Owner, Low;
    assert FilledAt(m, m', child, 0, Image(m, parent, n), v);
    assert OwnsPage(m, parent, v);
    if Lookup(m, parent, v).v {
      OwnedFrame(m, parent, v);
    }
  }

  lemma OwnedFrame(m: Mem, root: nat, v: nat)
    requires Trees(m) && root in m.use && m.use[root] == Root && v < MAXVPN
    requires OwnsPage(m, root, v) && Lookup(m, root, v).v
    ensures var f := Lookup(m, root, v).ppn; f in m.use && f < |m.pages| && m.use[f].User? && !IsTable(m, f)
  {
    SpotHolds(m, root, v, Lookup(m, root, v).ppn);
    InPool(m, Lookup(m, root, v).ppn);
  }

  /** Copies the first sz bytes' pages of one address space into another. */
  method UvmCopy(vm: Vm, parent: nat, child: nat, sz: nat) returns (o: Outcome)
    requires vm.Valid() && parent in vm.use && vm.use[parent] == Root && child in vm.use && vm.use[child] == Root
    requires parent != child
    requires OwnsPages(Mem(vm.lo, vm.pages, vm.use), parent, 0, Up(sz))
    requires Vacant(Mem(vm.lo, vm.pages, vm.use), child, 0, Up(sz))
    modifies vm`pages, vm`freelist, vm`use, vm`free
    ensures vm.Valid()
    ensures o == Done ==> Filled(old(Mem(vm.lo, vm.pages, vm.use)), Mem(vm.lo, vm.pages, vm.use), child, 0,
                                 Image(old(Mem(vm.lo, vm.pages, vm.use)), parent, Up(sz)))
    ensures o == Done ==> forall v :: 0 <= v && v * PGSIZE < sz ==>
              CopyAt(old(Mem(vm.lo, vm.pages, vm.use)), Mem(vm.lo, vm.pages, vm.use), parent, child, v)
    ensures o == NoMemory ==> Restored(old(Mem(vm.lo, vm.pages, vm.use)), Mem(vm.lo, vm.pages, vm.use))
    ensures Ends(old(Mem(vm.lo, vm.pages, vm.use)), parent, child, |old(vm.free)|, Up(sz), o)
  {
    hide Trees, FreeList, Lookup, Filled, Restored, Ends, OwnsPages, Vacant, Copying, CopyAt, HasTables;
    ghost var m, frames := Mem(vm.lo, vm.pages, vm.use), |vm.free|;
    CopyStart(m, parent, child, frames);
    var i := 0;
    while i * PGSIZE < sz
      invariant i <= Up(sz) && vm.Valid() && parent in vm.use && vm.use[parent] == Root
      invariant child in vm.use && vm.use[child] == Root
      invariant Copying(m, Mem(vm.lo, vm.pages, vm.use), parent, child, frames, |vm.free|, i)
      decreases Up(sz) - i
    {
      BelowUp(i, sz);
      o := CopyPage(vm, parent, child, i, Up(sz), m, frames);
      if o != Done {
        return;
      }
      i := i + 1;
    }
    AboveUp(i, sz);
    CopyDone(m, Mem(vm.lo, vm.pages, vm.use), parent, child, frames, |vm.free|, i);
    forall v: nat | v * PGSIZE < sz
      ensures CopyAt(m, Mem(vm.lo, vm.pages, vm.use), parent, child, v)
    {
      BelowUp(v, sz);
      FilledCopies(m, Mem(vm.lo, vm.pages, vm.use), parent, child, Up(sz), v);
    }
    o := Done;
  }

  lemma CopyStart(m: Mem, parent: nat, child: nat, frames: nat)
    requires Trees(m) && parent in m.use && m.use[parent] == Root && child in m.use && m.use[child] == Root
    ensures Copying(m, m, parent, child, frames, frames, 0)
  {
    hide Trees, Lookup, Low;
    FilledNone(m, child, 0);
    CostNone(m, child, 0);
  }

  lemma CopyDone(m: Mem, m': Mem, parent: nat, child: nat, frames: nat, left: nat, n: nat)
    requires Trees(m) && parent in m.use && m.use[parent] == Root && child in m.use && m.use[child] == Root
    requires Copying(m, m', parent, child, frames, left, n)
    ensures Filled(m, m', child, 0, Image(m, parent, n)) && Ends(m, parent, child, frames, n, Done)
    ensures HasTables(m, parent, 0, n)
  {
    hide Trees, Lookup, Low, Filled, TablesFor, Cost;
    EndsDone(m, parent, child, frames, n);
  }

  /** One page of a copy: passed over if the parent has no page there, else copied. */
  method CopyPage(vm: Vm, parent: nat, child: nat, i: nat, ghost n: nat, ghost m: Mem, ghost frames: nat)
    returns (o: Outcome)
    requires vm.Valid() && parent in vm.use && vm.use[parent] == Root && child in vm.use && vm.use[child] == Root
    requires Trees(m) && parent in m.use && m.use[parent] == Root && child in m.use && m.use[child] == Root
    requires parent != child && i < n && OwnsPages(m, parent, 0, n) && Vacant(m, child, 0, n)
    requires Copying(m, Mem(vm.lo, vm.pages, vm.use), parent, child, frames, |vm.free|, i)
    modifies vm`pages, vm`freelist, vm`use, vm`free
    ensures vm.Valid()
    ensures o == Done ==> parent in vm.use && vm.use[parent] == Root && child in vm.use && vm.use[child] == Root
    ensures o == Done ==> Copying(m, Mem(vm.lo, vm.pages, vm.use), parent, child, frames, |vm.free|, i + 1)
    ensures o == NoMemory ==> Restored(m, Mem(vm.lo, vm.pages, vm.use))
    ensures o != Done ==> Ends(m, parent, child, frames, n, o)
  {
    hide Trees, FreeList, Lookup, Restored, Ends, OwnsPages, Vacant, Copying, Low, WantOf, RunsTo;
    ghost var m1 := Mem(vm.lo, vm.pages, vm.use);
    if i >= MAXVPN {
      NoTableStops(m, m1, parent, child, frames, |vm.free|, n, i);
      return Panic;
    }
    CopyFacts(m, m1, parent, child, frames, |vm.free|, n, i);
    var t := vm.Walk(parent, i, false);
    if t == 0 {
      NoTableStops(m, m1, parent, child, frames, |vm.free|, n, i);
      return Panic;
    }
    LookupIs(m1, parent, i);
    InPool(m1, t);
    var pte := vm.pages[t].ptes[I0(i)];
    if !pte.v {
      CopySkips(m, m1, parent, child, frames, |vm.free|, i);
      return Done;
    }
    WantIs(m1, parent, i);
    ghost var left := |vm.free|;
    var ok := FillOne(vm, child, i, pte.perm, vm.pages[pte.ppn]);
    if ok {
      CopyMore(m, m1, Mem(vm.lo, vm.pages, vm.use), parent, child, frames, left, |vm.free|, i);
      o := Done;
    } else {
      o := DropChild(vm, parent, child, i, n, m, m1, frames, left);
    }
  }

  /** The parent has no table for the page at which the copy stands. */
  lemma NoTableStops(m: Mem, m1: Mem, parent: nat, child: nat, frames: nat, left: nat, n: nat, i: nat)
    requires Trees(m) && parent in m.use && m.use[parent] == Root && child in m.use && m.use[child] == Root && i < n
    requires Copying(m, m1, parent, child, frames, left, i) && NoTableAt(m, parent, i)
    ensures Ends(m, parent, child, frames, n, Panic)
  {
    hide Trees, Low, Cost, Filled, TablesFor, HasTables, Ends;
    EndsAt(m, parent, child, frames, n, i, Panic);
  }

  /** The parent is as it was, and so is the child's page. */
  lemma CopyFacts(m: Mem, m1: Mem, parent: nat, child: nat, frames: nat, left: nat, n: nat, i: nat)
    requires Trees(m) && parent in m.use && m.use[parent] == Root && child in m.use && m.use[child] == Root
    requires parent != child && i < n && i < MAXVPN && OwnsPages(m, parent, 0, n) && Vacant(m, child, 0, n)
    requires Copying(m, m1, parent, child, frames, left, i)
    ensures Trees(m1) && parent in m1.use && m1.use[parent] == Root && child in m1.use && m1.use[child] == Root
    ensures Low(m1, parent, i) != 0 <==> Low(m, parent, i) != 0
    ensures Lookup(m1, parent, i) == Lookup(m, parent, i) && !Lookup(m1, child, i).v
    ensures Lookup(m, parent, i).v ==>
              Lookup(m, parent, i).ppn < |m1.pages| && IsPage(m1.pages[Lookup(m, parent, i).ppn])
              && Leafy(Lookup(m, parent, i).perm)
    ensures WantOf(m1, parent, i) == WantOf(m, parent, i)
  {
    hide Trees, Lookup, Low, Cost, HasTables;
    assert OwnsPage(m, parent, i);
    FilledWant(m, m1, child, 0, Image(m, parent, i), parent, i);
    FilledBeyond(m, m1, child, 0, Image(m, parent, i), i);
    assert OtherTable(m, m1, parent, i);
    WantIs(m, parent, i);
    WantIs(m1, parent, i);
  }

  lemma CopySkips(m: Mem, m1: Mem, parent: nat, child: nat, frames: nat, left: nat, i: nat)
    requires Trees(m) && parent in m.use && m.use[parent] == Root && child in m.use && m.use[child] == Root
    requires Copying(m, m1, parent, child, frames, left, i) && i < MAXVPN && Low(m, parent, i) != 0
    requires !Lookup(m, parent, i).v && !Lookup(m1, child, i).v
    ensures Copying(m, m1, parent, child, frames, left, i + 1)
  {
    hide Trees, Lookup, Low, Cost, Filled, TablesFor;
    var ws := Image(m, parent, i);
    WantIs(m, parent, i);
    FilledSkip(m1, child, i);
    FilledMore(m, m1, m1, child, 0, ws, Nothing);
    TablesForMore(m, m1, m1, child, 0, ws, Nothing);
    CostMore(m, child, 0, ws, Nothing);
  }

  lemma CopyMore(m: Mem, m1: Mem, m2: Mem, parent: nat, child: nat, frames: nat, left: nat, left2: nat, i: nat)
    requires Trees(m) && parent in m.use && m.use[parent] == Root && child in m.use && m.use[child] == Root
    requires Copying(m, m1, parent, child, frames, left, i) && i < MAXVPN && Low(m, parent, i) != 0
    requires Trees(m2) && child in m2.use && m2.use[child] == Root && WantOf(m, parent, i).Want?
    requires Filled(m1, m2, child, i, [WantOf(m, parent, i)]) && Grew(m1, m2, child, i, true)
    requires left2 == left - 1 - Missing(m1, child, i)
    ensures Copying(m, m2, parent, child, frames, left2, i + 1)
  {
    hide Trees, Lookup, Low, Cost, Filled, TablesFor, WantOf, Need, Missing, Grew;
    var ws, w := Image(m, parent, i), WantOf(m, parent, i);
    FilledMore(m, m1, m2, child, 0, ws, w);
    TablesForMore(m, m1, m2, child, 0, ws, w);
    CostMore(m, child, 0, ws, w);
    NeedIs(m, m1, child, 0, ws, i);
  }

  /** Memory runs out at the page at which the copy stands. */
  lemma OutStops(m: Mem, m1: Mem, m2: Mem, parent: nat, child: nat, frames: nat, left: nat, n: nat, i: nat)
    requires Trees(m) && parent in m.use && m.use[parent] == Root && child in m.use && m.use[child] == Root && i < n
    requires Copying(m, m1, parent, child, frames, left, i) && i < MAXVPN && Low(m, parent, i) != 0
    requires WantOf(m, parent, i).Want? && left <= Missing(m1, child, i)
    requires Trees(m2) && child in m2.use && m2.use[child] == Root && Grew(m1, m2, child, i, false)
    ensures StopsAt(m, parent, child, frames, n, i) && !NoTableAt(m, parent, i)
    ensures HasTables(m2, child, 0, i) <==> Walkable(m, parent, child, i)
  {
    hide Trees, Lookup, Low, Cost, Filled, WantOf, Need, Missing, OthersTables, TableMade, SpanMade;
    var ws, w := Image(m, parent, i), WantOf(m, parent, i);
    CostMore(m, child, 0, ws, w);
    NeedIs(m, m1, child, 0, ws, i);
    forall v: nat | v < i
      ensures Low(m2, child, v) != 0 <==> Low(m, child, v) != 0 || TableMade(0, ws, v)
    {
      assert GrewAt(m1, m2, child, i, false, v);
    }
  }

  lemma WantIs(m: Mem, root: nat, v: nat)
    requires Trees(m) && root in m.use && m.use[root] == Root && v < MAXVPN
    ensures !Lookup(m, root, v).v ==> WantOf(m, root, v) == Nothing
    ensures Lookup(m, root, v).v && Lookup(m, root, v).ppn < |m.pages| ==>
              WantOf(m, root, v) == Want(Lookup(m, root, v).perm, m.pages[Lookup(m, root, v).ppn])
  {
    hide Trees, Lookup;
  }

  /** The failure path of a copy: the child's pages are unmapped and their frames freed. */
  method DropChild(vm: Vm, ghost parent: nat, child: nat, i: nat, ghost n: nat, ghost m: Mem, ghost m1: Mem,
                   ghost frames: nat, ghost left: nat) returns (o: Outcome)
    requires vm.Valid() && child in vm.use && vm.use[child] == Root
    requires Trees(m) && parent in m.use && m.use[parent] == Root && child in m.use && m.use[child] == Root
    requires i < n && i < MAXVPN && Vacant(m, child, 0, n) && Low(m, parent, i) != 0 && WantOf(m, parent, i).Want?
    requires Copying(m, m1, parent, child, frames, left, i) && left <= Missing(m1, child, i)
    requires Restored(m1, Mem(vm.lo, vm.pages, vm.use)) && Grew(m1, Mem(vm.lo, vm.pages, vm.use), child, i, false)
    modifies vm`pages, vm`freelist, vm`use, vm`free
    ensures vm.Valid() && o != Done && Ends(m, parent, child, frames, n, o)
    ensures o == NoMemory ==> Restored(m, Mem(vm.lo, vm.pages, vm.use))
  {
    ghost var ws, m2 := Image(m, parent, i), Mem(vm.lo, vm.pages, vm.use);
    OutStops(m, m1, m2, parent, child, frames, left, n, i);
    CopyFilled(m, m1, parent, child, frames, left, i);
    VacantPart(m, child, n, i);
    hide Trees, FreeList, Lookup, Restored, Unmapped, MapsFilled, FramesFilled, OwnsPages, HasTables, WantOf, Copying,
        Ends, StopsAt, NoTableAt, Walkable, Vacant, Low, Grew, Missing;
    FilledRestored(m, m1, m2, child, 0, ws);
    FilledOwns(m, m2, child, 0, ws);
    o := Unfill(vm, child, i, m, ws);
    EndsAt(m, parent, child, frames, n, i, o);
  }

  /** Unmaps the pages that have been filled, if there are tables all the way to them. */
  method Unfill(vm: Vm, child: nat, i: nat, ghost m: Mem, ghost ws: seq<Want>) returns (o: Outcome)
    requires vm.Valid() && child in vm.use && vm.use[child] == Root && child in m.use && m.use[child] == Root
    requires Filled(m, Mem(vm.lo, vm.pages, vm.use), child, 0, ws) && |ws| == i && Trees(m) && Vacant(m, child, 0, i)
    requires OwnsPages(Mem(vm.lo, vm.pages, vm.use), child, 0, i)
    modifies vm`pages, vm`freelist, vm`use, vm`free
    ensures vm.Valid()
    ensures o == if HasTables(old(Mem(vm.lo, vm.pages, vm.use)), child, 0, i) then NoMemory else Panic
    ensures o == NoMemory ==> Restored(m, Mem(vm.lo, vm.pages, vm.use))
  {
    hide Trees, FreeList, Lookup, Restored, Unmapped, Filled, OwnsPages, HasTables;
    ghost var m2 := Mem(vm.lo, vm.pages, vm.use);
    FilledRange(m, m2, child, 0, ws);
    ghost var k;
    o, k := UvmUnmap(vm, child, 0, i, true);
    if o == Done {
      Undone(m, m2, Mem(vm.lo, vm.pages, vm.use), child, 0, ws);
      o := NoMemory;
    }
  }

  lemma CopyFilled(m: Mem, m1: Mem, parent: nat, child: nat, frames: nat, left: nat, i: nat)
    requires Trees(m) && parent in m.use && m.use[parent] == Root && child in m.use && m.use[child] == Root
    requires Copying(m, m1, parent, child, frames, left, i)
    ensures Filled(m, m1, child, 0, Image(m, parent, i))
  {
  }

  lemma VacantPart(m: Mem, root: nat, n: nat, i: nat)
    requires Trees(m) && root in m.use && m.use[root] == Root && Vacant(m, root, 0, n) && i <= n
    ensures Vacant(m, root, 0, i)
  {
    hide Trees, Lookup;
  }

  // ---------------------------------------------------------------- giving up page tables, as values

  /** Table f is a child of table t, by an entry below j. */
  predicate Child(use: map<nat, Use>, f: nat, t: nat, j: nat) {
    f in use && use[f].Node? && use[f].parent == t && use[f].idx < j
  }

  /** Table f is below table t, by an entry of t below j. */
  predicate Under(use: map<nat, Use>, f: nat, t: nat, j: nat) {
    Child(use, f, t, j) || (f in use && use[f].Node? && Child(use, use[f].parent, t, j))
  }

  /** Every level-0 table at or below t is clear. */
  ghost predicate Bare(m: Mem, t: nat)
    requires Pool(m)
  {
    forall f: nat :: IsTable(m, f) && Level(m.use[f]) == 0 && (f == t || Under(m.use, f, t, ENTRIES)) ==> Blank(m, f)
  }

  /** As far as entry j of t, there is no leaf. */
  ghost predicate BareTo(m: Mem, t: nat, j: nat)
    requires Pool(m) && IsTable(m, t) && j <= ENTRIES
  {
    && (forall f: nat :: IsTable(m, f) && Level(m.use[f]) == 0 && Under(m.use, f, t, j) ==> Blank(m, f))
    && (Level(m.use[t]) == 0 ==> forall k :: 0 <= k < j ==> !At(m, t, k).v)
  }

  /** The tables below the first j entries of t are gone, and those entries are clear. */
  ghost predicate SweptTo(m: Mem, m': Mem, t: nat, j: nat) {
    && SameMaps(m, m') && m'.use.Keys == m.use.Keys && m'.lo == m.lo && |m'.pages| == |m.pages| && IsTable(m, t)
        && IsTable(m', t)
    && (forall f: nat :: f in m.use ==> m'.use[f] == if Under(m.use, f, t, j) then Free else m.use[f])
    && (forall f: nat :: f in m.use && f < |m.pages| && m.use[f] != Free && f != t && !Under(m.use, f, t, j) ==>
        m'.pages[f] == m.pages[f])
    && (forall k: nat :: k < ENTRIES && k >= j ==> At(m', t, k) == At(m, t, k))
    && (forall k: nat :: k < ENTRIES && k < j ==> !At(m', t, k).v)
  }

  /** Table t, which hung under entry i of p, is gone with all below it. */
  ghost predicate Swept(m: Mem, m': Mem, t: nat, p: nat, i: nat) {
    && SameMaps(m, m') && m'.use.Keys == m.use.Keys && m'.lo == m.lo && |m'.pages| == |m.pages|
    && IsTable(m, p) && IsTable(m', p) && i < ENTRIES
    && (forall f: nat :: f in m.use ==> m'.use[f] == if f == t || Under(m.use, f, t, ENTRIES) then Free else m.use[f])
    && (forall f: nat ::
          f in m.use && f < |m.pages| && m.use[f] != Free && f != t && f != p && !Under(m.use, f, t, ENTRIES) ==>
            m'.pages[f] == m.pages[f])
    && (forall k: nat :: k < ENTRIES ==> At(m', p, k) == if k == i then EMPTY else At(m, p, k))
  }

  lemma SweptStart(m: Mem, t: nat)
    requires Trees(m) && IsTable(m, t)
    ensures SweptTo(m, m, t, 0)
  {
  }

  /** The only table under entry j of t is the one the entry points to. */
  lemma OnlyChild(m: Mem, t: nat, j: nat, f: nat)
    requires Trees(m) && IsTable(m, t) && j < ENTRIES && f in m.use && m.use[f].Node? && m.use[f].parent == t
    requires m.use[f].idx == j
    ensures At(m, t, j).v && At(m, t, j).ppn == f
  {
    assert UseRight(m, f);
  }

  /** An entry that is clear has no table under it. */
  lemma SweptSkip(m: Mem, m1: Mem, t: nat, j: nat)
    requires Trees(m) && SweptTo(m, m1, t, j) && j < ENTRIES && !At(m1, t, j).v
    ensures SweptTo(m, m1, t, j + 1)
  {
    hide Trees, SameMaps;
    forall f: nat | Child(m.use, f, t, j + 1) ensures Child(m.use, f, t, j) {
      if m.use[f].idx == j {
        OnlyChild(m, t, j, f);
      }
    }
  }

  lemma UnderNext(m: Mem, t: nat, j: nat, c: nat, f: nat)
    requires Trees(m) && IsTable(m, t) && j < ENTRIES && At(m, t, j).v && At(m, t, j).ppn == c && Level(m.use[t]) > 0
    ensures c in m.use && m.use[c].Node? && m.use[c].parent == t && m.use[c].idx == j
    ensures Under(m.use, f, t, j + 1) <==> Under(m.use, f, t, j) || f == c || Under(m.use, f, c, ENTRIES)
  {
    assert EntryRight(m, t, j);
    if f in m.use && m.use[f].Node? {
      assert UseRight(m, f);
      var p := m.use[f].parent;
      if p == t && m.use[f].idx == j {
        OnlyChild(m, t, j, f);
      }
      if p in m.use && m.use[p].Node? && m.use[p].parent == t && m.use[p].idx == j {
        OnlyChild(m, t, j, p);
      }
      if p in m.use && m.use[p].Node? && m.use[p].parent == c {
        assert UseRight(m, p) && UseRight(m, c);
      }
    }
  }

  /** What is below entry j of t is not below an earlier one. */
  lemma UnderApart(m: Mem, t: nat, j: nat, c: nat, f: nat)
    requires Trees(m) && IsTable(m, t) && j < ENTRIES && c in m.use && m.use[c].Node? && m.use[c].parent == t
    requires m.use[c].idx == j
    ensures f == c || Under(m.use, f, c, ENTRIES) ==> !Under(m.use, f, t, j) && f != t && f in m.use && m.use[f].Node?
    ensures f == c || Under(m.use, f, c, ENTRIES) ==> Under(m.use, f, t, ENTRIES)
  {
    assert UseRight(m, c);
    if f in m.use && m.use[f].Node? {
      assert UseRight(m, f);
      var p := m.use[f].parent;
      if p in m.use && m.use[p].Node? {
        assert UseRight(m, p);
      }
    }
  }

  /** What is below a table that has not been reached yet is as it was. */
  lemma UnderSame(m: Mem, m1: Mem, t: nat, j: nat, c: nat, f: nat)
    requires Trees(m) && SweptTo(m, m1, t, j) && j < ENTRIES
    requires c in m.use && m.use[c].Node? && m.use[c].parent == t && m.use[c].idx == j
    ensures c in m1.use && m1.use[c] == m.use[c]
    ensures Under(m1.use, f, c, ENTRIES) <==> Under(m.use, f, c, ENTRIES)
    ensures Under(m.use, f, c, ENTRIES) ==> !Under(m.use, f, t, j) && f != t && f in m.use && m1.use[f] == m.use[f]
  {
    UnderApart(m, t, j, c, f);
    UnderApart(m, t, j, c, c);
    if f in m.use && m.use[f].Node? {
      UnderApart(m, t, j, c, m.use[f].parent);
    }
    UnderKept(m, m1, t, j, c, f);
  }

  lemma UnderKept(m: Mem, m1: Mem, t: nat, j: nat, c: nat, f: nat)
    requires SweptTo(m, m1, t, j) && c in m.use && !Under(m.use, c, t, j)
    requires Under(m.use, f, c, ENTRIES) ==> f in m.use && !Under(m.use, f, t, j)
    requires f in m.use && m.use[f].Node? && Under(m.use, m.use[f].parent, c, ENTRIES) ==>
        !Under(m.use, m.use[f].parent, t, j)
    ensures m1.use[c] == m.use[c]
    ensures Under(m1.use, f, c, ENTRIES) <==> Under(m.use, f, c, ENTRIES)
    ensures Under(m.use, f, c, ENTRIES) ==> m1.use[f] == m.use[f]
  {
    hide Trees, SameMaps, At;
  }

  lemma SweptNext(m: Mem, m1: Mem, m2: Mem, t: nat, j: nat, c: nat)
    requires Trees(m) && Trees(m1) && SweptTo(m, m1, t, j) && j < ENTRIES && At(m1, t, j).v
    requires At(m1, t, j).ppn == c && Level(m.use[t]) > 0
    requires Swept(m1, m2, c, t, j)
    ensures SweptTo(m, m2, t, j + 1)
  {
    assert At(m, t, j) == At(m1, t, j);
    forall f: nat
      ensures Under(m.use, f, t, j + 1) <==> Under(m.use, f, t, j) || f == c || Under(m1.use, f, c, ENTRIES)
      ensures f == t ==> !Under(m.use, f, t, j + 1)
    {
      UnderNext(m, t, j, c, f);
      UnderSame(m, m1, t, j, c, f);
      NotUnderSelf(m, t, j + 1);
    }
    hide Trees, SameMaps, Under;
    MapsTwice(m, m1, m2);
    SweptUses(m, m1, m2, t, j, c);
  }

  lemma NotUnderSelf(m: Mem, t: nat, j: nat)
    requires Trees(m) && IsTable(m, t)
    ensures !Under(m.use, t, t, j)
  {
    assert UseRight(m, t);
    if m.use[t].Node? {
      assert UseRight(m, m.use[t].parent);
    }
  }

  lemma SweptUses(m: Mem, m1: Mem, m2: Mem, t: nat, j: nat, c: nat)
    requires SweptTo(m, m1, t, j) && j < ENTRIES && Swept(m1, m2, c, t, j) && c != t
    requires forall f: nat :: Under(m.use, f, t, j + 1) <==>
        Under(m.use, f, t, j) || f == c
        || Under(m1.use, f, c, ENTRIES)
    requires !Under(m.use, t, t, j + 1) && SameMaps(m, m2)
    ensures SweptTo(m, m2, t, j + 1)
  {
    hide Trees, SameMaps, Under;
    forall f: nat | f in m.use && f < |m.pages| && m.use[f] != Free && f != t && !Under(m.use, f, t, j + 1)
      ensures m2.pages[f] == m.pages[f]
    {
      assert m1.use[f] == m.use[f] && m1.pages[f] == m.pages[f];
    }
  }

  lemma BareChild(m: Mem, m1: Mem, t: nat, j: nat, c: nat)
    requires Trees(m) && Trees(m1) && SweptTo(m, m1, t, j) && j < ENTRIES && Level(m.use[t]) > 0 && Bare(m, t)
    requires c in m.use && m.use[c].Node? && m.use[c].parent == t && m.use[c].idx == j
    ensures Bare(m1, c)
  {
    forall f: nat | IsTable(m1, f) && Level(m1.use[f]) == 0 && (f == c || Under(m1.use, f, c, ENTRIES))
      ensures Blank(m1, f)
    {
      BareAt(m, m1, t, j, c, f);
    }
  }

  lemma BareAt(m: Mem, m1: Mem, t: nat, j: nat, c: nat, f: nat)
    requires Trees(m) && Trees(m1) && SweptTo(m, m1, t, j) && j < ENTRIES && Bare(m, t)
    requires c in m.use && m.use[c].Node? && m.use[c].parent == t && m.use[c].idx == j
    requires IsTable(m1, f) && Level(m1.use[f]) == 0 && (f == c || Under(m1.use, f, c, ENTRIES))
    ensures Blank(m1, f)
  {
    UnderSame(m, m1, t, j, c, f);
    UnderApart(m, t, j, c, f);
    UnderApart(m, t, j, c, c);
    InPool(m, f);
    hide Trees, SameMaps, Under;
    assert m1.use[f] == m.use[f] && IsTable(m, f);
    assert Blank(m, f);
    assert m1.pages[f] == m.pages[f];
    hide SweptTo, Bare;
    BlankSame(m, m1, f);
  }

  /** Entry j leads to a table, and that is bare too. */
  lemma BareNext(m: Mem, m1: Mem, t: nat, j: nat, c: nat)
    requires Trees(m) && Trees(m1) && SweptTo(m, m1, t, j) && j < ENTRIES && Level(m.use[t]) > 0 && BareTo(m, t, j)
    requires At(m1, t, j).v && At(m1, t, j).ppn == c && Bare(m1, c)
    ensures BareTo(m, t, j + 1)
  {
    assert At(m, t, j) == At(m1, t, j);
    forall f: nat | IsTable(m, f) && Level(m.use[f]) == 0 && Under(m.use, f, t, j + 1) ensures Blank(m, f) {
      UnderNext(m, t, j, c, f);
      if f == c || Under(m.use, f, c, ENTRIES) {
        BareBack(m, m1, t, j, c, f);
      }
    }
  }

  lemma BareBack(m: Mem, m1: Mem, t: nat, j: nat, c: nat, f: nat)
    requires Trees(m) && Trees(m1) && SweptTo(m, m1, t, j) && j < ENTRIES && Bare(m1, c)
    requires c in m.use && m.use[c].Node? && m.use[c].parent == t && m.use[c].idx == j
    requires IsTable(m, f) && Level(m.use[f]) == 0 && (f == c || Under(m.use, f, c, ENTRIES))
    ensures Blank(m, f)
  {
    UnderSame(m, m1, t, j, c, f);
    UnderApart(m, t, j, c, f);
    UnderApart(m, t, j, c, c);
    InPool(m, f);
    hide Trees, SameMaps, Under;
    assert m1.use[f] == m.use[f] && IsTable(m1, f);
    assert Blank(m1, f);
    assert m1.pages[f] == m.pages[f];
    hide SweptTo, Bare;
    BlankSame(m1, m, f);
  }

  lemma BareSkip(m: Mem, m1: Mem, t: nat, j: nat)
    requires Trees(m) && Trees(m1) && SweptTo(m, m1, t, j) && j < ENTRIES && BareTo(m, t, j) && !At(m1, t, j).v
    ensures BareTo(m, t, j + 1)
  {
    hide Trees, SameMaps;
    assert At(m, t, j) == At(m1, t, j);
    forall f: nat | Child(m.use, f, t, j + 1) ensures Child(m.use, f, t, j) {
      if m.use[f].idx == j {
        OnlyChild(m, t, j, f);
      }
    }
  }

  lemma BareAll(m: Mem, t: nat)
    requires Trees(m) && IsTable(m, t) && BareTo(m, t, ENTRIES)
    ensures Bare(m, t)
  {
    hide Trees, Under;
  }

  lemma BlankSame(m: Mem, m': Mem, f: nat)
    requires Pool(m) && Pool(m') && IsTable(m, f) && IsTable(m', f) && m'.pages[f] == m.pages[f] && Blank(m, f)
    ensures Blank(m', f)
  {
    forall j | 0 <= j < ENTRIES ensures !At(m', f, j).v {
      assert !At(m, f, j).v;
    }
  }

  /** Memory once table t is freed and the entry over it is cleared. */
  ghost function Freed(m: Mem, t: nat, p: nat, i: nat, head: nat): Mem
    requires t < |m.pages| && p < |m.pages| && m.pages[p].Table? && i < |m.pages[p].ptes|
  {
    Mem(m.lo, m.pages[t := Run(head)][p := Table(m.pages[p].ptes[i := EMPTY])], m.use[t := Free])
  }

  /** A table all of whose entries have been swept goes too. */
  lemma SweptEnd(m: Mem, m1: Mem, t: nat, p: nat, i: nat, head: nat, free: seq<nat>)
    requires Trees(m) && Trees(m1) && SweptTo(m, m1, t, ENTRIES) && FreeList(m1.pages, head, free, m1.use)
    requires m.use[t].Node? && m.use[t].parent == p && m.use[t].idx == i
    ensures p in m1.use && i < ENTRIES && p < |m1.pages| && t < |m1.pages| && m1.pages[p].Table?
    ensures |m1.pages[p].ptes| == ENTRIES && p != t
    ensures var m2 := Freed(m1, t, p, i, head);
            Trees(m2) && FreeList(m2.pages, t, [t] + free, m2.use) && Swept(m, m2, t, p, i)
  {
    NotUnderSelf(m, t, ENTRIES);
    ParentKept(m, m1, t, p, i);
    var m2 := Freed(m1, t, p, i, head);
    FreedDrops(m1, t, p, i, head);
    DropTrees(m1, m2, p, i, t);
    DropMaps(m1, m2, p, i, t);
    hide Trees, Lookup, Drops;
    MapsTwice(m, m1, m2);
    FreedList(m1, t, p, i, head, free);
    hide SameMaps, FreeList;
    SweptUsesEnd(m, m1, m2, t, p, i, head);
  }

  lemma ParentKept(m: Mem, m1: Mem, t: nat, p: nat, i: nat)
    requires Trees(m) && Trees(m1) && SweptTo(m, m1, t, ENTRIES) && m.use[t].Node? && m.use[t].parent == p
    requires m.use[t].idx == i
    ensures m1.use[t] == m.use[t] && p in m.use && p != t && i < ENTRIES && IsTable(m, p) && IsTable(m1, p)
    ensures m1.use[p] == m.use[p]
    ensures m1.pages[p] == m.pages[p] && !Under(m.use, p, t, ENTRIES) && Level(m.use[p]) == m.use[t].level + 1
    ensures m1.pages[p].Table? && |m1.pages[p].ptes| == ENTRIES && p < |m1.pages| && t < |m1.pages|
  {
    assert UseRight(m, t);
    NotUnderSelf(m, t, ENTRIES);
    InPool(m, p);
    InPool(m, t);
    if m.use[p].Node? {
      assert UseRight(m, p);
      if m.use[p].parent in m.use && m.use[m.use[p].parent].Node? {
        assert UseRight(m, m.use[p].parent);
      }
    }
    hide SameMaps;
  }

  lemma FreedDrops(m: Mem, t: nat, p: nat, i: nat, head: nat)
    requires Trees(m) && IsTable(m, t) && m.use[t].Node? && m.use[t].parent == p && m.use[t].idx == i
    requires i < ENTRIES && p != t
    requires IsTable(m, p) && Level(m.use[p]) == m.use[t].level + 1 && p < |m.pages| && t < |m.pages|
    requires m.pages[p].Table?
    requires |m.pages[p].ptes| == ENTRIES
    ensures Drops(m, Freed(m, t, p, i, head), p, i, t)
  {
    hide EntryRight, UseRight;
  }

  lemma FreedList(m: Mem, t: nat, p: nat, i: nat, head: nat, free: seq<nat>)
    requires Trees(m) && FreeList(m.pages, head, free, m.use) && IsTable(m, t) && IsTable(m, p) && p != t && i < ENTRIES
    requires p < |m.pages| && t < |m.pages| && m.pages[p].Table? && |m.pages[p].ptes| == ENTRIES
    ensures FreeList(Freed(m, t, p, i, head).pages, t, [t] + free, Freed(m, t, p, i, head).use)
  {
    hide Trees, FreeList;
    var pages := m.pages[p := Table(m.pages[p].ptes[i := EMPTY])];
    ListKept(m.pages, pages, head, free, m.use, m.use);
    ListPush(pages, head, free, m.use, t);
    assert pages[t := Run(head)] == Freed(m, t, p, i, head).pages;
  }

  lemma SweptUsesEnd(m: Mem, m1: Mem, m2: Mem, t: nat, p: nat, i: nat, head: nat)
    requires SweptTo(m, m1, t, ENTRIES) && SameMaps(m, m2) && p != t && i < ENTRIES && t < |m1.pages| && p < |m1.pages|
    requires IsTable(m, p) && IsTable(m1, p) && m1.pages[p] == m.pages[p] && m1.pages[p].Table?
    requires |m1.pages[p].ptes| == ENTRIES
    requires m2 == Freed(m1, t, p, i, head) && !Under(m.use, p, t, ENTRIES) && !Under(m.use, t, t, ENTRIES)
    ensures Swept(m, m2, t, p, i)
  {
    hide Trees, Under, SameMaps, SweptTo, IsTable, Pool, At, Freed;
    SweptPool(m, m1, m2, t, p, i, head);
    SweptPages(m, m1, m2, t, p, i, head);
    EntriesEnd(m, m1, m2, t, p, i, head);
  }

  lemma EntriesEnd(m: Mem, m1: Mem, m2: Mem, t: nat, p: nat, i: nat, head: nat)
    requires Pool(m) && Pool(m2) && IsTable(m, p) && IsTable(m2, p) && p != t && t < |m1.pages| && p < |m1.pages|
    requires i < ENTRIES
    requires m1.pages[p] == m.pages[p] && m1.pages[p].Table? && |m1.pages[p].ptes| == ENTRIES
    requires m2 == Freed(m1, t, p, i, head)
    ensures forall k: nat :: k < ENTRIES ==> At(m2, p, k) == if k == i then EMPTY else At(m, p, k)
  {
    hide Pool, IsTable;
  }

  lemma SweptPages(m: Mem, m1: Mem, m2: Mem, t: nat, p: nat, i: nat, head: nat)
    requires SweptTo(m, m1, t, ENTRIES) && t < |m1.pages| && p < |m1.pages| && m1.pages[p].Table?
    requires i < |m1.pages[p].ptes|
    requires m2 == Freed(m1, t, p, i, head)
    ensures |m2.pages| == |m.pages| && m2.lo == m.lo && m2.use.Keys == m.use.Keys
    ensures forall f: nat ::
              f in m.use && f < |m.pages| && m.use[f] != Free && f != t && f != p && !Under(m.use, f, t, ENTRIES) ==>
                m2.pages[f] == m.pages[f]
    ensures forall f: nat :: f in m.use ==>
              m2.use[f] == if f == t || Under(m.use, f, t, ENTRIES) then Free else m.use[f]
  {
    hide Trees, Under, SameMaps, At, Pool;
  }

  lemma SweptPool(m: Mem, m1: Mem, m2: Mem, t: nat, p: nat, i: nat, head: nat)
    requires SweptTo(m, m1, t, ENTRIES) && SameMaps(m, m2) && IsTable(m, p)
    requires t < |m1.pages| && p < |m1.pages| && m1.pages[p].Table? && i < |m1.pages[p].ptes|
    requires m2 == Freed(m1, t, p, i, head) && p != t && !Under(m.use, p, t, ENTRIES)
    ensures Pool(m) && Pool(m1) && Pool(m2) && IsTable(m2, p)
  {
  }

  /** The root of a space and every table below it are free; every other frame, and every other map, is as it was. */
  ghost predicate Dropped(m: Mem, m': Mem, t: nat) {
    && OtherMaps(m, m', t) && m'.use.Keys == m.use.Keys && m'.lo == m.lo && |m'.pages| == |m.pages|
    && (forall f: nat :: f in m.use ==> m'.use[f] == if f == t || Under(m.use, f, t, ENTRIES) then Free else m.use[f])
    && (forall f: nat :: f in m.use && f < |m.pages| && m.use[f] != Free && !IsTable(m, f) ==>
        m'.pages[f] == m.pages[f])
  }

  lemma RootEnd(m: Mem, m1: Mem, t: nat, head: nat, free: seq<nat>)
    requires Trees(m) && Trees(m1) && SweptTo(m, m1, t, ENTRIES) && FreeList(m1.pages, head, free, m1.use)
    requires m.use[t] == Root
    ensures t < |m1.pages|
    ensures var m2 := Mem(m1.lo, m1.pages[t := Run(head)], m1.use[t := Free]);
            Trees(m2) && FreeList(m2.pages, t, [t] + free, m2.use) && Dropped(m, m2, t)
  {
    hide Trees, Lookup, SameMaps, OtherMaps, FreeList, Under, Pool;
    SweptBlank(m, m1, t);
    NotUnderSelf(m, t, ENTRIES);
    InPool(m1, t);
    var m2 := Mem(m1.lo, m1.pages[t := Run(head)], m1.use[t := Free]);
    RootPool(m1, m2, t, head);
    RootDropped(m1, m2, t);
    ListPush(m1.pages, head, free, m1.use, t);
    OtherAfterSame(m, m1, m2, t);
    RootFrames(m, m1, m2, t, head);
  }

  lemma SweptBlank(m: Mem, m1: Mem, t: nat)
    requires Trees(m1) && SweptTo(m, m1, t, ENTRIES)
    ensures IsTable(m1, t) && Blank(m1, t)
  {
    hide Trees, SameMaps;
  }

  lemma RootFrames(m: Mem, m1: Mem, m2: Mem, t: nat, head: nat)
    requires SweptTo(m, m1, t, ENTRIES) && t < |m1.pages| && !Under(m.use, t, t, ENTRIES) && OtherMaps(m, m2, t)
    requires m2 == Mem(m1.lo, m1.pages[t := Run(head)], m1.use[t := Free])
    ensures Dropped(m, m2, t)
  {
    hide Trees, SameMaps, OtherMaps, Under, Pool, At;
    forall f: nat | f in m.use && f < |m.pages| && m.use[f] != Free
        && !IsTable(m, f) ensures m2.pages[f] == m.pages[f] {
      NotTable(m, f, t);
    }
  }

  lemma NotTable(m: Mem, f: nat, t: nat)
    requires f in m.use && !IsTable(m, f)
    ensures !Under(m.use, f, t, ENTRIES)
  {
  }

  lemma RootPool(m: Mem, m': Mem, t: nat, head: nat)
    requires Trees(m) && t in m.use && t < |m.pages| && m' == Mem(m.lo, m.pages[t := Run(head)], m.use[t := Free])
    ensures Pool(m')
  {
  }

  lemma OtherAfterSame(m: Mem, m1: Mem, m2: Mem, t: nat)
    requires SameMaps(m, m1) && OtherMaps(m1, m2, t)
    ensures OtherMaps(m, m2, t)
  {
    hide Trees, Lookup;
    forall r, v | r in m.use && m.use[r] == Root && r != t
        && 0 <= v < MAXVPN ensures Lookup(m2, r, v) == Lookup(m, r, v) {
      assert Lookup(m1, r, v) == Lookup(m, r, v);
    }
  }

  // ---------------------------------------------------------------- giving up page tables

  /**
   Frees a table and all below it. The caller clears the entry that pointed to it, so
   for a table under an entry the promise is about memory with that entry cleared.
   */
  method Freewalk(vm: Vm, t: nat, ghost level: nat, ghost p: nat, ghost i: nat) returns (o: Outcome)
    requires vm.Valid() && IsTable(Mem(vm.lo, vm.pages, vm.use), t) && level == Level(vm.use[t])
    requires level < 2 ==> vm.use[t].parent == p && vm.use[t].idx == i
    modifies vm`pages, vm`freelist, vm`use, vm`free
    ensures o == if Bare(old(Mem(vm.lo, vm.pages, vm.use)), t) then Done else Panic
    ensures o == Panic ==> vm.Valid() && SameMaps(old(Mem(vm.lo, vm.pages, vm.use)), Mem(vm.lo, vm.pages, vm.use))
    ensures o == Done && level < 2 ==>
              && p < |vm.pages| && vm.pages[p].Table? && |vm.pages[p].ptes| == ENTRIES && i < ENTRIES
              && var m2 := Mem(vm.lo, vm.pages[p := Table(vm.pages[p].ptes[i := EMPTY])], vm.use);
              && Trees(m2) && FreeList(m2.pages, vm.freelist, vm.free, vm.use)
                  && Swept(old(Mem(vm.lo, vm.pages, vm.use)), m2, t, p, i)
    ensures o == Done && level == 2 ==>
              vm.Valid() && Dropped(old(Mem(vm.lo, vm.pages, vm.use)), Mem(vm.lo, vm.pages, vm.use), t)
    decreases level
  {
    hide Trees, FreeList, SweptTo, Swept, SameMaps, Bare, BareTo, Dropped, Under, PageOk;
    ghost var m := Mem(vm.lo, vm.pages, vm.use);
    TableUse(m, t);
    SweptStart(m, t);
    BareStart(m, t);
    for j := 0 to ENTRIES
      invariant vm.Valid() && SweptTo(m, Mem(vm.lo, vm.pages, vm.use), t, j) && BareTo(m, t, j)
    {
      o := FreeEntry(vm, t, j, level, m);
      if o == Panic {
        return;
      }
    }
    BareAll(m, t);
    ghost var m1 := Mem(vm.lo, vm.pages, vm.use);
    SweptPlace(m, m1, t);
    if level < 2 {
      SweptEnd(m, m1, t, p, i, vm.freelist, vm.free);
    } else {
      RootEnd(m, m1, t, vm.freelist, vm.free);
    }
    ghost var head := vm.freelist;
    var ok := vm.Kfree(t);
    assert ok;
    vm.use, vm.free := vm.use[t := Free], [t] + vm.free;
    o := Done;
    if level < 2 {
      assert Mem(vm.lo, vm.pages[p := Table(vm.pages[p].ptes[i := EMPTY])], vm.use) == Freed(m1, t, p, i, head);
    }
  }

  lemma TableUse(m: Mem, t: nat)
    requires Trees(m) && IsTable(m, t)
    ensures 0 <= Level(m.use[t]) <= 2 && (Level(m.use[t]) == 2 <==> m.use[t] == Root)
    ensures (Level(m.use[t]) < 2 <==> m.use[t].Node?)
  {
    InPool(m, t);
  }

  lemma SweptPlace(m: Mem, m1: Mem, t: nat)
    requires Trees(m) && Trees(m1) && SweptTo(m, m1, t, ENTRIES)
    ensures m1.lo <= t < |m1.pages| && m1.use[t] == m.use[t]
  {
    NotUnderSelf(m, t, ENTRIES);
    InPool(m1, t);
    hide Trees, SameMaps, Under;
  }

  /** One round of the loop of freewalk; a leaf is a panic. */
  method FreeEntry(vm: Vm, t: nat, j: nat, ghost level: nat, ghost m: Mem) returns (o: Outcome)
    requires vm.Valid() && Trees(m) && IsTable(m, t) && level == Level(m.use[t]) && j < ENTRIES && BareTo(m, t, j)
    requires SweptTo(m, Mem(vm.lo, vm.pages, vm.use), t, j)
    modifies vm`pages, vm`freelist, vm`use, vm`free
    ensures vm.Valid() && (o == Done || o == Panic)
    ensures o == Panic ==> !Bare(m, t) && SameMaps(m, Mem(vm.lo, vm.pages, vm.use))
    ensures o == Done ==> SweptTo(m, Mem(vm.lo, vm.pages, vm.use), t, j + 1) && BareTo(m, t, j + 1)
    decreases level, 0
  {
    hide Trees, FreeList, SweptTo, Swept, SameMaps, Bare, BareTo, Dropped, Under, PageOk;
    ghost var m1 := Mem(vm.lo, vm.pages, vm.use);
    SweptTable(m, m1, t, j);
    var pte := vm.pages[t].ptes[j];
    o := Done;
    if pte.v && !Leafy(pte.perm) {
      var child := pte.ppn;
      ChildReady(m, m1, t, j, child);
      o := Freewalk(vm, child, level - 1, t, j);
      if o == Panic {
        MapsTwice(m, m1, Mem(vm.lo, vm.pages, vm.use));
        return;
      }
      vm.pages := vm.pages[t := Table(vm.pages[t].ptes[j := EMPTY])];
      SweptNext(m, m1, Mem(vm.lo, vm.pages, vm.use), t, j, child);
      BareNext(m, m1, t, j, child);
    } else if pte.v {
      LeafFound(m, m1, t, j);
      o := Panic;
    } else {
      SweptSkip(m, m1, t, j);
      BareSkip(m, m1, t, j);
    }
  }

  lemma BareStart(m: Mem, t: nat)
    requires Trees(m) && IsTable(m, t)
    ensures BareTo(m, t, 0)
  {
  }

  lemma SweptTable(m: Mem, m1: Mem, t: nat, j: nat)
    requires Trees(m1) && SweptTo(m, m1, t, j)
    ensures IsTable(m1, t) && t < |m1.pages| && m1.pages[t].Table? && |m1.pages[t].ptes| == ENTRIES && SameMaps(m, m1)
  {
    InPool(m1, t);
    hide Trees, SameMaps;
  }

  /** A valid entry that is no leaf leads to a table one level down. */
  lemma ChildReady(m: Mem, m1: Mem, t: nat, j: nat, c: nat)
    requires Trees(m) && Trees(m1) && SweptTo(m, m1, t, j) && j < ENTRIES && IsTable(m, t)
    requires IsTable(m1, t) && At(m1, t, j).v && !Leafy(At(m1, t, j).perm) && At(m1, t, j).ppn == c
    ensures Level(m.use[t]) > 0 && IsTable(m1, c) && Level(m1.use[c]) == Level(m.use[t]) - 1 && Level(m1.use[c]) < 2
    ensures m1.use[c].Node? && m1.use[c].parent == t && m1.use[c].idx == j && (Bare(m, t) ==> Bare(m1, c))
  {
    assert At(m, t, j) == At(m1, t, j);
    assert EntryRight(m, t, j);
    InPool(m, t);
    hide EntryRight, UseRight, PageOk;
    UnderSame(m, m1, t, j, c, c);
    if Bare(m, t) {
      BareChild(m, m1, t, j, c);
    }
  }

  /** A leaf is in a level-0 table. */
  lemma LeafFound(m: Mem, m1: Mem, t: nat, j: nat)
    requires Trees(m) && Trees(m1) && SweptTo(m, m1, t, j) && j < ENTRIES && IsTable(m, t) && IsTable(m1, t)
    requires At(m1, t, j).v && Leafy(At(m1, t, j).perm)
    ensures !Bare(m, t)
  {
    assert At(m, t, j) == At(m1, t, j);
    assert EntryRight(m, t, j);
    assert !Blank(m, t);
  }

  // ---------------------------------------------------------------- giving up an address space

  /** An address space has tables below MAXVA only. */
  ghost predicate TablesBelow(use: map<nat, Use>, root: nat) {
    forall f: nat :: f in use && use[f].Node? && use[f].parent == root ==> use[f].idx < MAXVPN / (ENTRIES * ENTRIES)
  }

  /** With no page mapped, the level-0 tables are clear. */
  lemma VacantIsBare(m: Mem, root: nat)
    requires Trees(m) && root in m.use && m.use[root] == Root && TablesBelow(m.use, root) && Vacant(m, root, 0, MAXVPN)
    ensures Bare(m, root)
  {
    forall f: nat | IsTable(m, f) && Level(m.use[f]) == 0 && (f == root || Under(m.use, f, root, ENTRIES))
      ensures Blank(m, f)
    {
      VacantTable(m, root, f);
    }
  }

  lemma VacantTable(m: Mem, root: nat, f: nat)
    requires Trees(m) && root in m.use && m.use[root] == Root && TablesBelow(m.use, root) && Vacant(m, root, 0, MAXVPN)
    requires IsTable(m, f) && Level(m.use[f]) == 0 && Under(m.use, f, root, ENTRIES)
    ensures Blank(m, f)
  {
    var mid := m.use[f].parent;
    assert UseRight(m, f) && UseRight(m, mid);
    var i2, i1 := m.use[mid].idx, m.use[f].idx;
    hide Trees, Lookup, Under, I0, I1, I2;
    forall j | 0 <= j < ENTRIES ensures !At(m, f, j).v {
      var v := (i2 * ENTRIES + i1) * ENTRIES + j;
      PageBelow(i2, i1, j);
      Split(i2, i1, j);
      LowByUse(m, root, v, f);
      LookupIs(m, root, v);
    }
  }

  /** A page that is mapped is an entry of a level-0 table. */
  lemma BareIsVacant(m: Mem, root: nat)
    requires Trees(m) && root in m.use && m.use[root] == Root && Bare(m, root)
    ensures Vacant(m, root, 0, MAXVPN)
  {
    forall v | 0 <= v < MAXVPN ensures !Lookup(m, root, v).v {
      var f := Low(m, root, v);
      if f != 0 {
        assert Under(m.use, f, root, ENTRIES);
        assert Blank(m, f);
      }
    }
  }

  lemma PageBelow(i2: nat, i1: nat, j: nat)
    requires i2 < MAXVPN / (ENTRIES * ENTRIES) && i1 < ENTRIES && j < ENTRIES
    ensures (i2 * ENTRIES + i1) * ENTRIES + j < MAXVPN
  {
  }

  /** Every frame of an address space of n pages is free; every other frame is as it was. */
  ghost predicate SpaceGone(m: Mem, m': Mem, root: nat, n: nat) {
    && OtherMaps(m, m', root) && m'.use.Keys == m.use.Keys
    && forall f: nat :: f in m.use ==>
         m'.use[f] == if f == root || Under(m.use, f, root, ENTRIES) || InRun(m.use, f, root, 0, n) then Free
                      else m.use[f]
  }

  /** Frees the pages of an address space and then its tables. */
  method UvmFree(vm: Vm, root: nat, sz: nat) returns (o: Outcome)
    requires vm.Valid() && root in vm.use && vm.use[root] == Root && Up(sz) <= MAXVPN
    requires OwnsPages(Mem(vm.lo, vm.pages, vm.use), root, 0, Up(sz)) && TablesBelow(vm.use, root)
    modifies vm`pages, vm`freelist, vm`use, vm`free
    ensures var m := old(Mem(vm.lo, vm.pages, vm.use));
            o == if HasTables(m, root, 0, Up(sz)) && Vacant(m, root, Up(sz), MAXVPN - Up(sz)) then Done else Panic
    ensures vm.Valid()
    ensures o == Done ==> SpaceGone(old(Mem(vm.lo, vm.pages, vm.use)), Mem(vm.lo, vm.pages, vm.use), root, Up(sz))
  {
    hide Trees, FreeList, Lookup, Unmapped, Bare, OwnsPage, Dropped, SpaceGone, HasTables, TablesBelow, Vacant,
        SameMaps;
    ghost var m := Mem(vm.lo, vm.pages, vm.use);
    UnmappedNone(m, root, 0, true);
    SizeZero(m, root, sz);
    o := Done;
    if sz > 0 {
      ghost var k;
      o, k := UvmUnmap(vm, root, 0, Up(sz), true);
      if o == Panic {
        return;
      }
    }
    ghost var m1 := Mem(vm.lo, vm.pages, vm.use);
    EmptySpace(m, m1, root, Up(sz));
    o := Freewalk(vm, root, 2, 0, 0);
    if o == Panic {
      return;
    }
    SpaceDropped(m, m1, Mem(vm.lo, vm.pages, vm.use), root, Up(sz));
  }

  lemma SizeZero(m: Mem, root: nat, sz: nat)
    requires Trees(m) && root in m.use && m.use[root] == Root
    ensures sz == 0 ==> Up(sz) == 0 && HasTables(m, root, 0, Up(sz))
  {
    hide Trees;
  }

  /** Once its pages are unmapped, an address space has a leaf only if it had a page above them. */
  lemma EmptySpace(m: Mem, m1: Mem, root: nat, n: nat)
    requires Unmapped(m, m1, root, 0, n, true) && root in m.use && m.use[root] == Root && n <= MAXVPN
    requires TablesBelow(m.use, root)
    ensures IsTable(m1, root) && m1.use[root] == Root && (Bare(m1, root) <==> Vacant(m, root, n, MAXVPN - n))
  {
    hide Trees, Lookup, Low, InRun, Bare, Under, TablesBelow;
    EmptyBelow(m, m1, root, n);
    if Bare(m1, root) {
      BareIsVacant(m1, root);
    }
    if Vacant(m1, root, 0, MAXVPN) {
      VacantIsBare(m1, root);
    }
  }

  lemma EmptyBelow(m: Mem, m1: Mem, root: nat, n: nat)
    requires Unmapped(m, m1, root, 0, n, true) && root in m.use && m.use[root] == Root && n <= MAXVPN
    requires TablesBelow(m.use, root)
    ensures IsTable(m1, root) && m1.use[root] == Root && TablesBelow(m1.use, root)
    ensures Vacant(m1, root, 0, MAXVPN) <==> Vacant(m, root, n, MAXVPN - n)
  {
    hide Trees, Lookup, Low, InRun;
    if Vacant(m1, root, 0, MAXVPN) {
      forall v | n <= v < MAXVPN ensures !Lookup(m, root, v).v {
        assert !Lookup(m1, root, v).v;
      }
    }
  }

  lemma SpaceDropped(m: Mem, m1: Mem, m2: Mem, root: nat, n: nat)
    requires Unmapped(m, m1, root, 0, n, true) && Dropped(m1, m2, root) && root in m.use && m.use[root] == Root
    ensures SpaceGone(m, m2, root, n)
  {
    hide Trees, MapsGone, FramesGone, OtherMaps, Under, InRun;
    forall f: nat | f in m.use ensures Under(m1.use, f, root, ENTRIES) <==> Under(m.use, f, root, ENTRIES) {
      UnderUnmapped(m, m1, root, n, f);
    }
    SpaceMaps(m, m1, m2, root, n);
    SpaceFrames(m, m1, m2, root, n);
  }

  lemma SpaceMaps(m: Mem, m1: Mem, m2: Mem, root: nat, n: nat)
    requires MapsGone(m, m1, root, 0, n) && OtherMaps(m1, m2, root)
    ensures OtherMaps(m, m2, root)
  {
    hide Trees, Lookup, Low;
    forall r, v | r in m.use && m.use[r] == Root && r != root
        && 0 <= v < MAXVPN ensures Lookup(m2, r, v) == Lookup(m, r, v) {
      assert Lookup(m1, r, v) == Lookup(m, r, v);
    }
  }

  lemma SpaceFrames(m: Mem, m1: Mem, m2: Mem, root: nat, n: nat)
    requires FramesGone(m, m1, root, 0, n, true) && m2.use.Keys == m1.use.Keys
    requires forall f: nat :: f in m1.use ==>
               m2.use[f] == if f == root || Under(m1.use, f, root, ENTRIES) then Free else m1.use[f]
    requires forall f: nat :: f in m.use ==> (Under(m1.use, f, root, ENTRIES) <==> Under(m.use, f, root, ENTRIES))
    ensures m2.use.Keys == m.use.Keys
    ensures forall f: nat :: f in m.use ==>
              m2.use[f] == if f == root || Under(m.use, f, root, ENTRIES) || InRun(m.use, f, root, 0, n) then Free
                           else m.use[f]
  {
    hide Under, InRun;
  }

  lemma UnderUnmapped(m: Mem, m1: Mem, root: nat, n: nat, f: nat)
    requires FramesGone(m, m1, root, 0, n, true) && f in m.use
    ensures Under(m1.use, f, root, ENTRIES) <==> Under(m.use, f, root, ENTRIES)
  {
  }

  // ---------------------------------------------------------------- bytes in and out

  /** The frame that user code reaches at a page, or 0. */
  ghost function UserFrame(m: Mem, root: nat, vpn: nat): nat
    requires Trees(m) && root in m.use && m.use[root] == Root
  {
    if vpn < MAXVPN && Lookup(m, root, vpn).v && Lookup(m, root, vpn).perm.u then Lookup(m, root, vpn).ppn else 0
  }

  lemma UserFrameIs(m: Mem, root: nat, vpn: nat)
    requires Trees(m) && root in m.use && m.use[root] == Root && vpn < MAXVPN && Lookup(m, root, vpn).v
    requires Lookup(m, root, vpn).perm.u
    ensures var f := Lookup(m, root, vpn).ppn;
            f != 0 && f in m.use && f < |m.pages| && (m.use[f].User? || m.use[f] == Kernel) && IsPage(m.pages[f])
  {
    MappedHasTable(m, root, vpn);
    LookupIs(m, root, vpn);
    assert EntryRight(m, Low(m, root, vpn), I0(vpn));
    InPool(m, Lookup(m, root, vpn).ppn);
  }

  method Walkaddr(vm: Vm, root: nat, vpn: nat) returns (f: nat)
    requires vm.Valid() && root in vm.use && vm.use[root] == Root
    modifies vm`pages, vm`freelist, vm`use, vm`free
    ensures vm.pages == old(vm.pages) && vm.freelist == old(vm.freelist) && vm.use == old(vm.use)
    ensures vm.free == old(vm.free)
    ensures f == UserFrame(Mem(vm.lo, vm.pages, vm.use), root, vpn)
    ensures var m := Mem(vm.lo, vm.pages, vm.use);
            && (f != 0 <==> vpn < MAXVPN && Lookup(m, root, vpn).v && Lookup(m, root, vpn).perm.u)
            && (f != 0 ==> f == Lookup(m, root, vpn).ppn)
    ensures f != 0 ==> f < |vm.pages| && f in vm.use && (vm.use[f].User? || vm.use[f] == Kernel) && IsPage(vm.pages[f])
  {
    hide Trees, FreeList, Lookup, Low;
    ghost var m := Mem(vm.lo, vm.pages, vm.use);
    f := 0;
    if vpn >= MAXVPN {
      return;
    }
    var t := vm.Walk(root, vpn, false);
    if t == 0 {
      MappedHasTable(m, root, vpn);
      return;
    }
    LookupIs(m, root, vpn);
    InPool(m, t);
    var pte := vm.pages[t].ptes[I0(vpn)];
    if !pte.v || !pte.perm.u {
      return;
    }
    UserFrameIs(m, root, vpn);
    f := pte.ppn;
  }
}
