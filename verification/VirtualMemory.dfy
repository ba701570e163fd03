/**
 The frame allocator and the page-table code (kernel/kalloc.c, kernel/vm.c), on the
 frames of PageTable.dfy.
 */
module VirtualMemory {
  import opened Blocks
  import opened PageTable
  import opened Sequences

  // ---------------------------------------------------------------- the free list

  function Head(free: seq<nat>): nat {
    if free == [] then 0 else free[0]
  }

  predicate RunAt(pages: seq<Page>, free: seq<nat>, k: nat)
    requires k < |free|
  {
    free[k] < |pages| && pages[free[k]] == Run(Head(free[k + 1..]))
  }

  /** The list from head threads exactly the free frames, each once. */
  ghost predicate FreeList(pages: seq<Page>, head: nat, free: seq<nat>, use: map<nat, Use>) {
    && head == Head(free) && NoRepeats(free)
    && (forall k :: 0 <= k < |free| ==> RunAt(pages, free, k))
    && (forall f: nat :: f in free <==> f in use && use[f] == Free)
  }

  lemma ListPush(pages: seq<Page>, head: nat, free: seq<nat>, use: map<nat, Use>, f: nat)
    requires FreeList(pages, head, free, use) && f < |pages| && f in use && use[f] != Free
    ensures FreeList(pages[f := Run(head)], f, [f] + free, use[f := Free])
  {
    var pages', free' := pages[f := Run(head)], [f] + free;
    forall k | 0 <= k < |free'| ensures RunAt(pages', free', k) {
      assert free'[k + 1..] == free[k..];
      if k > 0 {
        assert RunAt(pages, free, k - 1);
        assert free'[k] in free;
      }
    }
    assert forall g: nat :: g in free' <==> g == f || g in free;
  }

  lemma ListPop(pages: seq<Page>, head: nat, free: seq<nat>, use: map<nat, Use>, p: Page, u: Use)
    requires FreeList(pages, head, free, use) && free != [] && head < |pages| && u != Free
    ensures RunAt(pages, free, 0)
    ensures FreeList(pages[head := p], Head(free[1..]), free[1..], use[head := u])
  {
    assert RunAt(pages, free, 0);
    var pages', free' := pages[head := p], free[1..];
    forall k | 0 <= k < |free'| ensures RunAt(pages', free', k) {
      assert RunAt(pages, free, k + 1);
      assert free'[k + 1..] == free[k + 2..];
    }
    forall g: nat ensures g in free' <==> g in free && g != head {
      assert free == [head] + free';
      if g in free' {
        var k :| 0 <= k < |free'| && free'[k] == g;
        assert free[k + 1] == g;
      }
    }
  }

  /** Changes away from the free frames leave the list as it is. */
  lemma ListKept(pages: seq<Page>, pages': seq<Page>, head: nat, free: seq<nat>, use: map<nat, Use>,
                 use': map<nat, Use>)
    requires FreeList(pages, head, free, use) && |pages'| == |pages|
    requires forall f: nat :: f in use' && use'[f] == Free <==> f in use && use[f] == Free
    requires forall f: nat :: f < |pages| && f in use && use[f] == Free ==> pages'[f] == pages[f]
    ensures FreeList(pages', head, free, use')
  {
    forall k | 0 <= k < |free| ensures RunAt(pages', free, k) {
      assert RunAt(pages, free, k) && free[k] in free;
    }
  }

  // ---------------------------------------------------------------- what taking tables may change

  /** Tables that were there for a page still are. */
  ghost predicate SameLows(m: Mem, m': Mem)
    requires SameMaps(m, m')
  {
    forall r, v :: r in m.use && m.use[r] == Root && 0 <= v < MAXVPN && Low(m, r, v) != 0 ==>
        Low(m', r, v) == Low(m, r, v)
  }

  /** Frames in use keep their use and their bytes; free ones stay free or become tables. */
  ghost predicate FramesKept(m: Mem, m': Mem) {
    && m'.use.Keys == m.use.Keys && m'.lo == m.lo && |m'.pages| == |m.pages|
    && (forall f: nat :: f in m.use && m.use[f] != Free ==> m'.use[f] == m.use[f])
    && (forall f: nat :: f in m.use && f < |m.pages| && m.use[f] != Free && !IsTable(m, f) ==>
        m'.pages[f] == m.pages[f])
    && (forall f: nat :: f in m.use && m.use[f] == Free ==> m'.use[f] == Free || m'.use[f].Node?)
  }

  predicate Suffix(free: seq<nat>, free': seq<nat>) {
    |free'| <= |free| && free' == free[|free| - |free'|..]
  }

  /** Table f is one that a walk to page v passes through. */
  predicate OnPath(use: map<nat, Use>, f: nat, root: nat, v: nat) {
    && v < MAXVPN && f in use && use[f].Node?
    && (use[f] == Node(1, root, I2(v))
        || (use[f].level == 0 && use[f].idx == I1(v) && use[f].parent in use
            && use[use[f].parent] == Node(1, root, I2(v))))
  }

  /** Every frame that was free and is a table now is on the way to one of n pages. */
  ghost predicate NewOnPath(use: map<nat, Use>, use': map<nat, Use>, root: nat, first: nat, n: nat) {
    forall f: nat :: f in use && use[f] == Free && f in use' && use'[f].Node? ==>
      exists v :: first <= v < first + n && OnPath(use', f, root, v)
  }

  lemma NewOnPathNone(use: map<nat, Use>, root: nat, first: nat, n: nat)
    ensures NewOnPath(use, use, root, first, n)
  {
  }

  /** One more table on the way. */
  lemma NewOnPathStep(use: map<nat, Use>, use1: map<nat, Use>, t: nat, level: int, p: nat, i: nat, root: nat, v: nat)
    requires NewOnPath(use, use1, root, v, 1) && t in use1 && use1[t] == Free && p in use1 && v < MAXVPN
    requires level == 2 ==> p == root && i == I2(v)
    requires level != 2 ==> level == 1 && use1[p] == Node(1, root, I2(v)) && i == I1(v)
    ensures NewOnPath(use, use1[t := Node(level - 1, p, i)], root, v, 1)
  {
    hide I1, I2;
    var use2 := use1[t := Node(level - 1, p, i)];
    assert OnPath(use2, t, root, v);
    forall f: nat | f in use && use[f] == Free && f in use2 && use2[f].Node?
      ensures exists w :: v <= w < v + 1 && OnPath(use2, f, root, w)
    {
      if f != t {
        var w :| v <= w < v + 1 && OnPath(use1, f, root, w);
        assert OnPath(use2, f, root, w);
      }
    }
  }

  /** Frames left the free list for page tables, and nothing else changed: no map, no page of bytes. */
  ghost predicate Took(m: Mem, m': Mem, free: seq<nat>, free': seq<nat>) {
    SameMaps(m, m') && SameLows(m, m') && FramesKept(m, m') && Suffix(free, free')
  }

  lemma TookNone(m: Mem, free: seq<nat>)
    requires Trees(m)
    ensures Took(m, m, free, free)
  {
  }

  lemma MapsTwice(m: Mem, m1: Mem, m2: Mem)
    requires SameMaps(m, m1) && SameMaps(m1, m2)
    ensures SameMaps(m, m2)
    ensures SameLows(m, m1) && SameLows(m1, m2) ==> SameLows(m, m2)
  {
    hide Trees, Lookup, Low;
    forall r, v | r in m.use && m.use[r] == Root && 0 <= v < MAXVPN ensures Lookup(m2, r, v) == Lookup(m, r, v) {
      assert Lookup(m1, r, v) == Lookup(m, r, v);
    }
    if SameLows(m, m1) && SameLows(m1, m2) {
      forall r, v | r in m.use && m.use[r] == Root && 0 <= v < MAXVPN
          && Low(m, r, v) != 0 ensures Low(m2, r, v) == Low(m, r, v) {
        assert Low(m1, r, v) == Low(m, r, v);
      }
    }
  }

  lemma FramesTwice(m: Mem, m1: Mem, m2: Mem)
    requires FramesKept(m, m1) && FramesKept(m1, m2)
    ensures FramesKept(m, m2)
  {
    forall f: nat | f in m.use && f < |m.pages| && m.use[f] != Free
        && !IsTable(m, f) ensures m2.pages[f] == m.pages[f] {
      assert m1.use[f] == m.use[f] && m1.pages[f] == m.pages[f];
    }
  }

  lemma SuffixTwice(free: seq<nat>, free1: seq<nat>, free2: seq<nat>)
    requires Suffix(free, free1) && Suffix(free1, free2)
    ensures Suffix(free, free2)
  {
  }

  lemma TookTwice(m: Mem, m1: Mem, m2: Mem, free: seq<nat>, free1: seq<nat>, free2: seq<nat>)
    requires Took(m, m1, free, free1) && Took(m1, m2, free1, free2)
    ensures Took(m, m2, free, free2)
  {
    hide SameMaps, SameLows, FramesKept, Suffix;
    MapsTwice(m, m1, m2);
    FramesTwice(m, m1, m2);
    SuffixTwice(free, free1, free2);
  }

  /** Taking frame t and hanging it, blank, under entry i of table p. */
  lemma TakeAndHang(m: Mem, p: nat, i: nat, t: nat, junk: Page, free: seq<nat>)
    requires Trees(m) && IsTable(m, p) && Level(m.use[p]) > 0 && i < ENTRIES && !At(m, p, i).v
    requires free != [] && t == free[0] && t in m.use && m.use[t] == Free && PageOk(Held, junk)
    ensures var m1 := Mem(m.lo, m.pages[t := junk], m.use[t := Held]);
            && IsTable(m1, p) && Trees(m1) && m1.use[p] == m.use[p]
            && var m2 := Hang(m1, p, i, t);
            && Trees(m2) && Took(m, m2, free, free[1..]) && IsTable(m2, p) && Level(m2.use[p]) > 0
                && Below(m2, p, i) == t
  {
    PageChanges(m, t, junk, Held);
    var m1 := Mem(m.lo, m.pages[t := junk], m.use[t := Held]);
    TablesMaps(m, m1);
    hide PageOk, EntryRight, UseRight;
    HangShape(m1, p, i, t);
    var m2 := Hang(m1, p, i, t);
    assert !At(m1, p, i).v;
    HangTrees(m1, m2, p, i, t);
    HangMaps(m1, m2, p, i, t);
    HangBelow(m1, m2, p, i, t, p, i);
    MapsTwice(m, m1, m2);
    FramesOne(m, m2, p, t);
    assert Suffix(free, free[1..]);
  }

  lemma FramesOne(m: Mem, m2: Mem, p: nat, t: nat)
    requires IsTable(m, p) && t in m.use && m.use[t] == Free && t < |m.pages|
    requires m2.lo == m.lo && |m2.pages| == |m.pages| && t in m2.use && m2.use[t].Node?
    requires forall f :: f in m2.use <==> f in m.use
    requires forall f :: f in m.use && f != t ==> m2.use[f] == m.use[f]
    requires forall f :: 0 <= f < |m.pages| && f != t && f != p ==> m2.pages[f] == m.pages[f]
    ensures FramesKept(m, m2)
  {
  }

  // ---------------------------------------------------------------- the code

  function Junk(b: Byte): (p: Page)
    ensures PageOk(Held, p) && p.Data? && |p.bytes| == PGSIZE && forall i :: 0 <= i < PGSIZE ==> p.bytes[i] == b
  {
    Data(seq(PGSIZE, _ => b))
  }

  ghost function AllHeld(lo: nat, hi: nat): (u: map<nat, Use>)
    ensures forall f: nat :: f in u <==> lo <= f < hi
    ensures forall f :: f in u ==> u[f] == Held
    decreases hi
  {
    if hi <= lo then map[] else AllHeld(lo, hi - 1)[hi - 1 := Held]
  }

  class Vm {
    /** The frames the allocator manages are those from lo on. */
    const lo: nat
    var pages: seq<Page>
    var freelist: nat
    ghost var use: map<nat, Use>
    ghost var free: seq<nat>

    ghost predicate Valid()
      reads this
    {
      Trees(Mem(lo, pages, use)) && FreeList(pages, freelist, free, use)
    }

    /** Hands every frame to the allocator, lowest first, as freerange does. */
    constructor (lo: nat, hi: nat)
      requires 0 < lo <= hi
      ensures Valid() && this.lo == lo && |pages| == hi && (forall f: nat :: f in use <==> lo <= f < hi)
      ensures (forall f :: f in use ==> use[f] == Free) && |free| == hi - lo
    {
      this.lo := lo;
      pages := seq(hi, _ => Data(seq(PGSIZE, _ => 0)));
      freelist := 0;
      use := AllHeld(lo, hi);
      free := [];
      new;
      var p := lo;
      while p < hi
        invariant lo <= p <= hi && Valid() && |pages| == hi && (forall f: nat :: f in use <==> lo <= f < hi)
        invariant (forall f :: f in use ==> use[f] == if f < p then Free else Held) && |free| == p - lo
      {
        FreeHeld(p);
        p := p + 1;
      }
    }

    /** Puts a frame on the list; false is the panic on an address outside the pool. */
    method Kfree(f: nat) returns (ok: bool)
      modifies this`pages, this`freelist
      ensures ok <==> lo <= f < |old(pages)|
      ensures ok ==> pages == old(pages)[f := Run(old(freelist))] && freelist == f
      ensures !ok ==> pages == old(pages) && freelist == old(freelist)
    {
      ok := lo <= f < |pages|;
      if ok {
        pages := pages[f := Run(freelist)];
        freelist := f;
      }
    }

    method FreeHeld(f: nat)
      requires Valid() && f in use && use[f] == Held
      modifies this`pages, this`freelist, this`use, this`free
      ensures Valid() && use == old(use)[f := Free] && free == [f] + old(free)
      ensures f < |old(pages)| && pages == old(pages)[f := Run(old(freelist))]
      ensures SameTables(old(Mem(lo, pages, use)), Mem(lo, pages, use))
    {
      hide EntryRight, UseRight;
      InPool(Mem(lo, pages, use), f);
      PageChanges(Mem(lo, pages, use), f, Run(freelist), Free);
      ListPush(pages, freelist, free, use, f);
      var ok := Kfree(f);
      use, free := use[f := Free], [f] + free;
    }

    /** Takes the first frame off the list, filled with junk; 0 if there is none. */
    method Kalloc() returns (f: nat)
      requires Valid()
      modifies this`pages, this`freelist, this`use, this`free
      ensures Valid()
      ensures f == 0 ==>
          old(free) == [] && pages == old(pages) && freelist == old(freelist) && use == old(use)
          && free == old(free)
      ensures f != 0 ==>
          old(free) != [] && f == old(free)[0] && free == old(free)[1..] && f in old(use)
          && old(use[f]) == Free
      ensures f != 0 ==> f < |old(pages)| && pages == old(pages)[f := Junk(5)] && use == old(use)[f := Held]
      ensures f != 0 ==> SameTables(old(Mem(lo, pages, use)), Mem(lo, pages, use))
    {
      hide EntryRight, UseRight, Junk;
      f := freelist;
      FirstFree(Mem(lo, pages, use), freelist, free);
      if f != 0 {
        PageChanges(Mem(lo, pages, use), f, Junk(5), Held);
        ListPop(pages, freelist, free, use, Junk(5), Held);
        freelist := pages[f].next;
        pages := pages[f := Junk(5)];
        use, free := use[f := Held], free[1..];
      }
    }

    /** One level of walk: the table under an entry, made if need be and allowed. */
    method Descend(p: nat, i: nat, alloc: bool) returns (t: nat)
      requires Valid() && IsTable(Mem(lo, pages, use), p) && Level(use[p]) > 0 && i < ENTRIES
      modifies this`pages, this`freelist, this`use, this`free
      ensures Valid() && IsTable(Mem(lo, pages, use), p) && use[p] == old(use[p])
      ensures t == Below(Mem(lo, pages, use), p, i)
      ensures Took(old(Mem(lo, pages, use)), Mem(lo, pages, use), old(free), free)
      ensures !alloc || old(Below(Mem(lo, pages, use), p, i)) != 0 ==>
                pages == old(pages) && freelist == old(freelist) && use == old(use) && free == old(free)
      ensures alloc && t == 0 ==> free == []
      ensures use == old(use)
              || (t in old(use) && old(use[t]) == Free && use == old(use)[t := Node(Level(old(use[p])) - 1, p, i)])
    {
      hide PageOk, Trees, FreeList, Took, Junk;
      ghost var m := Mem(lo, pages, use);
      TookNone(m, free);
      InPool(m, p);
      BelowIs(m, p, i);
      if pages[p].ptes[i].v {
        return pages[p].ptes[i].ppn;
      }
      if !alloc {
        return 0;
      }
      t := Kalloc();
      if t == 0 {
        return;
      }
      JunkOk();
      TakeAndHang(m, p, i, t, Junk(5), old(free));
      HangList(Mem(lo, pages, use), freelist, free, p, i, t);
      pages := pages[t := BlankTable()];
      pages := pages[p := Table(pages[p].ptes[i := Pte(true, NONE, t)])];
      use := use[t := Node(Level(use[p]) - 1, p, i)];
    }

    /** The level-0 table for a page, made if need be and allowed; 0 if there is none. */
    method Walk(root: nat, vpn: nat, alloc: bool) returns (t: nat)
      requires Valid() && root in use && use[root] == Root && vpn < MAXVPN
      modifies this`pages, this`freelist, this`use, this`free
      ensures Valid() && Took(old(Mem(lo, pages, use)), Mem(lo, pages, use), old(free), free) && use[root] == Root
      ensures !alloc || old(Low(Mem(lo, pages, use), root, vpn)) != 0 ==>
                pages == old(pages) && freelist == old(freelist) && use == old(use) && free == old(free)
                && t == old(Low(Mem(lo, pages, use), root, vpn))
      ensures t == Low(Mem(lo, pages, use), root, vpn)
      ensures alloc && t == 0 ==> free == []
      ensures NewOnPath(old(use), use, root, vpn, 1)
    {
      hide Trees, FreeList, Took, NewOnPath, Walked, Low;
      ghost var m, free0 := Mem(lo, pages, use), free;
      WalkedNone(m, free, root, vpn);
      t := root;
      var level := 2;
      while level > 0
        invariant 0 <= level <= 2 && Valid() && root in use && use[root] == Root
        invariant Walked(m, Mem(lo, pages, use), free0, free, root, vpn, level, t)
        invariant !alloc || Low(m, root, vpn) != 0 ==>
                    pages == old(pages) && freelist == old(freelist) && use == old(use) && free == old(free)
      {
        t := StepDown(root, vpn, level, t, alloc, m, free0);
        if t == 0 {
          return;
        }
        level := level - 1;
      }
      WalkedDone(m, Mem(lo, pages, use), free0, free, root, vpn, t);
    }

    /** One level of the loop of walk. */
    method StepDown(ghost root: nat, vpn: nat, level: int, p: nat, alloc: bool, ghost m: Mem, ghost free0: seq<nat>)
      returns (t: nat)
      requires Valid() && root in use && use[root] == Root && root in m.use && m.use[root] == Root && vpn < MAXVPN
      requires 1 <= level <= 2 && Walked(m, Mem(lo, pages, use), free0, free, root, vpn, level, p)
      modifies this`pages, this`freelist, this`use, this`free
      ensures Valid() && Took(m, Mem(lo, pages, use), free0, free) && root in use && use[root] == Root
      ensures NewOnPath(m.use, use, root, vpn, 1)
      ensures t != 0 ==> Walked(m, Mem(lo, pages, use), free0, free, root, vpn, level - 1, t)
      ensures t == 0 ==> Low(Mem(lo, pages, use), root, vpn) == 0 && (alloc ==> free == [])
      ensures !alloc || old(Low(Mem(lo, pages, use), root, vpn)) != 0 ==>
                pages == old(pages) && freelist == old(freelist) && use == old(use) && free == old(free)
    {
      hide Trees, FreeList, Took, Below, NewOnPath, OnPath, I1, I2;
      ghost var m1, free1 := Mem(lo, pages, use), free;
      var i := if level == 2 then I2(vpn) else I1(vpn);
      t := Descend(p, i, alloc);
      TookTwice(m, m1, Mem(lo, pages, use), free0, free1, free);
      TookRoot(m1, Mem(lo, pages, use), free1, free, root);
      if use != m1.use {
        NewOnPathStep(m.use, m1.use, t, level, p, i, root, vpn);
      }
      if level == 1 {
        TookBelow(m1, Mem(lo, pages, use), free1, free, root, I2(vpn), p);
      }
      if t != 0 {
        BelowTable(Mem(lo, pages, use), p, i);
      }
    }

    /** The body of mappages: one page mapped, or the map left as it was. */
    method MapOne(root: nat, vpn: nat, ppn: nat, perm: Perm, ghost own: bool) returns (o: Outcome)
      requires Valid() && root in use && use[root] == Root && MayMap(Mem(lo, pages, use), Pte(true, perm, ppn), own)
      modifies this`pages, this`freelist, this`use, this`free
      ensures Valid() && root in use && use[root] == Root && Suffix(old(free), free)
      ensures Kept(old(Mem(lo, pages, use)), Mem(lo, pages, use), if o == Done && own then {ppn} else {})
      ensures o == Done ==>
                && vpn < MAXVPN && MapsAre(old(Mem(lo, pages, use)), Mem(lo, pages, use), root, vpn, 1, ppn, perm)
                && (own ==> Owner(use, ppn) == Spot(root, vpn))
                && !Lookup(old(Mem(lo, pages, use)), root, vpn).v
      ensures o != Done ==> SameMaps(old(Mem(lo, pages, use)), Mem(lo, pages, use))
      ensures o == NoMemory ==> free == [] && vpn < MAXVPN && Low(Mem(lo, pages, use), root, vpn) == 0
      ensures NewOnPath(old(use), use, root, vpn, 1)
      ensures o == Panic <==> vpn >= MAXVPN || Lookup(old(Mem(lo, pages, use)), root, vpn).v
    {
      NewOnPathNone(use, root, vpn, 1);
      hide Trees, FreeList, Took, MapsAre, Kept, MayMap, Suffix, SameMaps, Lookup, Low, Owner, NewOnPath, OnPath, I0;
      ghost var m := Mem(lo, pages, use);
      var e := Pte(true, perm, ppn);
      KeptSelf(m, free);
      if vpn >= MAXVPN {
        return Panic;
      }
      var t := Walk(root, vpn, true);
      ghost var m1 := Mem(lo, pages, use);
      TookKept(m, m1, old(free), free);
      if t == 0 {
        MappedHasTable(m, root, vpn);
        return NoMemory;
      }
      InPool(m1, t);
      LookupIs(m1, root, vpn);
      if pages[t].ptes[I0(vpn)].v {
        return Panic;
      }
      MapIn(root, vpn, t, e, own, m, old(free));
      o := Done;
    }

    /** The end of a mapping: the walk has found or made table t, and the page has no entry in it. */
    method MapIn(ghost root: nat, vpn: nat, t: nat, e: Pte, ghost own: bool, ghost m: Mem, ghost free0: seq<nat>)
      requires Valid() && root in use && use[root] == Root && vpn < MAXVPN && t != 0
      requires t == Low(Mem(lo, pages, use), root, vpn)
      requires Took(m, Mem(lo, pages, use), free0, free) && NewOnPath(m.use, use, root, vpn, 1)
      requires root in m.use && m.use[root] == Root && MayMap(m, e, own)
      requires !Lookup(Mem(lo, pages, use), root, vpn).v
      modifies this`pages, this`use
      ensures Valid() && root in use && use[root] == Root && Suffix(free0, free)
      ensures Kept(m, Mem(lo, pages, use), if own then {e.ppn} else {})
      ensures MapsAre(m, Mem(lo, pages, use), root, vpn, 1, e.ppn, e.perm)
      ensures own ==> Owner(use, e.ppn) == Spot(root, vpn)
      ensures !Lookup(m, root, vpn).v && NewOnPath(m.use, use, root, vpn, 1)
    {
      hide Trees, FreeList, Took, MapsAre, Kept, MayMap, Suffix, SameMaps, Lookup, Low, Owner, NewOnPath, OnPath, I0;
      ghost var m1 := Mem(lo, pages, use);
      TookMay(m, m1, free0, free, e, own);
      TookKept(m, m1, free0, free);
      MapHeld(m1, e, own);
      StoreEntry(root, vpn, t, e, own);
      MapAfter(m, m1, Mem(lo, pages, use), free0, free, root, vpn, e, own);
      NewOnPathMapped(m.use, m1, t, I0(vpn), e, own, root, vpn);
    }

    /** Stores an entry for a page that had none, in its level-0 table. */
    method StoreEntry(ghost root: nat, vpn: nat, t: nat, e: Pte, ghost own: bool)
      requires Valid() && root in use && use[root] == Root && vpn < MAXVPN && t != 0
      requires t == Low(Mem(lo, pages, use), root, vpn)
      requires !Lookup(Mem(lo, pages, use), root, vpn).v && MayMap(Mem(lo, pages, use), e, own)
      modifies this`pages, this`use
      ensures Valid() && OneEntry(old(Mem(lo, pages, use)), Mem(lo, pages, use), t, I0(vpn), e)
      ensures t < |old(pages)| && old(pages[t]).Table? && |old(pages[t]).ptes| == ENTRIES
      ensures Mem(lo, pages, use)
           == Put(old(Mem(lo, pages, use)), t, I0(vpn), e, Claim(old(Mem(lo, pages, use)), t, I0(vpn), e, own))
      ensures own ==> Owner(use, e.ppn) == Spot(root, vpn)
    {
      hide Trees, FreeList, Lookup, Low, Owner, OneEntry;
      ghost var m := Mem(lo, pages, use);
      MapStep(m, freelist, free, root, vpn, e, own);
      pages := pages[t := Table(pages[t].ptes[I0(vpn) := e])];
      use := Claim(m, t, I0(vpn), e, own);
      if own {
        EntrySpot(m, Mem(lo, pages, use), root, vpn, e);
      }
    }

    /** mappages: maps the pages of a range to successive frames, stopping at the first that fails. */
    method MapPages(root: nat, va: nat, size: nat, ppn: nat, perm: Perm, ghost own: bool)
      returns (o: Outcome, ghost k: nat)
      requires Valid() && root in use && use[root] == Root
      requires forall f :: ppn <= f < ppn + Pages(va, size) ==> MayMap(Mem(lo, pages, use), Pte(true, perm, f), own)
      modifies this`pages, this`freelist, this`use, this`free
      ensures Valid() && root in use && use[root] == Root && Suffix(old(free), free) && k <= Pages(va, size)
      ensures MapRun(old(Mem(lo, pages, use)), Mem(lo, pages, use), root, va / PGSIZE, k, ppn, perm, own)
      ensures o == Done <==> size > 0 && k == Pages(va, size)
      ensures o == NoMemory ==>
                free == [] && va / PGSIZE + k < MAXVPN && Low(Mem(lo, pages, use), root, va / PGSIZE + k) == 0
      ensures NewOnPath(old(use), use, root, va / PGSIZE, Pages(va, size))
      ensures o == Panic ==>
          size == 0 || va / PGSIZE + k >= MAXVPN
          || Lookup(old(Mem(lo, pages, use)), root, va / PGSIZE + k).v
    {
      hide Trees, FreeList, MapRun, MapsAre, Kept, MayMap, Suffix, SameMaps, Lookup, Owner, NewOnPath, Low;
      ghost var m, first := Mem(lo, pages, use), va / PGSIZE;
      NewOnPathNone(use, root, first, Pages(va, size));
      k := 0;
      MapRunNone(m, root, first, ppn, perm, own);
      KeptSelf(m, free);
      if size == 0 {
        return Panic, 0;
      }
      var a, last, f := va / PGSIZE, (va + size - 1) / PGSIZE, ppn;
      while true
        invariant a == first + k && f == ppn + k && a <= last && Valid() && root in use && use[root] == Root
            && Suffix(old(free), free)
        invariant MapRun(m, Mem(lo, pages, use), root, first, k, ppn, perm, own)
        invariant NewOnPath(m.use, use, root, first, Pages(va, size))
        decreases last - a
      {
        ghost var m1, free1 := Mem(lo, pages, use), free;
        assert MayMap(m, Pte(true, perm, f), own);
        MapRunMay(m, m1, root, first, k, ppn, perm, own);
        o := MapOne(root, a, f, perm, own);
        SuffixTwice(old(free), free1, free);
        MapRunUses(m, m1, root, first, k, ppn, perm, own);
        if own {
          MayIsHeld(m1, Pte(true, perm, f));
        }
        NewOnPathTwice(m, m1, Mem(lo, pages, use), if o == Done && own then {f} else {}, root, first, Pages(va, size),
                       a);
        if o != Done {
          MapRunFails(m, m1, Mem(lo, pages, use), root, first, k, ppn, perm, own);
          return;
        }
        MapRunMore(m, m1, Mem(lo, pages, use), root, first, k, ppn, perm, own);
        k := k + 1;
        if a == last {
          return;
        }
        a, f := a + 1, f + 1;
      }
    }
  }

  /** Mapping a page makes no table. */
  lemma NewOnPathMapped(use: map<nat, Use>, m1: Mem, t: nat, j: nat, e: Pte, own: bool, root: nat, v: nat)
    requires NewOnPath(use, m1.use, root, v, 1) && (own ==> e.ppn in m1.use && m1.use[e.ppn] == Held)
    ensures NewOnPath(use, Claim(m1, t, j, e, own), root, v, 1)
  {
    var use2 := Claim(m1, t, j, e, own);
    forall f: nat | f in use && use[f] == Free && f in use2 && use2[f].Node?
      ensures exists w :: v <= w < v + 1 && OnPath(use2, f, root, w)
    {
      var w :| v <= w < v + 1 && OnPath(m1.use, f, root, w);
      assert OnPath(use2, f, root, w);
    }
  }

  lemma MapHeld(m: Mem, e: Pte, own: bool)
    requires MayMap(m, e, own)
    ensures own ==> e.ppn in m.use && m.use[e.ppn] == Held
  {
  }

  lemma MapRunUses(m: Mem, m1: Mem, root: nat, first: nat, k: nat, ppn: nat, perm: Perm, own: bool)
    requires MapRun(m, m1, root, first, k, ppn, perm, own)
    ensures m1.use.Keys == m.use.Keys
    ensures forall f: nat :: f in m.use && m.use[f] != Free ==> m1.use[f] != Free
  {
  }

  lemma NewOnPathTwice(m: Mem, m1: Mem, m2: Mem, but: set<nat>, root: nat, first: nat, n: nat, v: nat)
    requires NewOnPath(m.use, m1.use, root, first, n) && NewOnPath(m1.use, m2.use, root, v, 1) && first <= v < first + n
    requires Kept(m1, m2, but) && m1.use.Keys == m.use.Keys
    requires forall f :: f in but ==> !IsTable(m1, f)
    ensures NewOnPath(m.use, m2.use, root, first, n)
  {
    forall f: nat | f in m.use && m.use[f] == Free && f in m2.use && m2.use[f].Node?
      ensures exists w :: first <= w < first + n && OnPath(m2.use, f, root, w)
    {
      if m1.use[f] == Free {
        var w :| v <= w < v + 1 && OnPath(m2.use, f, root, w);
      } else {
        assert IsTable(m2, f);
        assert IsTable(m1, f);
        assert m2.use[f] == m1.use[f];
        var w :| first <= w < first + n && OnPath(m1.use, f, root, w);
        if m1.use[f].level == 0 {
          assert IsTable(m1, m1.use[f].parent);
        }
        assert OnPath(m2.use, f, root, w);
      }
    }
  }

  lemma MayIsHeld(m: Mem, e: Pte)
    requires MayMap(m, e, true)
    ensures e.ppn in m.use && !IsTable(m, e.ppn)
  {
  }

  /** A walk to a page has got down to table t at this level, and has made tables on its way only. */
  ghost predicate Walked(m: Mem, m': Mem, free: seq<nat>, free': seq<nat>, root: nat, vpn: nat, level: int, t: nat)
    requires Trees(m') && root in m'.use && m'.use[root] == Root && vpn < MAXVPN
  {
    && Took(m, m', free, free') && NewOnPath(m.use, m'.use, root, vpn, 1)
    && t != 0 && IsTable(m', t) && Level(m'.use[t]) == level
    && (level == 2 ==> t == root)
    && (level == 1 ==> t == Below(m', root, I2(vpn)) && m'.use[t] == Node(1, root, I2(vpn)))
    && (level == 0 ==> t == Low(m', root, vpn))
  }

  lemma WalkedNone(m: Mem, free: seq<nat>, root: nat, vpn: nat)
    requires Trees(m) && root in m.use && m.use[root] == Root && vpn < MAXVPN
    ensures Walked(m, m, free, free, root, vpn, 2, root) && Took(m, m, free, free)
    ensures NewOnPath(m.use, m.use, root, vpn, 1)
  {
    TookNone(m, free);
    NewOnPathNone(m.use, root, vpn, 1);
    InPool(m, root);
  }

  lemma WalkedDone(m: Mem, m': Mem, free: seq<nat>, free': seq<nat>, root: nat, vpn: nat, t: nat)
    requires Trees(m') && root in m'.use && m'.use[root] == Root && vpn < MAXVPN
    requires Walked(m, m', free, free', root, vpn, 0, t)
    ensures Took(m, m', free, free') && NewOnPath(m.use, m'.use, root, vpn, 1) && t == Low(m', root, vpn) && t != 0
  {
  }

  /** A run of k pages mapped to successive frames, which it owns if `own` says so. */
  ghost predicate MapRun(m: Mem, m': Mem, root: nat, first: nat, k: nat, ppn: nat, perm: Perm, own: bool) {
    && MapsAre(m, m', root, first, k, ppn, perm) && Kept(m, m', if own then Frames(ppn, k) else {})
    && (own ==> OwnsRun(m'.use, ppn, k, root, first))
  }

  lemma MapRunNone(m: Mem, root: nat, first: nat, ppn: nat, perm: Perm, own: bool)
    requires Trees(m)
    ensures MapRun(m, m, root, first, 0, ppn, perm, own)
  {
    assert Frames(ppn, 0) == {};
  }

  lemma MapRunMay(m: Mem, m': Mem, root: nat, first: nat, k: nat, ppn: nat, perm: Perm, own: bool)
    requires MapRun(m, m', root, first, k, ppn, perm, own) && MayMap(m, Pte(true, perm, ppn + k), own)
    ensures MayMap(m', Pte(true, perm, ppn + k), own)
  {
    hide MapsAre;
    KeptMay(m, m', if own then Frames(ppn, k) else {}, Pte(true, perm, ppn + k), own, ppn, k);
  }

  lemma MapRunFails(m: Mem, m1: Mem, m2: Mem, root: nat, first: nat, k: nat, ppn: nat, perm: Perm, own: bool)
    requires MapRun(m, m1, root, first, k, ppn, perm, own) && SameMaps(m1, m2) && Kept(m1, m2, {})
    requires root in m.use && m.use[root] == Root
    ensures MapRun(m, m2, root, first, k, ppn, perm, own)
    ensures first + k < MAXVPN ==>
              root in m1.use && m1.use[root] == Root && Lookup(m1, root, first + k) == Lookup(m, root, first + k)
  {
    hide MapsAre, SameMaps, Kept, Trees, Lookup, Owner;
    MapsThenSame(m, m1, m2, root, first, k, ppn, perm);
    var but := if own then Frames(ppn, k) else {};
    assert but + {} == but;
    KeptTwice(m, m1, m2, but, {});
    if own {
      MapTrees(m, m1, root, first, k, ppn, perm);
      forall f | ppn <= f < ppn + k ensures Owner(m2.use, f) == Spot(root, first + (f - ppn)) {
        OwnerKept(m1, m2, {}, f, root, first + (f - ppn));
      }
    }
  }

  lemma MapTrees(m: Mem, m': Mem, root: nat, first: nat, k: nat, ppn: nat, perm: Perm)
    requires MapsAre(m, m', root, first, k, ppn, perm)
    ensures Trees(m) && Trees(m')
  {
  }

  lemma MapRunMore(m: Mem, m1: Mem, m2: Mem, root: nat, first: nat, k: nat, ppn: nat, perm: Perm, own: bool)
    requires MapRun(m, m1, root, first, k, ppn, perm, own) && MapsAre(m1, m2, root, first + k, 1, ppn + k, perm)
    requires Kept(m1, m2, if own then {ppn + k} else {}) && (own ==> Owner(m2.use, ppn + k) == Spot(root, first + k))
    requires MayMap(m1, Pte(true, perm, ppn + k), own)
    ensures MapRun(m, m2, root, first, k + 1, ppn, perm, own)
  {
    MapsMore(m, m1, m2, root, first, k, ppn, perm);
    FramesPlus(ppn, k, own, true);
    assert own ==> !IsTable(m1, ppn + k);
    KeptTwice(m, m1, m2, if own then Frames(ppn, k) else {}, if own then {ppn + k} else {});
    if own {
      OwnersKept(m1, m2, root, first, k, ppn);
    }
  }

  /** How many pages a range touches. */
  function Pages(va: nat, size: nat): nat {
    if size == 0 then 0 else (va + size - 1) / PGSIZE - va / PGSIZE + 1
  }

  ghost function Frames(ppn: nat, k: nat): (s: set<nat>)
    ensures forall f :: f in s <==> ppn <= f < ppn + k
  {
    if k == 0 then {} else Frames(ppn, k - 1) + {ppn + k - 1}
  }

  /** Frames from ppn on are mapped at successive pages. */
  ghost predicate OwnsRun(use: map<nat, Use>, ppn: nat, k: nat, root: nat, first: nat) {
    forall f :: ppn <= f < ppn + k ==> Owner(use, f) == Spot(root, first + (f - ppn))
  }

  lemma FramesPlus(ppn: nat, k: nat, own: bool, more: bool)
    ensures own && more ==> Frames(ppn, k) + {ppn + k} == Frames(ppn, k + 1)
    ensures (if own then Frames(ppn, k) else {}) + {} == if own then Frames(ppn, k) else {}
  {
    if own && more {
      assert Frames(ppn, k) + {ppn + k} == Frames(ppn, k + 1);
    }
  }

  lemma MapsThenSame(m: Mem, m1: Mem, m2: Mem, root: nat, first: nat, k: nat, ppn: nat, perm: Perm)
    requires MapsAre(m, m1, root, first, k, ppn, perm) && SameMaps(m1, m2)
    ensures MapsAre(m, m2, root, first, k, ppn, perm)
    ensures root in m.use && m.use[root] == Root && first + k < MAXVPN ==>
              root in m1.use && m1.use[root] == Root && Lookup(m1, root, first + k) == Lookup(m, root, first + k)
  {
    hide Trees, Lookup;
  }

  lemma MapsMore(m: Mem, m1: Mem, m2: Mem, root: nat, first: nat, k: nat, ppn: nat, perm: Perm)
    requires MapsAre(m, m1, root, first, k, ppn, perm) && MapsAre(m1, m2, root, first + k, 1, ppn + k, perm)
    ensures MapsAre(m, m2, root, first, k + 1, ppn, perm)
  {
    hide Trees, Lookup;
  }

  lemma KeptTwice(m: Mem, m1: Mem, m2: Mem, a: set<nat>, b: set<nat>)
    requires Kept(m, m1, a) && Kept(m1, m2, b) && forall g :: g in b ==> !IsTable(m1, g)
    ensures Kept(m, m2, a + b)
  {
    forall f: nat | f in m.use && f < |m.pages| && m.use[f] != Free
        && !IsTable(m, f) ensures m2.pages[f] == m.pages[f] {
      assert m1.pages[f] == m.pages[f] && m1.use[f] != Free && !IsTable(m1, f);
    }
  }

  lemma KeptMay(m: Mem, m': Mem, but: set<nat>, e: Pte, own: bool, ppn: nat, k: nat)
    requires Kept(m, m', but) && MayMap(m, e, own) && but == (if own then Frames(ppn, k) else {}) && e.ppn == ppn + k
    ensures MayMap(m', e, own) && (own ==> !IsTable(m', e.ppn))
  {
  }

  /** A frame keeps its spot while its use and its tables' uses are kept. */
  lemma OwnerKept(m: Mem, m': Mem, but: set<nat>, f: nat, root: nat, vpn: nat)
    requires Trees(m) && Kept(m, m', but) && f !in but && Owner(m.use, f) == Spot(root, vpn)
    requires forall g :: g in but ==> !IsTable(m, g)
    ensures Owner(m'.use, f) == Spot(root, vpn)
  {
    hide Trees;
  }

  lemma OwnersKept(m: Mem, m': Mem, root: nat, first: nat, k: nat, ppn: nat)
    requires Trees(m) && Kept(m, m', {ppn + k}) && !IsTable(m, ppn + k) && OwnsRun(m.use, ppn, k, root, first)
    requires Owner(m'.use, ppn + k) == Spot(root, first + k)
    ensures OwnsRun(m'.use, ppn, k + 1, root, first)
  {
    hide Trees, Kept, Owner;
    forall f | ppn <= f < ppn + k ensures Owner(m'.use, f) == Spot(root, first + (f - ppn)) {
      OwnerKept(m, m', {ppn + k}, f, root, first + (f - ppn));
    }
  }

  lemma EntrySpot(m: Mem, m': Mem, root: nat, vpn: nat, e: Pte)
    requires Trees(m) && root in m.use && m.use[root] == Root && vpn < MAXVPN && Low(m, root, vpn) != 0
    requires OneEntry(m, m', Low(m, root, vpn), I0(vpn), e) && e.v
    requires e.ppn in m'.use && m'.use[e.ppn] == User(Low(m, root, vpn), I0(vpn))
    ensures Owner(m'.use, e.ppn) == Spot(root, vpn)
  {
    hide Owner, Low, Lookup;
    EntryRoots(m, m', Low(m, root, vpn), I0(vpn), e);
    LeafMaps(m, m', root, vpn, e);
    SpotOf(m', root, vpn, e.ppn);
  }

  /** Where a frame of user memory is mapped. */
  datatype Spot = Nowhere | Spot(root: nat, vpn: nat)

  function Owner(use: map<nat, Use>, f: nat): Spot {
    if f !in use || !use[f].User? then Nowhere
    else
      var t := use[f].parent;
      if t !in use || !use[t].Node? then Nowhere
      else
        var mid := use[t].parent;
        if mid !in use || !use[mid].Node? then Nowhere
        else Spot(use[mid].parent, (use[mid].idx * ENTRIES + use[t].idx) * ENTRIES + use[f].idx)
  }

  lemma SpotOf(m: Mem, root: nat, vpn: nat, f: nat)
    requires Trees(m) && root in m.use && m.use[root] == Root && vpn < MAXVPN && Low(m, root, vpn) != 0
    requires f in m.use && m.use[f] == User(Low(m, root, vpn), I0(vpn))
    ensures Owner(m.use, f) == Spot(root, vpn)
  {
    hide Trees;
    Compose(vpn);
  }

  lemma Compose(vpn: nat)
    requires vpn < MAXVPN
    ensures (I2(vpn) * ENTRIES + I1(vpn)) * ENTRIES + I0(vpn) == vpn
  {
    assert vpn / ENTRIES / ENTRIES == vpn / (ENTRIES * ENTRIES);
  }

  lemma Split(i2: nat, i1: nat, i0: nat)
    requires i1 < ENTRIES && i0 < ENTRIES && (i2 * ENTRIES + i1) * ENTRIES + i0 < MAXVPN
    ensures var vpn := (i2 * ENTRIES + i1) * ENTRIES + i0; I2(vpn) == i2 && I1(vpn) == i1 && I0(vpn) == i0
  {
    var vpn := (i2 * ENTRIES + i1) * ENTRIES + i0;
    assert vpn / ENTRIES == i2 * ENTRIES + i1 && vpn % ENTRIES == i0;
    assert vpn / (ENTRIES * ENTRIES) == vpn / ENTRIES / ENTRIES;
  }

  /** A frame of user memory is mapped at its spot. */
  lemma SpotHolds(m: Mem, root: nat, vpn: nat, f: nat)
    requires Trees(m) && Owner(m.use, f) == Spot(root, vpn) && vpn < MAXVPN
    ensures f in m.use && root in m.use && m.use[root] == Root && Lookup(m, root, vpn).v
    ensures Lookup(m, root, vpn).ppn == f
    ensures Low(m, root, vpn) != 0 && m.use[f] == User(Low(m, root, vpn), I0(vpn))
  {
    var t := m.use[f].parent;
    var mid := m.use[t].parent;
    assert UseRight(m, f) && UseRight(m, t) && UseRight(m, mid);
    InPool(m, f);
    InPool(m, t);
    InPool(m, mid);
    hide Trees, PageOk;
    Split(m.use[mid].idx, m.use[t].idx, m.use[f].idx);
    BelowIs(m, root, I2(vpn));
    BelowIs(m, mid, I1(vpn));
  }

  datatype Outcome = Done | NoMemory | Panic

  /** Pages first to first + k of one space map to frames from ppn on; every other page is as it was. */
  ghost predicate MapsAre(m: Mem, m': Mem, root: nat, first: nat, k: nat, ppn: nat, perm: Perm) {
    && Trees(m) && Trees(m')
    && (forall r :: r in m.use && m.use[r] == Root ==> r in m'.use && m'.use[r] == Root)
    && (forall r, v :: r in m.use && m.use[r] == Root && 0 <= v < MAXVPN ==>
          Lookup(m', r, v)
            == if r == root && first <= v < first + k then Pte(true, perm, ppn + (v - first)) else Lookup(m, r, v))
  }

  /** Frames in use keep their bytes, and their uses but for some; free ones stay free or become tables. */
  ghost predicate Kept(m: Mem, m': Mem, but: set<nat>) {
    && m'.use.Keys == m.use.Keys && m'.lo == m.lo && |m'.pages| == |m.pages|
    && (forall f: nat :: f in m.use && m.use[f] != Free && f !in but ==> m'.use[f] == m.use[f])
    && (forall f: nat :: f in m.use && f < |m.pages| && m.use[f] != Free && !IsTable(m, f) ==>
        m'.pages[f] == m.pages[f])
    && (forall f: nat :: f in m.use && m.use[f] == Free ==> m'.use[f] == Free || m'.use[f].Node?)
    && (forall f: nat :: f in m.use && m.use[f] != Free ==> m'.use[f] != Free && (IsTable(m', f) <==> IsTable(m, f)))
  }

  lemma KeptSelf(m: Mem, free: seq<nat>)
    requires Trees(m)
    ensures Kept(m, m, {}) && Suffix(free, free) && SameMaps(m, m)
  {
  }

  lemma TookKept(m: Mem, m': Mem, free: seq<nat>, free': seq<nat>)
    requires Took(m, m', free, free')
    ensures Kept(m, m', {}) && SameMaps(m, m') && Suffix(free, free')
  {
  }

  lemma LookupIs(m: Mem, root: nat, vpn: nat)
    requires Trees(m) && root in m.use && m.use[root] == Root && vpn < MAXVPN && Low(m, root, vpn) != 0
    ensures var t := Low(m, root, vpn);
            IsTable(m, t) && Level(m.use[t]) == 0 && (Lookup(m, root, vpn).v <==> At(m, t, I0(vpn)).v)
            && (At(m, t, I0(vpn)).v ==> Lookup(m, root, vpn) == At(m, t, I0(vpn)))
  {
  }

  lemma MappedHasTable(m: Mem, root: nat, vpn: nat)
    requires Trees(m) && root in m.use && m.use[root] == Root && vpn < MAXVPN
    ensures Lookup(m, root, vpn).v ==> Low(m, root, vpn) != 0
  {
    hide Trees;
  }

  lemma TookMay(m: Mem, m': Mem, free: seq<nat>, free': seq<nat>, e: Pte, own: bool)
    requires Took(m, m', free, free') && MayMap(m, e, own)
    ensures MayMap(m', e, own)
  {
  }

  /** Storing an entry for a page that had none. */
  lemma MapStep(m: Mem, head: nat, free: seq<nat>, root: nat, vpn: nat, e: Pte, own: bool)
    requires Trees(m) && FreeList(m.pages, head, free, m.use) && root in m.use && m.use[root] == Root && vpn < MAXVPN
    requires Low(m, root, vpn) != 0 && !Lookup(m, root, vpn).v && MayMap(m, e, own)
    ensures var t := Low(m, root, vpn);
            && t < |m.pages| && m.pages[t].Table? && |m.pages[t].ptes| == ENTRIES
            && var m' := Put(m, t, I0(vpn), e, Claim(m, t, I0(vpn), e, own));
            && Trees(m') && FreeList(m'.pages, head, free, m'.use) && OneEntry(m, m', t, I0(vpn), e)
  {
    var t := Low(m, root, vpn);
    InPool(m, t);
    LookupIs(m, root, vpn);
    hide Trees, FreeList, Low, Lookup, OneEntry;
    LeafStored(m, t, I0(vpn), e, own);
    PutEntry(m, t, I0(vpn), e, Claim(m, t, I0(vpn), e, own));
    var m' := Put(m, t, I0(vpn), e, Claim(m, t, I0(vpn), e, own));
    ListKept(m.pages, m'.pages, head, free, m.use, m'.use);
  }

  lemma PutEntry(m: Mem, t: nat, i: nat, e: Pte, use: map<nat, Use>)
    requires Trees(m) && IsTable(m, t) && Level(m.use[t]) == 0 && i < ENTRIES
    requires t < |m.pages| && m.pages[t].Table? && |m.pages[t].ptes| == ENTRIES
    requires forall f: nat :: IsTable(m, f) ==> f in use && use[f] == m.use[f]
    requires Trees(Put(m, t, i, e, use))
    ensures OneEntry(m, Put(m, t, i, e, use), t, i, e)
  {
    hide EntryRight, UseRight, PageOk;
  }

  lemma MapAfter(m: Mem, m1: Mem, m2: Mem, free: seq<nat>, free1: seq<nat>, root: nat, vpn: nat, e: Pte, own: bool)
    requires Took(m, m1, free, free1) && root in m.use && m.use[root] == Root && root in m1.use
    requires m1.use[root] == Root && vpn < MAXVPN
    requires Low(m1, root, vpn) != 0 && !Lookup(m1, root, vpn).v && MayMap(m1, e, own) && MayMap(m, e, own)
    requires var t := Low(m1, root, vpn);
             && t < |m1.pages| && m1.pages[t].Table? && |m1.pages[t].ptes| == ENTRIES
             && m2 == Put(m1, t, I0(vpn), e, Claim(m1, t, I0(vpn), e, own)) && OneEntry(m1, m2, t, I0(vpn), e)
    ensures MapsAre(m, m2, root, vpn, 1, e.ppn, e.perm)
    ensures Kept(m, m2, if own then {e.ppn} else {})
    ensures root in m2.use && m2.use[root] == Root && Low(m2, root, vpn) == Low(m1, root, vpn)
  {
    EntryRoots(m1, m2, Low(m1, root, vpn), I0(vpn), e);
    LeafMaps(m1, m2, root, vpn, e);
    LowTable(m1, root, vpn);
    hide Trees, Low, Lookup, OneEntry, SameMaps, FramesKept, Kept, MapsAre;
    MapAfterKept(m, m1, m2, Low(m1, root, vpn), I0(vpn), e, own);
    MapCompose(m, m1, m2, root, vpn, e);
  }

  lemma EntryRoots(m: Mem, m': Mem, t: nat, i: nat, e: Pte)
    requires OneEntry(m, m', t, i, e)
    ensures forall r :: r in m.use && m.use[r] == Root ==> r in m'.use && m'.use[r] == Root
  {
    forall r | r in m.use && m.use[r] == Root ensures r in m'.use && m'.use[r] == Root {
      assert IsTable(m, r);
    }
  }

  lemma LowTable(m: Mem, root: nat, vpn: nat)
    requires Trees(m) && root in m.use && m.use[root] == Root && vpn < MAXVPN && Low(m, root, vpn) != 0
    ensures IsTable(m, Low(m, root, vpn))
  {
  }

  lemma MapCompose(m: Mem, m1: Mem, m2: Mem, root: nat, vpn: nat, e: Pte)
    requires SameMaps(m, m1) && Trees(m2) && e.v && root in m.use && m.use[root] == Root
    requires forall r :: r in m1.use && m1.use[r] == Root ==> r in m2.use && m2.use[r] == Root
    requires forall r, v :: r in m1.use && m1.use[r] == Root && 0 <= v < MAXVPN ==>
               Lookup(m2, r, v) == if (r, v) == (root, vpn) then e else Lookup(m1, r, v)
    ensures MapsAre(m, m2, root, vpn, 1, e.ppn, e.perm)
  {
    hide Trees, Lookup;
    forall r, v | r in m.use && m.use[r] == Root && 0 <= v < MAXVPN
      ensures Lookup(m2, r, v) == if r == root
          && vpn <= v < vpn + 1 then Pte(true, e.perm, e.ppn + (v - vpn)) else Lookup(m, r, v)
    {
      assert Lookup(m1, r, v) == Lookup(m, r, v);
    }
  }

  lemma MapAfterKept(m: Mem, m1: Mem, m2: Mem, t: nat, i: nat, e: Pte, own: bool)
    requires FramesKept(m, m1) && IsTable(m1, t) && t < |m1.pages| && m1.pages[t].Table? && i < |m1.pages[t].ptes|
    requires m2 == Put(m1, t, i, e, Claim(m1, t, i, e, own)) && MayMap(m, e, own)
    ensures Kept(m, m2, if own then {e.ppn} else {})
  {
  }

  lemma TookRoot(m: Mem, m': Mem, free: seq<nat>, free': seq<nat>, root: nat)
    requires Took(m, m', free, free') && root in m.use && m.use[root] == Root
    ensures root in m'.use && m'.use[root] == Root
  {
  }

  /** A table that was there stays under its entry. */
  lemma TookBelow(m: Mem, m': Mem, free: seq<nat>, free': seq<nat>, p: nat, i: nat, t: nat)
    requires Took(m, m', free, free') && Trees(m) && Trees(m') && IsTable(m, p) && Level(m.use[p]) > 0 && i < ENTRIES
    requires t != 0 && t == Below(m, p, i)
    ensures IsTable(m', p) && m'.use[p] == m.use[p] && Below(m', p, i) == t
  {
    assert m'.use[t] == m.use[t] && m'.use[p] == m.use[p];
    assert UseRight(m', t);
  }

  lemma BelowTable(m: Mem, p: nat, i: nat)
    requires Trees(m) && IsTable(m, p) && Level(m.use[p]) > 0 && i < ENTRIES && Below(m, p, i) != 0
    ensures IsTable(m, Below(m, p, i)) && Level(m.use[Below(m, p, i)]) == Level(m.use[p]) - 1
  {
  }

  lemma JunkOk()
    ensures PageOk(Held, Junk(5))
  {
  }

  lemma InPool(m: Mem, f: nat)
    requires Trees(m) && f in m.use
    ensures m.lo <= f < |m.pages| && 0 < f && PageOk(m.use[f], m.pages[f])
    ensures IsTable(m, f) ==> m.pages[f].Table? && |m.pages[f].ptes| == ENTRIES
  {
  }

  lemma BelowIs(m: Mem, p: nat, i: nat)
    requires Trees(m) && IsTable(m, p) && Level(m.use[p]) > 0 && i < ENTRIES
    ensures Below(m, p, i) == if At(m, p, i).v then At(m, p, i).ppn else 0
    ensures At(m, p, i).v ==> At(m, p, i).ppn != 0
  {
    assert EntryRight(m, p, i);
  }

  lemma FirstFree(m: Mem, head: nat, free: seq<nat>)
    requires Trees(m) && FreeList(m.pages, head, free, m.use)
    ensures head != 0 <==> free != []
    ensures head != 0 ==>
        head == free[0] && head in m.use && m.use[head] == Free && head < |m.pages|
        && m.pages[head] == Run(Head(free[1..]))
  {
    if free != [] {
      assert free[0] in free;
      assert RunAt(m.pages, free, 0);
    }
  }

  lemma HangList(m: Mem, head: nat, free: seq<nat>, p: nat, i: nat, t: nat)
    requires Trees(m) && FreeList(m.pages, head, free, m.use) && IsTable(m, p) && Level(m.use[p]) > 0 && i < ENTRIES
    requires t in m.use && m.use[t] == Held
    ensures FreeList(Hang(m, p, i, t).pages, head, free, Hang(m, p, i, t).use)
  {
    ListKept(m.pages, Hang(m, p, i, t).pages, head, free, m.use, Hang(m, p, i, t).use);
  }
}
