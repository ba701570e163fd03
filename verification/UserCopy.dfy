/**
 Moving bytes between the kernel and user memory through a page table
 (kernel/vm.c copyin and copyout).
 */
module UserCopy {
  import opened Blocks
  import opened PageTable
  import opened VirtualMemory
  import opened UserMemory
  import opened AddressSpace

  // ---------------------------------------------------------------- where every frame is

  /**
   Every frame of the pool is in one place: on the free list (once), or a table under
   its one entry, or user memory mapped at its one page, or with the kernel.
   */
  lemma FrameAccounted(m: Mem, head: nat, free: seq<nat>, f: nat)
    requires Trees(m) && FreeList(m.pages, head, free, m.use) && m.lo <= f < |m.pages|
    ensures f in m.use && (f in free <==> m.use[f] == Free)
    ensures forall j, k :: 0 <= j < |free| && 0 <= k < |free| && free[j] == f && free[k] == f ==> j == k
    ensures m.use[f].User? ==> Owner(m.use, f).Spot?
    ensures m.use[f].Node? ==>
        IsTable(m, m.use[f].parent) && m.use[f].idx < ENTRIES
        && At(m, m.use[f].parent, m.use[f].idx) == Pte(true, NONE, f)
    ensures forall r, v ::
              r in m.use && m.use[r] == Root && 0 <= v < MAXVPN && Lookup(m, r, v).v && Lookup(m, r, v).ppn == f ==>
                m.use[f] == Kernel || Owner(m.use, f) == Spot(r, v)
  {
    assert UseRight(m, f);
    if m.use[f].User? {
      HasSpot(m, f);
    }
    hide Trees, Lookup, Owner;
    forall r, v | r in m.use && m.use[r] == Root && 0 <= v < MAXVPN && Lookup(m, r, v).v && Lookup(m, r, v).ppn == f
      ensures m.use[f] == Kernel || Owner(m.use, f) == Spot(r, v)
    {
      MappedFrame(m, r, v, f);
    }
  }

  lemma MappedFrame(m: Mem, r: nat, v: nat, f: nat)
    requires Trees(m) && r in m.use && m.use[r] == Root && v < MAXVPN && Lookup(m, r, v).v
    requires Lookup(m, r, v).ppn == f && f in m.use
    ensures m.use[f] == Kernel || Owner(m.use, f) == Spot(r, v)
  {
    MappedHasTable(m, r, v);
    LookupIs(m, r, v);
    assert EntryRight(m, Low(m, r, v), I0(v));
    hide Trees, Lookup, Low, Owner, I0;
    if m.use[f] != Kernel {
      SpotOf(m, r, v, f);
    }
  }

  // ---------------------------------------------------------------- the bytes of an address space

  /** Every address of a range is in a page that is mapped, and for user code. */
  ghost predicate Reachable(m: Mem, root: nat, va: nat, n: nat)
    requires Trees(m) && root in m.use && m.use[root] == Root
  {
    forall a :: va <= a < va + n ==> ReachableAt(m, root, a)
  }

  ghost predicate ReachableAt(m: Mem, root: nat, a: nat)
    requires Trees(m) && root in m.use && m.use[root] == Root
  {
    a / PGSIZE < MAXVPN && Lookup(m, root, a / PGSIZE).v && Lookup(m, root, a / PGSIZE).perm.u
  }

  /** The byte at an address: in the frame its page is mapped to, at its offset. */
  ghost function ByteOf(m: Mem, root: nat, a: nat): Byte
    requires Trees(m) && root in m.use && m.use[root] == Root
  {
    var f := if a / PGSIZE < MAXVPN then Lookup(m, root, a / PGSIZE).ppn else 0;
    if f < |m.pages| && IsPage(m.pages[f]) then m.pages[f].bytes[a % PGSIZE] else 0
  }

  /** The bytes from va on. */
  ghost function Bytes(m: Mem, root: nat, va: nat, n: nat): (s: seq<Byte>)
    requires Trees(m) && root in m.use && m.use[root] == Root
    ensures |s| == n && forall k :: 0 <= k < n ==> s[k] == ByteOf(m, root, va + k)
  {
    if n == 0 then [] else Bytes(m, root, va, n - 1) + [ByteOf(m, root, va + n - 1)]
  }

  lemma ReachedIff(m: Mem, root: nat, a: nat)
    requires Trees(m) && root in m.use && m.use[root] == Root
    ensures ReachableAt(m, root, a) <==> UserFrame(m, root, a / PGSIZE) != 0
  {
    if ReachableAt(m, root, a) {
      UserFrameIs(m, root, a / PGSIZE);
    }
  }

  lemma BytesTwice(m: Mem, root: nat, va: nat, n: nat, k: nat)
    requires Trees(m) && root in m.use && m.use[root] == Root
    ensures Bytes(m, root, va, n) + Bytes(m, root, va + n, k) == Bytes(m, root, va, n + k)
  {
    hide Trees, ByteOf;
    var s, t, u := Bytes(m, root, va, n), Bytes(m, root, va + n, k), Bytes(m, root, va, n + k);
    forall i | 0 <= i < n + k ensures (s + t)[i] == u[i] {
      assert i >= n ==> t[i - n] == ByteOf(m, root, va + n + (i - n));
    }
  }

  /** A chunk within one page is a part of that page's frame. */
  lemma ChunkBytes(m: Mem, root: nat, a: nat, n: nat)
    requires Trees(m) && root in m.use && m.use[root] == Root && a % PGSIZE + n <= PGSIZE
    requires var f := UserFrame(m, root, a / PGSIZE); 0 < f < |m.pages| && IsPage(m.pages[f])
    ensures m.pages[UserFrame(m, root, a / PGSIZE)].bytes[a % PGSIZE..a % PGSIZE + n] == Bytes(m, root, a, n)
  {
    hide Trees, Lookup;
    var f := UserFrame(m, root, a / PGSIZE);
    var s, t := m.pages[f].bytes[a % PGSIZE..a % PGSIZE + n], Bytes(m, root, a, n);
    forall k | 0 <= k < n ensures s[k] == t[k] {
      SamePage(a, k);
    }
  }

  lemma SamePage(a: nat, k: nat)
    requires a % PGSIZE + k < PGSIZE
    ensures (a + k) / PGSIZE == a / PGSIZE && (a + k) % PGSIZE == a % PGSIZE + k
  {
  }

  /** The next chunk of a copy: to the end of its page, or of what is left. */
  function Chunk(a: nat, len: nat): (n: nat)
    ensures n <= len && a % PGSIZE + n <= PGSIZE && (len > 0 ==> n > 0)
    ensures n == len || (a + n) % PGSIZE == 0
  {
    if PGSIZE - a % PGSIZE > len then len else PGSIZE - a % PGSIZE
  }

  lemma ReachableMore(m: Mem, root: nat, va: nat, done: nat, n: nat, len: nat)
    requires Trees(m) && root in m.use && m.use[root] == Root && Reachable(m, root, va, done)
    requires 0 < n && (va + done) % PGSIZE + n <= PGSIZE && done + n <= len
    ensures UserFrame(m, root, (va + done) / PGSIZE) != 0 ==> Reachable(m, root, va, done + n)
    ensures UserFrame(m, root, (va + done) / PGSIZE) == 0 ==> !Reachable(m, root, va, len)
  {
    hide Trees, UserFrame, Lookup;
    var a := va + done;
    ReachedIff(m, root, a);
    if UserFrame(m, root, a / PGSIZE) != 0 {
      forall b | va <= b < va + done + n ensures ReachableAt(m, root, b) {
        if b >= a {
          SamePage(a, b - a);
        }
      }
    } else {
      assert !ReachableAt(m, root, a);
    }
  }

  // ---------------------------------------------------------------- reading

  /** copyin: the bytes of a range, if user code can reach all of it. */
  method CopyIn(vm: Vm, root: nat, srcva: nat, len: nat) returns (ok: bool, dst: seq<Byte>)
    requires vm.Valid() && root in vm.use && vm.use[root] == Root
    modifies vm`pages, vm`freelist, vm`use, vm`free
    ensures vm.pages == old(vm.pages) && vm.freelist == old(vm.freelist) && vm.use == old(vm.use)
    ensures vm.free == old(vm.free)
    ensures ok <==> Reachable(Mem(vm.lo, vm.pages, vm.use), root, srcva, len)
    ensures ok ==> dst == Bytes(Mem(vm.lo, vm.pages, vm.use), root, srcva, len)
    ensures !ok ==> |dst| < len && dst == Bytes(Mem(vm.lo, vm.pages, vm.use), root, srcva, |dst|)
  {
    hide Trees, FreeList, UserFrame, ByteOf, ReachableAt, Lookup;
    ghost var m := Mem(vm.lo, vm.pages, vm.use);
    dst := [];
    var left, va := len, srcva;
    while left > 0
      invariant 0 <= left <= len && va == srcva + (len - left) && |dst| == len - left
      invariant vm.pages == old(vm.pages) && vm.freelist == old(vm.freelist) && vm.use == old(vm.use)
          && vm.free == old(vm.free)
      invariant Reachable(m, root, srcva, len - left) && dst == Bytes(m, root, srcva, len - left)
    {
      var f := Walkaddr(vm, root, va / PGSIZE);
      var n := Chunk(va, left);
      ReachableMore(m, root, srcva, len - left, n, len);
      if f == 0 {
        return false, dst;
      }
      ChunkBytes(m, root, va, n);
      BytesTwice(m, root, srcva, len - left, n);
      dst := dst + vm.pages[f].bytes[va % PGSIZE..va % PGSIZE + n];
      left, va := left - n, va + n;
    }
    assert len - left == len;
    ok := true;
  }

  // ---------------------------------------------------------------- writing, as values

  /** A frame that a page owns is reached from no other page of any address space. */
  lemma FrameUnique(m: Mem, root: nat, v: nat, r: nat, w: nat)
    requires Trees(m) && root in m.use && m.use[root] == Root && r in m.use && m.use[r] == Root && v < MAXVPN
    requires w < MAXVPN
    requires Lookup(m, root, v).v && OwnsPage(m, root, v) && Lookup(m, r, w).v
    requires Lookup(m, r, w).ppn == Lookup(m, root, v).ppn
    ensures r == root && w == v
  {
    var f := Lookup(m, root, v).ppn;
    SpotHolds(m, root, v, f);
    MappedHasTable(m, r, w);
    LookupIs(m, r, w);
    assert EntryRight(m, Low(m, r, w), I0(w));
    hide Trees, Lookup, Low, Owner, I0;
    if (r, w) != (root, v) {
      SlotsDistinct(m, r, w, root, v);
    }
  }

  /** Frame f lies under an address of the range. */
  ghost predicate UnderRange(m: Mem, root: nat, va: nat, n: nat, f: nat)
    requires Trees(m) && root in m.use && m.use[root] == Root
  {
    exists a :: va <= a < va + n && ReachableAt(m, root, a) && UserFrame(m, root, a / PGSIZE) == f
  }

  /**
   Exactly the bytes at one range of addresses have changed, over all address spaces,
   and no frame but those under the range: not a table, nor a free or a kernel page.
   */
  ghost predicate CopiedOut(m: Mem, m': Mem, root: nat, va: nat, s: seq<Byte>) {
    && root in m.use && m.use[root] == Root
    && SameMaps(m, m') && m'.use == m.use && m'.lo == m.lo && |m'.pages| == |m.pages|
    && (forall r, a: nat :: r in m.use && m.use[r] == Root && ReachableAt(m, r, a) ==>
          ByteOf(m', r, a) == if r == root && va <= a < va + |s| then s[a - va] else ByteOf(m, r, a))
    && (forall f :: 0 <= f < |m.pages| && m'.pages[f] != m.pages[f] ==> UnderRange(m, root, va, |s|, f))
  }

  function Poke(p: Page, at: nat, s: seq<Byte>): (q: Page)
    requires IsPage(p) && at + |s| <= PGSIZE
    ensures IsPage(q) && forall i :: 0 <= i < PGSIZE ==>
        q.bytes[i] == if at <= i < at + |s| then s[i - at] else p.bytes[i]
  {
    Data(p.bytes[..at] + s + p.bytes[at + |s|..])
  }

  lemma PokeKeeps(m: Mem, head: nat, free: seq<nat>, f: nat, p: Page)
    requires Trees(m) && FreeList(m.pages, head, free, m.use) && f in m.use && f < |m.pages|
    requires (m.use[f].User? || m.use[f] == Kernel) && IsPage(p)
    ensures var m' := Mem(m.lo, m.pages[f := p], m.use);
            Trees(m') && FreeList(m'.pages, head, free, m'.use) && SameMaps(m, m')
  {
    assert PageOk(m.use[f], p);
    hide Trees, FreeList, PageOk;
    PageChanges(m, f, p, m.use[f]);
    assert m.use[f := m.use[f]] == m.use;
    var m' := Mem(m.lo, m.pages[f := p], m.use);
    TablesMaps(m, m');
    ListKept(m.pages, m'.pages, head, free, m.use, m.use);
  }

  lemma PokeCopies(m: Mem, m': Mem, root: nat, a: nat, s: seq<Byte>)
    requires Trees(m) && root in m.use && m.use[root] == Root && a % PGSIZE + |s| <= PGSIZE && a / PGSIZE < MAXVPN
    requires var f := UserFrame(m, root, a / PGSIZE);
             && 0 < f < |m.pages| && IsPage(m.pages[f]) && SameMaps(m, m')
             && m' == Mem(m.lo, m.pages[f := Poke(m.pages[f], a % PGSIZE, s)], m.use)
    requires OwnsPage(m, root, a / PGSIZE)
    ensures CopiedOut(m, m', root, a, s)
  {
    hide Trees, Lookup, Owner;
    forall r, b: nat | r in m.use && m.use[r] == Root && ReachableAt(m, r, b)
      ensures ByteOf(m', r, b) == if r == root && a <= b < a + |s| then s[b - a] else ByteOf(m, r, b)
    {
      PokeByte(m, m', root, a, s, r, b);
    }
    var f := UserFrame(m, root, a / PGSIZE);
    if s == [] {
      assert Poke(m.pages[f], a % PGSIZE, s).bytes == m.pages[f].bytes;
    } else {
      ReachedIff(m, root, a);
      assert UnderRange(m, root, a, |s|, f);
    }
  }

  lemma PokeByte(m: Mem, m': Mem, root: nat, a: nat, s: seq<Byte>, r: nat, b: nat)
    requires Trees(m) && root in m.use && m.use[root] == Root && a % PGSIZE + |s| <= PGSIZE && a / PGSIZE < MAXVPN
    requires var f := UserFrame(m, root, a / PGSIZE);
             && 0 < f < |m.pages| && IsPage(m.pages[f]) && SameMaps(m, m')
             && m' == Mem(m.lo, m.pages[f := Poke(m.pages[f], a % PGSIZE, s)], m.use)
    requires OwnsPage(m, root, a / PGSIZE) && r in m.use && m.use[r] == Root && ReachableAt(m, r, b)
    ensures ByteOf(m', r, b) == if r == root && a <= b < a + |s| then s[b - a] else ByteOf(m, r, b)
  {
    hide Trees, Lookup, Owner, OwnsPage, Poke;
    var f, g := UserFrame(m, root, a / PGSIZE), UserFrame(m, r, b / PGSIZE);
    assert UserFrame(m', r, b / PGSIZE) == g;
    WithinPage(a, b, |s|);
    if f == g {
      FrameUnique(m, root, a / PGSIZE, r, b / PGSIZE);
    }
  }

  lemma WithinPage(a: nat, b: nat, n: nat)
    requires a % PGSIZE + n <= PGSIZE
    ensures a <= b < a + n <==> b / PGSIZE == a / PGSIZE && a % PGSIZE <= b % PGSIZE < a % PGSIZE + n
    ensures b / PGSIZE == a / PGSIZE ==> b % PGSIZE - a % PGSIZE == b - a
  {
    assert a == PGSIZE * (a / PGSIZE) + a % PGSIZE;
    assert b == PGSIZE * (b / PGSIZE) + b % PGSIZE;
  }

  lemma CopiedNone(m: Mem, root: nat, va: nat)
    requires Trees(m) && root in m.use && m.use[root] == Root
    ensures CopiedOut(m, m, root, va, [])
  {
  }

  lemma CopiedMore(m: Mem, m1: Mem, m2: Mem, root: nat, va: nat, s: seq<Byte>, t: seq<Byte>)
    requires CopiedOut(m, m1, root, va, s) && CopiedOut(m1, m2, root, va + |s|, t)
    ensures CopiedOut(m, m2, root, va, s + t)
  {
    hide Trees, Lookup, ByteOf;
    MapsTwice(m, m1, m2);
    forall r, a: nat | r in m.use && m.use[r] == Root && ReachableAt(m, r, a)
      ensures ByteOf(m2, r, a) == if r == root && va <= a < va + |s + t| then (s + t)[a - va] else ByteOf(m, r, a)
    {
      SameFrame(m, m1, r, a / PGSIZE);
      assert ByteOf(m1, r, a) == if r == root && va <= a < va + |s| then s[a - va] else ByteOf(m, r, a);
    }
    forall f | 0 <= f < |m.pages| && m2.pages[f] != m.pages[f]
      ensures UnderRange(m, root, va, |s + t|, f)
    {
      UnderMore(m, m1, root, va, |s|, |t|, f);
    }
  }

  lemma UnderMore(m: Mem, m1: Mem, root: nat, va: nat, n: nat, k: nat, f: nat)
    requires SameMaps(m, m1) && root in m.use && m.use[root] == Root && root in m1.use && m1.use[root] == Root
    requires UnderRange(m, root, va, n, f) || UnderRange(m1, root, va + n, k, f)
    ensures UnderRange(m, root, va, n + k, f)
  {
    hide Trees, Lookup, ReachableAt;
    if UnderRange(m, root, va, n, f) {
      var a :| va <= a < va + n && ReachableAt(m, root, a) && UserFrame(m, root, a / PGSIZE) == f;
      assert a < va + n + k;
    } else {
      var a :| va + n <= a < va + n + k && ReachableAt(m1, root, a) && UserFrame(m1, root, a / PGSIZE) == f;
      SameFrame(m, m1, root, a / PGSIZE);
      SameReachAt(m, m1, root, a);
      assert ReachableAt(m, root, a);
    }
  }

  lemma SameReachAt(m: Mem, m': Mem, root: nat, a: nat)
    requires SameMaps(m, m') && root in m.use && m.use[root] == Root
    ensures root in m'.use && m'.use[root] == Root && (ReachableAt(m', root, a) <==> ReachableAt(m, root, a))
  {
    hide Trees, Lookup;
    SameFrame(m, m', root, a / PGSIZE);
  }

  lemma SameFrame(m: Mem, m': Mem, r: nat, v: nat)
    requires SameMaps(m, m') && r in m.use && m.use[r] == Root
    ensures r in m'.use && m'.use[r] == Root && UserFrame(m', r, v) == UserFrame(m, r, v)
  {
    hide Trees, Lookup;
  }

  lemma SameReach(m: Mem, m': Mem, root: nat, va: nat, n: nat)
    requires SameMaps(m, m') && root in m.use && m.use[root] == Root
    ensures root in m'.use && m'.use[root] == Root && (Reachable(m', root, va, n) <==> Reachable(m, root, va, n))
  {
    hide Trees, ReachableAt;
    SameFrame(m, m', root, 0);
    forall a: nat ensures ReachableAt(m', root, a) <==> ReachableAt(m, root, a) {
      SameReachAt(m, m', root, a);
    }
  }

  /** Reading back what was copied out gives it back, across pages. */
  lemma CopyRound(m: Mem, m': Mem, root: nat, va: nat, s: seq<Byte>)
    requires CopiedOut(m, m', root, va, s) && Reachable(m, root, va, |s|)
    ensures root in m'.use && m'.use[root] == Root && Reachable(m', root, va, |s|) && Bytes(m', root, va, |s|) == s
  {
    hide Trees, ReachableAt, ByteOf;
    SameReach(m, m', root, va, |s|);
    var t := Bytes(m', root, va, |s|);
    forall k | 0 <= k < |s| ensures t[k] == s[k] {
      assert ReachableAt(m, root, va + k);
    }
  }

  // ---------------------------------------------------------------- writing

  /** copyout: writes bytes at a range of addresses, stopping at a page that user code cannot reach. */
  method CopyOut(vm: Vm, root: nat, dstva: nat, src: seq<Byte>) returns (ok: bool, ghost done: nat)
    requires vm.Valid() && root in vm.use && vm.use[root] == Root
    requires forall a :: dstva <= a < dstva + |src| && a / PGSIZE < MAXVPN ==>
        OwnsAt(Mem(vm.lo, vm.pages, vm.use), root, a)
    modifies vm`pages, vm`freelist, vm`use, vm`free
    ensures vm.Valid() && root in vm.use && vm.use[root] == Root && done <= |src|
    ensures ok <==> Reachable(old(Mem(vm.lo, vm.pages, vm.use)), root, dstva, |src|)
    ensures ok <==> done == |src|
    ensures CopiedOut(old(Mem(vm.lo, vm.pages, vm.use)), Mem(vm.lo, vm.pages, vm.use), root, dstva, src[..done])
  {
    hide Trees, FreeList, UserFrame, ByteOf, CopiedOut, OwnsAt, Reachable, Lookup;
    ghost var m := Mem(vm.lo, vm.pages, vm.use);
    done := 0;
    CopiedNone(m, root, dstva);
    ReachNone(m, root, dstva);
    assert src[..0] == [];
    var va, at := dstva, 0;
    while at < |src|
      invariant at == done <= |src| && va == dstva + at && vm.Valid() && root in vm.use && vm.use[root] == Root
      invariant CopiedOut(m, Mem(vm.lo, vm.pages, vm.use), root, dstva, src[..at]) && vm.use == m.use
      invariant Reachable(m, root, dstva, at)
    {
      ghost var m1 := Mem(vm.lo, vm.pages, vm.use);
      var f := Walkaddr(vm, root, va / PGSIZE);
      var n := Chunk(va, |src| - at);
      CopiedFrame(m, m1, root, dstva, src[..at], va / PGSIZE);
      ReachableMore(m, root, dstva, at, n, |src|);
      if f == 0 {
        return false, done;
      }
      FrameBelow(m1, root, va / PGSIZE);
      assert OwnsAt(m, root, va);
      CopiedOwns(m, m1, root, dstva, src[..at], va);
      ghost var s := src[at..at + n];
      PokeKeeps(m1, vm.freelist, vm.free, f, Poke(vm.pages[f], va % PGSIZE, s));
      vm.pages := vm.pages[f := Poke(vm.pages[f], va % PGSIZE, src[at..at + n])];
      PokeCopies(m1, Mem(vm.lo, vm.pages, vm.use), root, va, s);
      CopiedMore(m, m1, Mem(vm.lo, vm.pages, vm.use), root, dstva, src[..at], s);
      assert src[..at] + s == src[..at + n];
      at, va, done := at + n, va + n, at + n;
    }
    ok := true;
  }

  ghost predicate OwnsAt(m: Mem, root: nat, a: nat)
    requires Trees(m) && root in m.use && m.use[root] == Root && a / PGSIZE < MAXVPN
  {
    OwnsPage(m, root, a / PGSIZE)
  }

  lemma ReachNone(m: Mem, root: nat, va: nat)
    requires Trees(m) && root in m.use && m.use[root] == Root
    ensures Reachable(m, root, va, 0)
  {
  }

  lemma FrameBelow(m: Mem, root: nat, v: nat)
    requires Trees(m) && root in m.use && m.use[root] == Root && UserFrame(m, root, v) != 0
    ensures v < MAXVPN
  {
  }

  lemma CopiedFrame(m: Mem, m': Mem, root: nat, va: nat, s: seq<Byte>, v: nat)
    requires CopiedOut(m, m', root, va, s) && root in m.use && m.use[root] == Root
    ensures root in m'.use && m'.use[root] == Root && UserFrame(m', root, v) == UserFrame(m, root, v)
  {
    hide Trees, Lookup, ByteOf;
    SameFrame(m, m', root, v);
  }

  lemma CopiedOwns(m: Mem, m': Mem, root: nat, va: nat, s: seq<Byte>, a: nat)
    requires CopiedOut(m, m', root, va, s) && root in m.use && m.use[root] == Root && a / PGSIZE < MAXVPN
    requires OwnsAt(m, root, a)
    ensures root in m'.use && m'.use[root] == Root && OwnsPage(m', root, a / PGSIZE)
  {
    hide Trees, Lookup, ByteOf, Owner, UserFrame;
  }
}
