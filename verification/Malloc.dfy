/**
 The Kernighan and Ritchie storage allocator of user/umalloc.c.

 Addresses and sizes count header-sized units. The circular free list is
 represented by the headers in memory; its abstract value is a sequence of blocks
 in address order. `free` is insertion with coalescing into that sequence, and
 `malloc` carves the tail off the first large enough block met from `freep` on.
 */
module Malloc {

  const UNIT: nat := 16
  const MINCORE: nat := 4096
  const NULL: int := 0

  datatype Header = Header(ptr: int, size: int)

  /** A run of free units. */
  datatype Block = Block(addr: int, size: int)

  predicate Holds(b: Block, u: int) {
    b.addr <= u < b.addr + b.size
  }

  ghost predicate Covered(bs: seq<Block>, u: int) {
    exists b :: b in bs && Holds(b, u)
  }

  ghost predicate LiveCovered(live: map<int, int>, u: int) {
    exists a :: a in live && Holds(Block(a, live[a]), u)
  }

  /** Address order, with a gap between any two blocks: nothing is left to coalesce. */
  ghost predicate Ordered(bs: seq<Block>) {
    forall i, j :: 0 <= i < j < |bs| ==> Gap(bs, i, j)
  }

  predicate Gap(bs: seq<Block>, i: int, j: int)
    requires 0 <= i < j < |bs|
  {
    bs[i].addr + bs[i].size < bs[j].addr
  }

  lemma OrderedPairs(bs: seq<Block>)
    requires Ordered(bs)
    ensures forall i, j :: 0 <= i < j < |bs| ==> bs[i].addr + bs[i].size < bs[j].addr
  {
    forall i, j | 0 <= i < j < |bs|
      ensures bs[i].addr + bs[i].size < bs[j].addr
    {
      assert Gap(bs, i, j);
    }
  }

  /** The list begins with the permanent empty block; every other block is real. */
  ghost predicate FreeList(bs: seq<Block>, base: int) {
    && |bs| > 0
    && bs[0] == Block(base, 0)
    && (forall i :: 0 < i < |bs| ==> bs[i].size > 0)
    && Ordered(bs)
  }

  function Next(i: int, n: int): (j: int)
    requires 0 <= i < n
    ensures 0 <= j < n
  {
    if i + 1 == n then 0 else i + 1
  }

  /** The headers in memory form one cycle through the blocks, in order. */
  ghost predicate Linked(hdr: map<int, Header>, bs: seq<Block>) {
    forall i :: 0 <= i < |bs| ==> LinkAt(hdr, bs, i)
  }

  ghost predicate LinkAt(hdr: map<int, Header>, bs: seq<Block>, i: int)
    requires 0 <= i < |bs|
  {
    bs[i].addr in hdr && hdr[bs[i].addr] == Header(bs[Next(i, |bs|)].addr, bs[i].size)
  }

  predicate Apart(b: Block, c: Block) {
    b.addr + b.size <= c.addr || c.addr + c.size <= b.addr
  }

  // ---------------------------------------------------------------- insertion

  /** How many blocks lie before address a. */
  ghost function Before(bs: seq<Block>, a: int): (k: nat)
    ensures k <= |bs|
    ensures forall i :: 0 <= i < k ==> bs[i].addr < a
    ensures k < |bs| ==> bs[k].addr >= a
  {
    if bs == [] || bs[0].addr >= a then 0
    else
      var k := Before(bs[1..], a) + 1;
      assert forall i :: 1 <= i < k ==> bs[i] == bs[1..][i - 1];
      k
  }

  /** The list with blocks lo..hi replaced by the one block m. */
  ghost function Replace(bs: seq<Block>, lo: int, hi: int, m: Block): seq<Block>
    requires 0 <= lo <= hi <= |bs|
  {
    bs[..lo] + [m] + bs[hi..]
  }

  /** Insertion in address order, coalescing with the neighbours b touches. */
  ghost function Insert(bs: seq<Block>, b: Block): seq<Block>
    requires Before(bs, b.addr) > 0
  {
    InsertAt(bs, b, Before(bs, b.addr))
  }

  ghost function InsertAt(bs: seq<Block>, b: Block, k: int): seq<Block>
    requires 0 < k <= |bs|
  {
    Replace(bs, Low(bs, b, k), High(bs, b, k), Merged(bs, b, k))
  }

  predicate TouchesLeft(bs: seq<Block>, b: Block, k: int)
    requires 0 < k <= |bs|
  {
    bs[k - 1].addr + bs[k - 1].size == b.addr
  }

  predicate TouchesRight(bs: seq<Block>, b: Block, k: int)
    requires 0 < k <= |bs|
  {
    k < |bs| && b.addr + b.size == bs[k].addr
  }

  function Low(bs: seq<Block>, b: Block, k: int): int
    requires 0 < k <= |bs|
  {
    if TouchesLeft(bs, b, k) then k - 1 else k
  }

  function High(bs: seq<Block>, b: Block, k: int): int
    requires 0 < k <= |bs|
  {
    if TouchesRight(bs, b, k) then k + 1 else k
  }

  function Merged(bs: seq<Block>, b: Block, k: int): Block
    requires 0 < k <= |bs|
  {
    var c := if TouchesRight(bs, b, k) then Block(b.addr, b.size + bs[k].size) else b;
    if TouchesLeft(bs, b, k) then Block(bs[k - 1].addr, bs[k - 1].size + c.size) else c
  }

  ghost predicate Insertable(bs: seq<Block>, base: int, b: Block) {
    && FreeList(bs, base)
    && b.size > 0 && base < b.addr
    && forall i :: 0 <= i < |bs| ==> Apart(bs[i], b)
  }

  lemma CoverSplit(a: seq<Block>, b: seq<Block>)
    ensures forall u :: Covered(a + b, u) <==> Covered(a, u) || Covered(b, u)
  {
    assert forall x :: x in a + b <==> x in a || x in b;
  }

  lemma CoverOne(b: Block)
    ensures forall u :: Covered([b], u) <==> Holds(b, u)
  {
    assert b in [b];
  }

  lemma CoverReplace(bs: seq<Block>, lo: int, hi: int, m: Block)
    requires 0 <= lo <= hi <= |bs|
    ensures forall u :: Covered(Replace(bs, lo, hi, m), u) <==>
        Covered(bs[..lo], u) || Holds(m, u)
        || Covered(bs[hi..], u)
    ensures forall u :: Covered(bs, u) <==> Covered(bs[..lo], u) || Covered(bs[lo..hi], u) || Covered(bs[hi..], u)
  {
    CoverSplit(bs[..lo] + [m], bs[hi..]);
    CoverSplit(bs[..lo], [m]);
    CoverOne(m);
    CoverSplit(bs[..lo] + bs[lo..hi], bs[hi..]);
    CoverSplit(bs[..lo], bs[lo..hi]);
    assert bs == bs[..lo] + bs[lo..hi] + bs[hi..];
  }

  lemma ReplaceKeepsFreeList(bs: seq<Block>, base: int, lo: int, hi: int, m: Block)
    requires FreeList(bs, base) && 0 < lo <= hi <= |bs| && m.size > 0
    requires bs[lo - 1].addr + bs[lo - 1].size < m.addr
    requires hi < |bs| ==> m.addr + m.size < bs[hi].addr
    ensures FreeList(Replace(bs, lo, hi, m), base)
  {
    OrderedPairs(bs);
    var r := Replace(bs, lo, hi, m);
    forall i | 0 <= i < |r|
      ensures r[i] == if i < lo then bs[i] else if i == lo then m else bs[hi + (i - lo - 1)]
      ensures i < lo ==> r[i].addr + r[i].size < m.addr
      ensures i > lo ==> m.addr + m.size < r[i].addr && r[i].size > 0
    {
    }
    forall i, j | 0 <= i < j < |r|
      ensures Gap(r, i, j)
    {
      if i < lo && j > lo {
        assert r[i].addr + r[i].size < m.addr;
      }
    }
  }

  /** Insertion keeps the list ordered and fully coalesced, and adds exactly the units of b. */
  lemma InsertKeepsFreeList(bs: seq<Block>, base: int, b: Block)
    requires Insertable(bs, base, b)
    ensures Before(bs, b.addr) > 0
    ensures FreeList(Insert(bs, b), base)
    ensures forall u :: Covered(Insert(bs, b), u) <==> Covered(bs, u) || Holds(b, u)
    ensures !AllSmaller(Insert(bs, b), b.size)
  {
    OrderedPairs(bs);
    var k := Before(bs, b.addr);
    assert bs[0].addr < b.addr;
    assert Apart(bs[k - 1], b) && (k < |bs| ==> Apart(bs[k], b));
    var lo, hi, m := Low(bs, b, k), High(bs, b, k), Merged(bs, b, k);
    ReplaceKeepsFreeList(bs, base, lo, hi, m);
    CoverReplace(bs, lo, hi, m);
    assert Insert(bs, b)[lo] == m && m in Insert(bs, b);
    MergedUnits(bs, b, k);
  }

  lemma MergedUnits(bs: seq<Block>, b: Block, k: int)
    requires 0 < k <= |bs| && b.size > 0 && bs[k - 1].size >= 0 && (k < |bs| ==> bs[k].size >= 0)
    ensures forall u :: Holds(Merged(bs, b, k), u) <==> Covered(bs[Low(bs, b, k)..High(bs, b, k)], u) || Holds(b, u)
  {
    var lo, hi := Low(bs, b, k), High(bs, b, k);
    var left, right := bs[lo..k], bs[k..hi];
    CoverSplit(left, right);
    assert bs[lo..hi] == left + right;
    assert left == if TouchesLeft(bs, b, k) then [bs[k - 1]] else [];
    assert right == if TouchesRight(bs, b, k) then [bs[k]] else [];
    CoverOne(bs[k - 1]);
    if k < |bs| {
      CoverOne(bs[k]);
    }
  }

  // ---------------------------------------------------------------- removal

  /** The list after n units are taken from the end of block i. */
  ghost function Take(bs: seq<Block>, i: int, n: int): seq<Block>
    requires 0 <= i < |bs|
  {
    if bs[i].size == n then bs[..i] + bs[i + 1..]
    else bs[i := Block(bs[i].addr, bs[i].size - n)]
  }

  /** The block handed out of block i. */
  function Taken(bs: seq<Block>, i: int, n: int): Block
    requires 0 <= i < |bs|
  {
    Block(bs[i].addr + bs[i].size - n, n)
  }

  lemma TakeKeepsFreeList(bs: seq<Block>, base: int, i: int, n: int)
    requires FreeList(bs, base) && 0 <= i < |bs| && 0 < n <= bs[i].size
    ensures FreeList(Take(bs, i, n), base)
    ensures forall u :: Covered(bs, u) <==> Covered(Take(bs, i, n), u) || Holds(Taken(bs, i, n), u)
    ensures forall u :: !(Covered(Take(bs, i, n), u) && Holds(Taken(bs, i, n), u))
  {
    TakeKeepsOrder(bs, base, i, n);
    var left, right := bs[..i], bs[i + 1..];
    assert bs[i..i + 1] == [bs[i]];
    CoverOne(bs[i]);
    OthersApart(bs, i);
    if bs[i].size == n {
      assert Take(bs, i, n) == left + right;
      CoverSplit(left, right);
      CoverReplace(bs, i, i + 1, bs[i]);
    } else {
      var c := Block(bs[i].addr, bs[i].size - n);
      assert Take(bs, i, n) == Replace(bs, i, i + 1, c);
      CoverReplace(bs, i, i + 1, c);
    }
  }

  lemma TakeKeepsOrder(bs: seq<Block>, base: int, i: int, n: int)
    requires FreeList(bs, base) && 0 < i < |bs| && 0 < n <= bs[i].size
    ensures FreeList(Take(bs, i, n), base)
  {
    OrderedPairs(bs);
    var r := Take(bs, i, n);
    if bs[i].size == n {
      assert forall j :: 0 <= j < |r| ==> r[j] == bs[if j < i then j else j + 1];
    } else {
      assert forall j :: 0 <= j < |r| && j != i ==> r[j] == bs[j];
    }
    assert forall j, k :: 0 <= j < k < |r| ==> r[j].addr + r[j].size < r[k].addr;
    assert forall j, k :: 0 <= j < k < |r| ==> Gap(r, j, k);
  }

  lemma OthersApart(bs: seq<Block>, i: int)
    requires Ordered(bs) && 0 <= i < |bs|
    ensures forall u :: Holds(bs[i], u) ==> !Covered(bs[..i], u) && !Covered(bs[i + 1..], u)
  {
    OrderedPairs(bs);
    forall u, x | x in bs[..i] && Holds(x, u)
      ensures !Holds(bs[i], u)
    {
      var j :| 0 <= j < i && bs[j] == x;
    }
    forall u, x | x in bs[i + 1..] && Holds(x, u)
      ensures !Holds(bs[i], u)
    {
      var j :| i < j < |bs| && bs[j] == x;
    }
  }

  /** Giving back what was just taken restores the very list there was. */
  lemma InsertUndoesTake(bs: seq<Block>, base: int, i: int, n: int)
    requires FreeList(bs, base) && 0 <= i < |bs| && 0 < n <= bs[i].size
    ensures Before(Take(bs, i, n), Taken(bs, i, n).addr) > 0
    ensures Insert(Take(bs, i, n), Taken(bs, i, n)) == bs
  {
    OrderedPairs(bs);
    hide Before;
    var t, b := Take(bs, i, n), Taken(bs, i, n);
    TakeKeepsOrder(bs, base, i, n);
    if bs[i].size == n {
      ReinsertWhole(bs, i);
      BeforeIs(t, b.addr, i);
    } else {
      ReinsertEnd(bs, i, n);
      BeforeIs(t, b.addr, i + 1);
    }
  }

  lemma ReinsertWhole(bs: seq<Block>, i: int)
    requires 0 < i < |bs| && bs[i - 1].addr + bs[i - 1].size < bs[i].addr
    requires i + 1 < |bs| ==> bs[i].addr + bs[i].size < bs[i + 1].addr
    ensures InsertAt(bs[..i] + bs[i + 1..], bs[i], i) == bs
  {
    var t := bs[..i] + bs[i + 1..];
    assert t[i - 1] == bs[i - 1] && (i < |t| ==> t[i] == bs[i + 1]);
    assert InsertAt(t, bs[i], i) == Replace(t, i, i, bs[i]);
    assert t[..i] == bs[..i] && t[i..] == bs[i + 1..];
  }

  lemma ReinsertEnd(bs: seq<Block>, i: int, n: int)
    requires 0 <= i < |bs| && 0 < n < bs[i].size
    requires i + 1 < |bs| ==> bs[i].addr + bs[i].size < bs[i + 1].addr
    ensures InsertAt(Take(bs, i, n), Taken(bs, i, n), i + 1) == bs
  {
    var t := Take(bs, i, n);
    assert t[i] == Block(bs[i].addr, bs[i].size - n) && (i + 1 < |t| ==> t[i + 1] == bs[i + 1]);
    assert InsertAt(t, Taken(bs, i, n), i + 1) == Replace(t, i, i + 1, bs[i]);
    assert t[..i] == bs[..i] && t[i + 1..] == bs[i + 1..];
  }

  lemma BeforeIs(bs: seq<Block>, a: int, k: nat)
    requires Ordered(bs) && (forall i :: 0 <= i < |bs| ==> bs[i].size >= 0)
    requires 0 < k <= |bs| && bs[k - 1].addr < a && (k < |bs| ==> bs[k].addr >= a)
    ensures Before(bs, a) == k
  {
    OrderedPairs(bs);
    assert forall j :: 0 <= j < k ==> bs[j].addr <= bs[k - 1].addr;
  }

  // ---------------------------------------------------------------- sizes

  /** Units for a request: the payload rounded up, and a header. */
  function UnitsFor(nbytes: nat): (n: nat)
    ensures (n - 1) * UNIT >= nbytes && (n - 2) * UNIT < nbytes
  {
    (nbytes + UNIT - 1) / UNIT + 1
  }

  /** Units asked of the kernel for a request that does not fit. */
  function CoreFor(nunits: nat): (n: nat)
    ensures n >= nunits && n >= 4096 && (n == nunits || n == 4096)
  {
    if nunits < MINCORE then MINCORE else nunits
  }

  /** The conversion to a 32-bit int that sbrk's parameter applies to a byte count. */
  function AsInt(x: nat): int {
    var y := x % 0x1_0000_0000;
    if y < 0x8000_0000 then y else y - 0x1_0000_0000
  }

  predicate Requestable(nbytes: nat) {
    nbytes <= 0x7FFF_FFE0
  }

  /** Exactly the requests whose byte count reaches the kernel unharmed. */
  lemma CoreRequestIntact(nbytes: nat)
    requires nbytes < 0x1_0000_0000
    ensures AsInt(CoreFor(UnitsFor(nbytes)) * UNIT) == CoreFor(UnitsFor(nbytes)) * UNIT <==> Requestable(nbytes)
  {
    var n := UnitsFor(nbytes);
    assert n <= 0x1000_0001;
    if Requestable(nbytes) {
      assert n <= 0x7FF_FFFF;
      assert CoreFor(n) * UNIT < 0x8000_0000;
    } else {
      assert n >= 0x800_0000;
      assert 0x8000_0000 <= CoreFor(n) * UNIT <= 0x1_0000_0010;
    }
  }

  // ---------------------------------------------------------------- the allocator

  class Allocator {
    const base: int
    var hdr: map<int, Header>
    var freep: int
    var brk: int
    ghost var blocks: seq<Block>
    ghost var live: map<int, int>
    ghost var core: set<int>

    /** The list the code has before its first use is the empty cycle it builds then. */
    ghost predicate Valid()
      reads this
    {
      && base > NULL && brk > base
      && (freep == NULL ==> blocks == [Block(base, 0)] && live == map[])
      && (freep != NULL ==> Linked(hdr, blocks) && InList(blocks, freep))
      && FreeList(blocks, base)
      && LiveBlocks(live, hdr, base)
      && Partition(blocks, live, core)
      && (forall u :: u in core ==> u < brk)
    }

    constructor (base: int, brk: int)
      requires NULL < base < brk
      ensures Valid() && live == map[] && core == {} && this.base == base && this.brk == brk
    {
      this.base, this.brk, freep, hdr := base, brk, NULL, map[];
      blocks, live, core := [Block(base, 0)], map[], {};
      new;
      CoverOne(Block(base, 0));
    }

    /** The walk of free: from freep around the cycle to the gap the block belongs in. */
    method FindGap(bp: int, ghost size: int, ghost k: int) returns (p: int)
      requires freep != NULL && Linked(hdr, blocks) && InList(blocks, freep)
      requires GapAt(blocks, Block(bp, size), k)
      ensures p == blocks[k - 1].addr
    {
      ghost var bs, n := blocks, |blocks|;
      ghost var i :| 0 <= i < n && bs[i].addr == freep;
      p := freep;
      assert LinkAt(hdr, bs, i);
      while !(bp > p && bp < hdr[p].ptr)
        invariant 0 <= i < n && p == bs[i].addr && LinkAt(hdr, bs, i)
        decreases if i < k then k - i else k - i + n
      {
        if p >= hdr[p].ptr && (bp > p || bp < hdr[p].ptr) {
          break;
        }
        i := Next(i, n);
        p := hdr[p].ptr;
        assert LinkAt(hdr, bs, i);
      }
    }

    /** Link the block in after p, coalescing with the block after it and then with p. */
    method WriteLinks(p: int, bp: int, ghost b: Block, ghost k: int)
      requires 0 < k <= |blocks| && p == blocks[k - 1].addr && bp == b.addr
      requires bp in hdr && hdr[bp].size == b.size > 0 && p < bp
      requires LinkAt(hdr, blocks, k - 1) && (k < |blocks| ==> LinkAt(hdr, blocks, k))
      requires blocks[0].addr <= p && (k < |blocks| ==> bp < blocks[k].addr)
      modifies this`hdr
      ensures hdr == Spliced(blocks, b, k, old(hdr))
    {
      var q := hdr[p].ptr;
      if bp + hdr[bp].size == q {
        hdr := hdr[bp := Header(hdr[q].ptr, hdr[bp].size + hdr[q].size)];
      } else {
        hdr := hdr[bp := Header(q, hdr[bp].size)];
      }
      if p + hdr[p].size == bp {
        hdr := hdr[p := Header(hdr[bp].ptr, hdr[p].size + hdr[bp].size)];
      } else {
        hdr := hdr[p := Header(bp, hdr[p].size)];
      }
    }

    /** The body of free: find the gap, then splice the block in and coalesce. */
    method Splice(bp: int, ghost size: int) returns (p: int)
      requires base > NULL && freep != NULL && Linked(hdr, blocks) && InList(blocks, freep)
      requires Insertable(blocks, base, Block(bp, size))
      requires bp in hdr && hdr[bp].size == size
      modifies this`hdr, this`freep, this`blocks
      ensures Before(old(blocks), bp) > 0 && blocks == Insert(old(blocks), Block(bp, size))
      ensures Linked(hdr, blocks) && freep == p && p != NULL && InList(blocks, freep)
      ensures SameOutside(old(hdr), hdr, old(blocks), bp)
    {
      ghost var bs, b := blocks, Block(bp, size);
      ghost var k := Before(bs, bp);
      ghost var j := if k == |bs| then 0 else k;
      GapExists(bs, base, b);
      p := FindGap(bp, size, k);
      assert LinkAt(hdr, bs, k - 1) && LinkAt(hdr, bs, j);
      WriteLinks(p, bp, b, k);
      freep := p;
      blocks := Insert(bs, b);
      SpliceLinks(bs, b, k, old(hdr));
      assert blocks[k - 1].addr == p;
      assert bs[k - 1].addr == p;
    }

    /** free(ap): give a live block back. */
    method Free(ap: int)
      requires Valid() && ap - 1 in live
      modifies this
      ensures Valid()
      ensures live == old(live) - {ap - 1} && core == old(core) && brk == old(brk)
      ensures Before(old(blocks), ap - 1) > 0
      ensures blocks == Insert(old(blocks), Block(ap - 1, old(live)[ap - 1]))
    {
      ghost var bs, lv := blocks, live;
      var bp := ap - 1;
      ghost var b := Block(bp, live[bp]);
      FreeBlocksApart(bs, lv, core, base, bp);
      var p := Splice(bp, live[bp]);
      live := live - {bp};
      FreePartition(bs, lv, core, base, bp);
      LiveStays(bs, live, lv, core, base, old(hdr), hdr, bp);
    }

    /** morecore: ask for at least the smallest extension and free it into the list. */
    method MoreCore(nunits: nat, grant: int) returns (p: int)
      requires Valid() && freep != NULL && nunits > 0
      requires grant == -1 || grant >= brk
      modifies this
      ensures Valid() && live == old(live)
      ensures grant == -1 ==> p == NULL && unchanged(this)
      ensures grant != -1 ==> p == freep != NULL && core == old(core) + Range(grant, CoreFor(nunits))
      ensures grant != -1 ==> !AllSmaller(blocks, nunits)
    {
      var nu := if nunits < MINCORE then MINCORE else nunits;
      if grant == -1 {
        return NULL;
      }
      ghost var bs := blocks;
      ghost var b := Block(grant, nu);
      CoreBelow(bs, live, core, base, brk);
      KeepLinks(hdr, hdr[grant := Header(NULL, nu)], bs);
      KeepLive(live, hdr, base, grant, Header(NULL, nu));
      hdr := hdr[grant := Header(NULL, nu)];
      MorePartition(bs, live, core, base, b, brk);
      ghost var hdr1 := hdr;
      p := Splice(grant, nu);
      core := core + Range(grant, nu);
      brk := grant + nu;
      LiveStays(bs, live, live, old(core), base, hdr1, hdr, grant);
    }

    /** The first call builds the cycle of the one empty block. */
    method Start()
      requires Valid()
      modifies this`hdr, this`freep
      ensures Valid() && freep != NULL
    {
      if freep == NULL {
        KeepLive(live, hdr, base, base, Header(base, 0));
        hdr := hdr[base := Header(base, 0)];
        freep := base;
        assert LinkAt(hdr, blocks, 0);
        assert blocks[0].addr == freep;
      }
    }

    /**
     malloc. `grant` is what sbrk would answer if asked: the start of a new region
     at or above the break, or -1.
     */
    method Malloc(nbytes: nat, grant: int) returns (r: int)
      requires Valid() && Requestable(nbytes)
      requires grant == -1 || grant >= brk
      modifies this
      ensures Valid()
      ensures r == NULL ==> grant == -1 && live == old(live) && core == old(core) && blocks == old(blocks)
      ensures r == NULL ==> AllSmaller(blocks, UnitsFor(nbytes))
      ensures r != NULL ==> r - 1 !in old(live) && live == old(live)[r - 1 := UnitsFor(nbytes)]
      ensures r != NULL ==> Fresh(Block(r - 1, UnitsFor(nbytes)), core, old(live))
      ensures !AllSmaller(old(blocks), UnitsFor(nbytes)) ==> r != NULL && core == old(core)
      ensures r != NULL && core != old(core) ==> core == old(core) + Range(grant, CoreFor(UnitsFor(nbytes)))
    {
      var nunits := UnitsFor(nbytes);
      Start();
      ghost var i;
      var p, prevp;
      p, prevp, i := Search(nunits, grant);
      if p == NULL {
        return NULL;
      }
      r := Carve(p, prevp, nunits, i);
    }

    /** malloc's loop: go around from freep, once more after the core has grown. */
    method Search(nunits: nat, grant: int) returns (p: int, prevp: int, ghost i: int)
      requires Valid() && freep != NULL && nunits > 0
      requires grant == -1 || grant >= brk
      modifies this
      ensures Valid() && freep != NULL && live == old(live)
      ensures p == NULL ==> grant == -1 && core == old(core) && blocks == old(blocks) && AllSmaller(blocks, nunits)
      ensures p != NULL ==> 0 < i < |blocks| && p == blocks[i].addr && prevp == blocks[i - 1].addr
      ensures p != NULL ==> blocks[i].size >= nunits
      ensures !AllSmaller(old(blocks), nunits) ==> p != NULL && core == old(core)
      ensures core == old(core) || core == old(core) + Range(grant, CoreFor(nunits))
    {
      prevp := freep;
      ghost var f :| 0 <= f < |blocks| && blocks[f].addr == freep;
      ghost var pi, grown := f, false;
      i := Next(f, |blocks|);
      LinkOf(hdr, blocks, f);
      LinkOf(hdr, blocks, i);
      PassedNone(blocks, f, nunits);
      p := hdr[prevp].ptr;
      while hdr[p].size < nunits
        invariant Valid() && freep != NULL && live == old(live)
        invariant 0 <= f < |blocks| && blocks[f].addr == freep
        invariant 0 <= i < |blocks| && p == blocks[i].addr && LinkAt(hdr, blocks, i)
        invariant 0 <= pi < |blocks| && prevp == blocks[pi].addr && i == Next(pi, |blocks|)
        invariant PassedSmaller(blocks, f, i, nunits)
        invariant if grown
                  then !AllSmaller(blocks, nunits) && grant != -1 && AllSmaller(old(blocks), nunits)
                       && core == old(core) + Range(grant, CoreFor(nunits))
                  else blocks == old(blocks) && core == old(core) && brk == old(brk)
        decreases !grown, if i <= f then f - i else f - i + |blocks|
      {
        if p == freep {
          SameIndex(blocks, base, i, f);
          PassedAll(blocks, f, nunits);
          p := MoreCore(nunits, grant);
          if p == NULL {
            return;
          }
          grown := true;
          f :| 0 <= f < |blocks| && blocks[f].addr == freep;
          i := f;
          PassedNone(blocks, f, nunits);
        } else {
          PassedMore(blocks, f, i, nunits);
        }
        LinkOf(hdr, blocks, i);
        prevp := p;
        pi, i := i, Next(i, |blocks|);
        p := hdr[p].ptr;
        LinkOf(hdr, blocks, i);
      }
      AboveBase(blocks, base, i);
    }

    /** Unlink the block found, or split its end off. */
    method Unlink(p0: int, prevp: int, nunits: nat, ghost i: int) returns (p: int)
      requires Linked(hdr, blocks) && FreeList(blocks, base) && nunits > 0
      requires 0 < i < |blocks| && blocks[i].addr == p0 && blocks[i].size >= nunits
      requires prevp == blocks[i - 1].addr
      modifies this`hdr, this`freep, this`blocks
      ensures blocks == Take(old(blocks), i, nunits) && p == Taken(old(blocks), i, nunits).addr
      ensures Linked(hdr, blocks) && freep == prevp && InList(blocks, freep)
      ensures p in hdr && hdr[p].size == nunits
      ensures SameOutside(old(hdr), hdr, old(blocks), p)
    {
      p := p0;
      ghost var bs := blocks;
      assert LinkAt(hdr, bs, i) && LinkAt(hdr, bs, i - 1);
      assert forall j :: 0 <= j < |bs| ==> bs[j].size >= 0;
      blocks := Take(bs, i, nunits);
      assert blocks[i - 1].addr == prevp && bs[i - 1].addr == prevp && bs[i].addr == p0;
      if hdr[p].size == nunits {
        hdr := hdr[prevp := Header(hdr[p].ptr, hdr[prevp].size)];
        TakeAllLinks(bs, i, old(hdr), hdr);
      } else {
        hdr := hdr[p := Header(hdr[p].ptr, hdr[p].size - nunits)];
        p := p + hdr[p].size;
        hdr := hdr[p := Header(if p in hdr then hdr[p].ptr else NULL, nunits)];
        TakeSomeLinks(bs, i, nunits, old(hdr), hdr, hdr[p]);
      }
      freep := prevp;
    }

    /** The end of malloc: what is handed out becomes live. */
    method Carve(p0: int, prevp: int, nunits: nat, ghost i: int) returns (r: int)
      requires Valid() && freep != NULL && nunits > 0
      requires 0 < i < |blocks| && blocks[i].addr == p0 && blocks[i].size >= nunits
      requires prevp == blocks[i - 1].addr
      modifies this`hdr, this`freep, this`blocks, this`live
      ensures Valid() && r != NULL
      ensures blocks == Take(old(blocks), i, nunits) && r - 1 == Taken(old(blocks), i, nunits).addr
      ensures r - 1 !in old(live) && live == old(live)[r - 1 := nunits]
      ensures Fresh(Block(r - 1, nunits), core, old(live))
    {
      ghost var bs, lv := blocks, live;
      TakeKeepsFreeList(bs, base, i, nunits);
      TakePartition(bs, lv, core, base, i, nunits);
      var p := Unlink(p0, prevp, nunits, i);
      r := p + 1;
      live := live[p := nunits];
      AboveBase(bs, base, i - 1);
      LiveStays(bs, lv, lv, core, base, old(hdr), hdr, p);
    }
  }

  /** Walking the cycle from just after f, index j has been left behind on the way to i. */
  predicate Passed(f: int, i: int, j: int) {
    if f < i then f < j < i else j > f || j < i
  }

  ghost function Range(a: int, n: nat): set<int> {
    set u | a <= u < a + n && Holds(Block(a, n), u)
  }

  // ---------------------------------------------------------------- the invariant, step by step

  ghost predicate LiveBlocks(live: map<int, int>, hdr: map<int, Header>, base: int) {
    && (forall a :: a in live ==> base < a && live[a] > 0 && a in hdr && hdr[a].size == live[a])
    && (forall a, b :: a in live && b in live && a != b ==> Apart(Block(a, live[a]), Block(b, live[b])))
  }

  /** Free and live units partition the units obtained from the kernel. */
  ghost predicate Partition(bs: seq<Block>, live: map<int, int>, core: set<int>) {
    && (forall u :: u in core <==> Covered(bs, u) || LiveCovered(live, u))
    && (forall u :: !(Covered(bs, u) && LiveCovered(live, u)))
  }

  /** A block of units of the core, none of them live. */
  ghost predicate Fresh(b: Block, core: set<int>, live: map<int, int>) {
    forall u :: Holds(b, u) ==> u in core && !LiveCovered(live, u)
  }

  lemma KeepLive(live: map<int, int>, hdr: map<int, Header>, base: int, a: int, h: Header)
    requires LiveBlocks(live, hdr, base) && a !in live
    ensures LiveBlocks(live, hdr[a := h], base)
  {
  }

  lemma AboveBase(bs: seq<Block>, base: int, i: int)
    requires FreeList(bs, base) && 0 <= i < |bs|
    ensures base <= bs[i].addr
  {
    if i > 0 {
      assert Gap(bs, 0, i);
    }
  }

  lemma SameIndex(bs: seq<Block>, base: int, i: int, j: int)
    requires FreeList(bs, base) && 0 <= i < |bs| && 0 <= j < |bs| && bs[i].addr == bs[j].addr
    ensures i == j
  {
    OrderedPairs(bs);
  }

  ghost predicate InList(bs: seq<Block>, a: int) {
    exists i :: 0 <= i < |bs| && bs[i].addr == a
  }

  ghost predicate AllSmaller(bs: seq<Block>, n: int) {
    forall b :: b in bs ==> b.size < n
  }

  /** Every block left behind on the way from f to i is too small. */
  ghost predicate PassedSmaller(bs: seq<Block>, f: int, i: int, n: int) {
    forall j :: 0 <= j < |bs| && Passed(f, i, j) ==> bs[j].size < n
  }

  lemma PassedNone(bs: seq<Block>, f: int, n: int)
    requires 0 <= f < |bs|
    ensures PassedSmaller(bs, f, Next(f, |bs|), n)
  {
  }

  lemma PassedMore(bs: seq<Block>, f: int, i: int, n: int)
    requires 0 <= f < |bs| && 0 <= i < |bs| && i != f && bs[i].size < n && PassedSmaller(bs, f, i, n)
    ensures PassedSmaller(bs, f, Next(i, |bs|), n)
  {
  }

  lemma PassedAll(bs: seq<Block>, f: int, n: int)
    requires 0 <= f < |bs| && bs[f].size < n && PassedSmaller(bs, f, f, n)
    ensures AllSmaller(bs, n)
  {
  }

  lemma GapExists(bs: seq<Block>, base: int, b: Block)
    requires Insertable(bs, base, b)
    ensures Before(bs, b.addr) > 0 && GapAt(bs, b, Before(bs, b.addr))
  {
    OrderedPairs(bs);
    assert bs[0].addr < b.addr;
    var k := Before(bs, b.addr);
    forall i | k <= i < |bs|
      ensures b.addr < bs[i].addr
    {
      assert Apart(bs[i], b);
    }
  }

  /** Where the walk of free must stop: after block k - 1. */
  ghost predicate GapAt(bs: seq<Block>, b: Block, k: int) {
    && 0 < k <= |bs|
    && (forall i :: 0 <= i < k ==> bs[i].addr < b.addr)
    && (forall i :: k <= i < |bs| ==> b.addr < bs[i].addr)
    && (forall i :: 0 <= i < |bs| ==> bs[0].addr <= bs[i].addr)
    && (forall i :: 0 <= i < |bs| - 1 ==> bs[i].addr < bs[i + 1].addr)
  }

  lemma FreeBlocksApart(bs: seq<Block>, live: map<int, int>, core: set<int>, base: int, a: int)
    requires FreeList(bs, base) && Partition(bs, live, core) && a in live && base < a && live[a] > 0
    ensures Insertable(bs, base, Block(a, live[a]))
    ensures !InList(bs, a)
  {
    var b := Block(a, live[a]);
    forall i | 0 <= i < |bs|
      ensures Apart(bs[i], b) && bs[i].addr != a
    {
      if i > 0 {
        var c, x := bs[i], bs[i].addr;
        assert c in bs && Holds(c, x) && Holds(b, a);
        assert Covered(bs, x) && LiveCovered(live, a);
        assert Holds(b, x) ==> LiveCovered(live, x);
        assert Holds(c, a) ==> Covered(bs, a);
      }
    }
  }

  lemma FreePartition(bs: seq<Block>, live: map<int, int>, core: set<int>, base: int, a: int)
    requires FreeList(bs, base) && Partition(bs, live, core) && a in live && base < a && live[a] > 0
    requires Insertable(bs, base, Block(a, live[a]))
    requires forall c :: c in live && c != a ==> Apart(Block(a, live[a]), Block(c, live[c]))
    ensures Before(bs, a) > 0
    ensures FreeList(Insert(bs, Block(a, live[a])), base)
    ensures Partition(Insert(bs, Block(a, live[a])), live - {a}, core)
  {
    var b := Block(a, live[a]);
    InsertKeepsFreeList(bs, base, b);
    var rest := live - {a};
    forall u
      ensures LiveCovered(live, u) <==> LiveCovered(rest, u) || Holds(b, u)
      ensures !(LiveCovered(rest, u) && Holds(b, u))
    {
      if LiveCovered(live, u) && !Holds(b, u) {
        var c :| c in live && Holds(Block(c, live[c]), u);
        assert c in rest && rest[c] == live[c];
      }
      if LiveCovered(rest, u) {
        var c :| c in rest && Holds(Block(c, rest[c]), u);
        assert c in live && live[c] == rest[c];
      }
    }
  }

  lemma CoreBelow(bs: seq<Block>, live: map<int, int>, core: set<int>, base: int, brk: int)
    requires FreeList(bs, base) && Partition(bs, live, core) && base < brk
    requires (forall u :: u in core ==> u < brk) && (forall a :: a in live ==> live[a] > 0)
    ensures forall i :: 0 <= i < |bs| ==> bs[i].addr + bs[i].size <= brk
    ensures forall a :: a in live ==> a < brk
  {
    forall a | a in live
      ensures a < brk
    {
      assert Holds(Block(a, live[a]), a);
      assert LiveCovered(live, a);
    }
    forall i | 0 <= i < |bs|
      ensures bs[i].addr + bs[i].size <= brk
    {
      if i > 0 {
        assert bs[i] in bs && Holds(bs[i], bs[i].addr + bs[i].size - 1);
        assert Covered(bs, bs[i].addr + bs[i].size - 1);
      }
    }
  }

  lemma MorePartition(bs: seq<Block>, live: map<int, int>, core: set<int>, base: int, b: Block, brk: int)
    requires Insertable(bs, base, b) && Partition(bs, live, core)
    requires (forall u :: u in core ==> u < brk) && brk <= b.addr
    ensures Before(bs, b.addr) > 0
    ensures FreeList(Insert(bs, b), base) && !AllSmaller(Insert(bs, b), b.size)
    ensures Partition(Insert(bs, b), live, core + Range(b.addr, b.size))
    ensures forall u :: u in core + Range(b.addr, b.size) ==> u < b.addr + b.size
  {
    InsertKeepsFreeList(bs, base, b);
  }

  lemma TakePartition(bs: seq<Block>, live: map<int, int>, core: set<int>, base: int, i: int, n: int)
    requires FreeList(bs, base) && Partition(bs, live, core) && 0 <= i < |bs| && 0 < n <= bs[i].size
    requires forall a :: a in live ==> base < a && live[a] > 0
    ensures Taken(bs, i, n).addr !in live && base < Taken(bs, i, n).addr
    ensures forall a :: a in live ==> Apart(Block(a, live[a]), Taken(bs, i, n))
    ensures Fresh(Taken(bs, i, n), core, live)
    ensures Partition(Take(bs, i, n), live[Taken(bs, i, n).addr := n], core)
  {
    OrderedPairs(bs);
    TakeKeepsFreeList(bs, base, i, n);
    var t := Taken(bs, i, n);
    var more := live[t.addr := n];
    assert Holds(t, t.addr);
    forall a | a in live
      ensures Apart(Block(a, live[a]), t) && a != t.addr
    {
      FreeBlocksApart(bs, live, core, base, a);
      assert Apart(bs[i], Block(a, live[a]));
    }
    forall u
      ensures LiveCovered(more, u) <==> LiveCovered(live, u) || Holds(t, u)
    {
      if LiveCovered(more, u) && !Holds(t, u) {
        var c :| c in more && Holds(Block(c, more[c]), u);
        assert c in live && live[c] == more[c];
      }
      if LiveCovered(live, u) {
        var c :| c in live && Holds(Block(c, live[c]), u);
        assert c in more && more[c] == live[c];
      }
      if Holds(t, u) {
        assert t.addr in more && Holds(Block(t.addr, more[t.addr]), u);
      }
    }
  }

  lemma LinkOf(hdr: map<int, Header>, bs: seq<Block>, i: int)
    requires Linked(hdr, bs) && 0 <= i < |bs|
    ensures LinkAt(hdr, bs, i)
  {
  }

  lemma KeepLinks(hdr0: map<int, Header>, hdr: map<int, Header>, bs: seq<Block>)
    requires Linked(hdr0, bs)
    requires forall i :: 0 <= i < |bs| && bs[i].addr in hdr0 ==> SameAt(hdr0, hdr, bs[i].addr)
    ensures Linked(hdr, bs)
  {
    forall i | 0 <= i < |bs|
      ensures LinkAt(hdr, bs, i)
    {
      assert LinkAt(hdr0, bs, i);
    }
  }

  /** Only the headers of the list and the one at a may differ. */
  ghost predicate SameOutside(hdr0: map<int, Header>, hdr: map<int, Header>, bs: seq<Block>, a: int) {
    forall c :: c in hdr0 && c != a && !InList(bs, c) ==> SameAt(hdr0, hdr, c)
  }

  lemma LiveStays(bs: seq<Block>, live: map<int, int>, live0: map<int, int>, core: set<int>, base: int,
                  hdr0: map<int, Header>, hdr: map<int, Header>, p: int)
    requires FreeList(bs, base) && Partition(bs, live0, core) && LiveBlocks(live0, hdr0, base)
    requires p !in live && live.Keys <= live0.Keys && (forall a :: a in live ==> live[a] == live0[a])
    requires SameOutside(hdr0, hdr, bs, p)
    ensures LiveBlocks(live, hdr, base)
  {
    forall a | a in live
      ensures a in hdr && hdr[a].size == live[a]
    {
      FreeBlocksApart(bs, live0, core, base, a);
      assert SameAt(hdr0, hdr, a);
    }
  }

  ghost predicate SameAt(hdr0: map<int, Header>, hdr: map<int, Header>, a: int) {
    a in hdr0 && a in hdr && hdr[a] == hdr0[a]
  }

  /** Relinking around a replaced stretch of the cycle keeps it one cycle. */
  lemma Relink(bs: seq<Block>, lo: int, hi: int, m: Block, hdr0: map<int, Header>, hdr: map<int, Header>)
    requires Linked(hdr0, bs) && 0 <= lo <= hi <= |bs|
    requires forall i :: 0 <= i < |bs| && (i < lo - 1 || i >= hi) ==> SameAt(hdr0, hdr, bs[i].addr)
    requires lo > 0 ==> bs[lo - 1].addr in hdr && hdr[bs[lo - 1].addr] == Header(m.addr, bs[lo - 1].size)
    requires lo > 0 || (|bs| > 0 && m.addr == bs[0].addr)
    requires m.addr in hdr && hdr[m.addr] == Header(bs[if hi == |bs| then 0 else hi].addr, m.size)
    ensures Linked(hdr, Replace(bs, lo, hi, m))
  {
    var r := Replace(bs, lo, hi, m);
    forall i | 0 <= i < |r|
      ensures LinkAt(hdr, r, i)
    {
      if i < lo {
        assert r[i] == bs[i] && LinkAt(hdr0, bs, i);
        assert r[i + 1].addr == if i + 1 == lo then m.addr else bs[i + 1].addr;
      } else if i > lo {
        var j := i - lo - 1 + hi;
        assert r[i] == bs[j] && LinkAt(hdr0, bs, j);
      }
    }
  }

  /** The two header updates of free relink the cycle as insertion does. */
  lemma SpliceLinks(bs: seq<Block>, b: Block, k: int, hdr0: map<int, Header>)
    requires GapAt(bs, b, k) && Linked(hdr0, bs) && Ordered(bs) && (forall i :: 0 <= i < |bs| ==> bs[i].size >= 0)
    requires TouchesLeft(bs, b, k) ==> k > 1
    ensures Linked(Spliced(bs, b, k, hdr0), InsertAt(bs, b, k))
  {
    OrderedPairs(bs);
    var hdr := Spliced(bs, b, k, hdr0);
    var lo, hi := Low(bs, b, k), High(bs, b, k);
    forall i | 0 <= i < |bs|
      ensures i < lo - 1 || i >= hi ==> SameAt(hdr0, hdr, bs[i].addr)
    {
      assert LinkAt(hdr0, bs, i);
    }
    assert LinkAt(hdr0, bs, lo - 1);
    Relink(bs, lo, hi, Merged(bs, b, k), hdr0, hdr);
  }

  ghost function Spliced(bs: seq<Block>, b: Block, k: int, hdr: map<int, Header>): map<int, Header>
    requires 0 < k <= |bs|
  {
    var n := |bs|;
    var p, q := bs[k - 1], bs[if k == n then 0 else k];
    var nb := if TouchesRight(bs, b, k) then Header(bs[Next(k, n)].addr, b.size + q.size) else Header(q.addr, b.size);
    var np := if TouchesLeft(bs, b, k) then Header(nb.ptr, p.size + nb.size) else Header(b.addr, p.size);
    hdr[b.addr := nb][p.addr := np]
  }

  /** Unlinking a whole block. */
  lemma TakeAllLinks(bs: seq<Block>, i: int, hdr0: map<int, Header>, hdr: map<int, Header>)
    requires Ordered(bs) && Linked(hdr0, bs) && 0 < i < |bs| && (forall j :: 0 <= j < |bs| ==> bs[j].size >= 0)
    requires hdr == hdr0[bs[i - 1].addr := Header(bs[Next(i, |bs|)].addr, bs[i - 1].size)]
    ensures Linked(hdr, bs[..i] + bs[i + 1..])
  {
    forall j | 0 <= j < |bs|
      ensures j != i - 1 ==> SameAt(hdr0, hdr, bs[j].addr)
    {
      assert LinkAt(hdr0, bs, j);
      if j < i - 1 {
        assert Gap(bs, j, i - 1);
      } else if j > i - 1 {
        assert Gap(bs, i - 1, j);
      }
    }
    if i > 1 {
      assert LinkAt(hdr0, bs, i - 2);
    }
    Relink(bs, i - 1, i + 1, bs[i - 1], hdr0, hdr);
    assert Replace(bs, i - 1, i + 1, bs[i - 1]) == bs[..i] + bs[i + 1..];
  }

  /** Splitting the end off a block; the header written there is not one of the list's. */
  lemma TakeSomeLinks(bs: seq<Block>, i: int, n: int, hdr0: map<int, Header>, hdr: map<int, Header>, h: Header)
    requires Ordered(bs) && Linked(hdr0, bs) && 0 < i < |bs| && 0 < n < bs[i].size
    requires forall j :: 0 <= j < |bs| ==> bs[j].size >= 0
    requires hdr == hdr0[bs[i].addr := Header(bs[Next(i, |bs|)].addr, bs[i].size - n)][bs[i].addr + bs[i].size - n := h]
    ensures Linked(hdr, bs[i := Block(bs[i].addr, bs[i].size - n)])
  {
    OrderedPairs(bs);
    forall j | 0 <= j < |bs|
      ensures j != i ==> SameAt(hdr0, hdr, bs[j].addr)
    {
      assert LinkAt(hdr0, bs, j);
    }
    assert LinkAt(hdr0, bs, i - 1);
    var c := Block(bs[i].addr, bs[i].size - n);
    Relink(bs, i, i + 1, c, hdr0, hdr);
    assert Replace(bs, i, i + 1, c) == bs[i := c];
  }
}
