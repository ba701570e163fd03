/**
 The buffer cache of kernel/bio.c: NBUF buffers on a doubly linked ring in order
 of use, over a disk of blocks.

 The simple thing the cache stands for is `view`, one current content per disk
 block. Reading a buffer gives the view of its block. Only an unreferenced buffer
 is ever taken for another block; if it holds a change that is not on disk, its
 block goes back to what the disk has, and no other block changes.
 */
module BufferCache {
  import opened Blocks
  import opened Params
  import opened Sequences

  const HEAD: nat := NBUF
  const ROOTDEV: int := 1

  datatype Buf = Buf(dev: int, blockno: nat, valid: bool, refcnt: nat, data: Block)

  /** One block reaching the disk. */
  datatype Write = Write(blockno: nat, data: Block)

  // ---------------------------------------------------------------- the ring

  /** The k-th node after the head; the head is at both ends. */
  function At(order: seq<int>, k: int): int
    requires -1 <= k <= |order|
  {
    if 0 <= k < |order| then order[k] else HEAD
  }

  ghost predicate Link(prev: seq<int>, next: seq<int>, order: seq<int>, k: int)
    requires 0 <= k <= |order|
  {
    var a, b := At(order, k - 1), At(order, k);
    && 0 <= a < |next| && next[a] == b
    && 0 <= b < |prev| && prev[b] == a
  }

  /** The order lists buffers, none twice. */
  ghost predicate Distinct(order: seq<int>) {
    && (forall k :: 0 <= k < |order| ==> 0 <= order[k] < NBUF)
    && NoRepeats(order)
  }

  /** Following next from the head meets the buffers of `order` in turn, and prev undoes next. */
  ghost predicate Ring(prev: seq<int>, next: seq<int>, order: seq<int>) {
    && |prev| == |next| == NBUF + 1
    && Distinct(order)
    && forall k :: 0 <= k <= |order| ==> Link(prev, next, order, k)
  }

  /** The ring holds every buffer. */
  ghost predicate Complete(order: seq<int>) {
    |order| == NBUF && forall i :: 0 <= i < NBUF ==> i in order
  }

  /** The position of i in the order. */
  ghost function Position(order: seq<int>, i: int): (k: int)
    requires i in order
    ensures 0 <= k < |order| && order[k] == i
  {
    var k :| 0 <= k < |order| && order[k] == i;
    k
  }

  ghost function Without(order: seq<int>, i: int): seq<int>
    requires i in order
  {
    var k := Position(order, i);
    order[..k] + order[k + 1..]
  }

  /** Buffer i is at place k of the ring, nobody references it, and somebody every one after it. */
  ghost predicate IsOldest(order: seq<int>, bufs: seq<Buf>, k: nat, i: int)
    requires |bufs| == NBUF && k < |order| && forall j :: 0 <= j < |order| ==> 0 <= order[j] < NBUF
  {
    i == order[k] && bufs[i].refcnt == 0 && forall j :: k < j < |order| ==> bufs[order[j]].refcnt != 0
  }

  /** Of the unreferenced buffers, the one used longest ago; -1 if there is none. */
  ghost function Oldest(order: seq<int>, bufs: seq<Buf>): int
    requires |bufs| == NBUF && forall k :: 0 <= k < |order| ==> 0 <= order[k] < NBUF
  {
    if order == [] then -1
    else if bufs[order[|order| - 1]].refcnt == 0 then order[|order| - 1]
    else Oldest(order[..|order| - 1], bufs)
  }

  lemma {:induction false} OldestAt(order: seq<int>, bufs: seq<Buf>, k: int)
    requires |bufs| == NBUF && (forall j :: 0 <= j < |order| ==> 0 <= order[j] < NBUF)
    requires -1 <= k < |order|
    requires forall j :: k < j < |order| ==> bufs[order[j]].refcnt != 0
    requires k >= 0 ==> bufs[order[k]].refcnt == 0
    ensures Oldest(order, bufs) == if k >= 0 then order[k] else -1
  {
    if order != [] && k < |order| - 1 {
      OldestAt(order[..|order| - 1], bufs, k);
    }
  }

  // ---------------------------------------------------------------- unlinking and relinking

  function Unlink(next: seq<int>, prev: seq<int>, i: int): (r: (seq<int>, seq<int>))
    requires |next| == |prev| == NBUF + 1 && 0 <= i < NBUF
    requires 0 <= next[i] <= NBUF && 0 <= prev[i] <= NBUF
    ensures |r.0| == |r.1| == NBUF + 1
  {
    (next[prev[i] := next[i]], prev[next[i] := prev[i]])
  }

  function PushFront(next: seq<int>, prev: seq<int>, i: int): (r: (seq<int>, seq<int>))
    requires |next| == |prev| == NBUF + 1 && 0 <= i < NBUF && 0 <= next[HEAD] <= NBUF
    ensures |r.0| == |r.1| == NBUF + 1
  {
    var n := next[i := next[HEAD]];
    var p := prev[i := HEAD];
    (n[HEAD := i], p[next[HEAD] := i])
  }

  lemma UnlinkRing(prev: seq<int>, next: seq<int>, order: seq<int>, i: int)
    requires Ring(prev, next, order) && i in order
    ensures 0 <= i < NBUF && 0 <= next[i] <= NBUF && 0 <= prev[i] <= NBUF
    ensures Ring(Unlink(next, prev, i).1, Unlink(next, prev, i).0, Without(order, i))
  {
    var k := Position(order, i);
    assert Link(prev, next, order, k) && Link(prev, next, order, k + 1);
    var (n, p) := Unlink(next, prev, i);
    var rest := Without(order, i);
    forall j | 0 <= j <= |rest|
      ensures Link(p, n, rest, j)
    {
      if j < k {
        assert Link(prev, next, order, j);
      } else if j > k {
        assert Link(prev, next, order, j + 1);
      }
    }
  }

  lemma PushFrontRing(prev: seq<int>, next: seq<int>, order: seq<int>, i: int)
    requires Ring(prev, next, order) && 0 <= i < NBUF && i !in order
    ensures 0 <= next[HEAD] <= NBUF
    ensures Ring(PushFront(next, prev, i).1, PushFront(next, prev, i).0, [i] + order)
  {
    assert Link(prev, next, order, 0);
    var (n, p) := PushFront(next, prev, i);
    var more := [i] + order;
    forall j | 0 <= j <= |more|
      ensures Link(p, n, more, j)
    {
      if j >= 1 {
        assert Link(prev, next, order, j - 1);
      }
    }
  }

  // ---------------------------------------------------------------- what the buffers hold

  /** Each buffer of the disk is the one found for its block. */
  ghost predicate Placed(bufs: seq<Buf>, place: map<nat, int>, n: nat) {
    && |bufs| == NBUF
    && (forall i :: 0 <= i < NBUF ==> PlacedAt(bufs[i], place, i, n))
    && (forall b :: b in place ==> 0 <= place[b] < NBUF && bufs[place[b]].dev == ROOTDEV && bufs[place[b]].blockno == b)
  }

  ghost predicate PlacedAt(buf: Buf, place: map<nat, int>, i: int, n: nat) {
    if buf.dev == ROOTDEV then buf.blockno < n && buf.blockno in place && place[buf.blockno] == i
    else buf.dev == 0 && buf.refcnt == 0
  }

  /** The view of block b is in its buffer if it has a filled one, on disk otherwise. */
  ghost predicate Shows(bufs: seq<Buf>, place: map<nat, int>, disk: seq<Block>, view: seq<Block>, b: nat)
    requires |bufs| == NBUF && b < |disk| && b < |view|
    requires b in place ==> 0 <= place[b] < NBUF
  {
    view[b] == if b in place && bufs[place[b]].valid then bufs[place[b]].data else disk[b]
  }

  /** Block b has a change in a buffer that nobody references: the change is lost when the buffer is recycled. */
  predicate LooseIn(bufs: seq<Buf>, place: map<nat, int>, disk: seq<Block>, b: nat) {
    && b in place && 0 <= place[b] < |bufs| && b < |disk|
    && bufs[place[b]].refcnt == 0 && bufs[place[b]].valid && bufs[place[b]].data != disk[b]
  }

  ghost predicate NoneLoose(bufs: seq<Buf>, place: map<nat, int>, disk: seq<Block>) {
    forall b: nat :: !LooseIn(bufs, place, disk, b)
  }

  ghost predicate Coherent(bufs: seq<Buf>, place: map<nat, int>, disk: seq<Block>, view: seq<Block>)
    ensures Coherent(bufs, place, disk, view) ==> |view| == |disk| && |bufs| == NBUF
  {
    && |view| == |disk|
    && Placed(bufs, place, |disk|)
    && forall b :: 0 <= b < |disk| ==> Shows(bufs, place, disk, view, b)
  }

  /** The contents once buffer i is taken for another block: what it held is what the disk has. */
  function Forgotten(bufs: seq<Buf>, disk: seq<Block>, view: seq<Block>, i: int): (r: seq<Block>)
    requires 0 <= i < |bufs| && |view| == |disk|
    ensures |r| == |view|
  {
    var b := bufs[i].blockno;
    if bufs[i].dev == ROOTDEV && b < |disk| then view[b := disk[b]] else view
  }

  /** Taking an unreferenced buffer for another block changes no block's content but that of a loose block. */
  lemma RecycleCoherent(bufs: seq<Buf>, place: map<nat, int>, disk: seq<Block>, view: seq<Block>, i: int, b: nat)
    requires Coherent(bufs, place, disk, view) && 0 <= i < NBUF && bufs[i].refcnt == 0
    requires b < |disk| && b !in place
    ensures var buf := Buf(ROOTDEV, b, false, 1, bufs[i].data);
            var left := if bufs[i].dev == ROOTDEV then place - {bufs[i].blockno} else place;
            Coherent(bufs[i := buf], left[b := i], disk, Forgotten(bufs, disk, view, i))
    ensures Forgotten(bufs, disk, view, i) == view
            <==> !(bufs[i].dev == ROOTDEV && LooseIn(bufs, place, disk, bufs[i].blockno))
  {
    var buf := Buf(ROOTDEV, b, false, 1, bufs[i].data);
    var left := if bufs[i].dev == ROOTDEV then place - {bufs[i].blockno} else place;
    var bufs', view' := bufs[i := buf], Forgotten(bufs, disk, view, i);
    var place' := left[b := i];
    assert PlacedAt(bufs[i], place, i, |disk|);
    forall j | 0 <= j < NBUF
      ensures PlacedAt(bufs'[j], place', j, |disk|)
    {
      assert PlacedAt(bufs[j], place, j, |disk|);
    }
    forall c: nat | c < |disk|
      ensures c in place' ==> 0 <= place'[c] < NBUF
      ensures Shows(bufs', place', disk, view', c)
    {
      assert Shows(bufs, place, disk, view, c);
    }
    if bufs[i].dev == ROOTDEV {
      assert Shows(bufs, place, disk, view, bufs[i].blockno);
      assert view'[bufs[i].blockno] == disk[bufs[i].blockno];
    }
  }

  /** Changing the buffer of one block, within what its view and disk allow, keeps the others. */
  lemma UpdateCoherent(bufs: seq<Buf>, place: map<nat, int>, disk: seq<Block>, view: seq<Block>,
                       i: int, buf: Buf, disk': seq<Block>, view': seq<Block>)
    requires Coherent(bufs, place, disk, view) && 0 <= i < NBUF
    requires bufs[i].dev == ROOTDEV && buf.dev == ROOTDEV && buf.blockno == bufs[i].blockno && buf.valid
    requires |disk'| == |view'| == |disk|
    requires forall b :: 0 <= b < |disk| && b != buf.blockno ==> disk'[b] == disk[b] && view'[b] == view[b]
    requires bufs[i].blockno < |disk| ==> view'[buf.blockno] == buf.data
    ensures Coherent(bufs[i := buf], place, disk', view')
  {
    var bufs' := bufs[i := buf];
    assert PlacedAt(bufs[i], place, i, |disk|);
    forall j | 0 <= j < NBUF
      ensures PlacedAt(bufs'[j], place, j, |disk|)
    {
      assert PlacedAt(bufs[j], place, j, |disk|);
    }
    forall b: nat | b < |disk|
      ensures Shows(bufs', place, disk', view', b)
    {
      assert Shows(bufs, place, disk, view, b);
    }
  }

  /** The number of references to a buffer makes no difference to what blocks hold. */
  lemma RefsCoherent(bufs: seq<Buf>, place: map<nat, int>, disk: seq<Block>, view: seq<Block>, i: int, buf: Buf)
    requires Coherent(bufs, place, disk, view) && 0 <= i < NBUF && bufs[i].dev == ROOTDEV
    requires buf == bufs[i].(refcnt := buf.refcnt)
    ensures Coherent(bufs[i := buf], place, disk, view)
  {
    var bufs' := bufs[i := buf];
    forall j | 0 <= j < NBUF
      ensures PlacedAt(bufs'[j], place, j, |disk|)
    {
      assert PlacedAt(bufs[j], place, j, |disk|);
    }
    forall b: nat | b < |disk|
      ensures Shows(bufs', place, disk, view, b)
    {
      assert Shows(bufs, place, disk, view, b);
    }
  }

  /** A buffer with references is no loose one. */
  lemma NoneLoosened(bufs: seq<Buf>, place: map<nat, int>, disk: seq<Block>, i: int, buf: Buf, disk': seq<Block>)
    requires 0 <= i < |bufs| && buf.refcnt >= 1 && |disk'| == |disk|
    requires forall b: nat :: b < |disk| && disk'[b] != disk[b] ==> b in place && place[b] == i
    ensures NoneLoose(bufs, place, disk) ==> NoneLoose(bufs[i := buf], place, disk')
  {
    var bufs' := bufs[i := buf];
    assert forall b: nat :: LooseIn(bufs', place, disk', b) ==> LooseIn(bufs, place, disk, b);
  }

  /** The buffers that nobody references. */
  ghost function UnusedIn(bufs: seq<Buf>): set<int> {
    set i | 0 <= i < |bufs| && bufs[i].refcnt == 0
  }

  /** Every block shows what it showed, or what the disk has. */
  ghost predicate Slips(view: seq<Block>, view': seq<Block>, disk: seq<Block>) {
    |view'| == |view| == |disk| && forall b :: 0 <= b < |view| ==> view'[b] == view[b] || view'[b] == disk[b]
  }

  /** The blocks in a set of buffers. */
  ghost function HeldIn(bufs: seq<Buf>, held: set<int>): set<nat> {
    set i | i in held && 0 <= i < |bufs| :: bufs[i].blockno
  }

  ghost predicate SameBufs(a: seq<Buf>, b: seq<Buf>, held: set<int>) {
    |a| == |b| && forall j :: j in held && 0 <= j < |a| ==> b[j] == a[j]
  }

  lemma HeldSame(bufs: seq<Buf>, held: set<int>, i: int, buf: Buf)
    requires 0 <= i < |bufs| && (i in held ==> buf.blockno == bufs[i].blockno)
    ensures HeldIn(bufs[i := buf], held) == HeldIn(bufs, held)
  {
    var a, b := HeldIn(bufs[i := buf], held), HeldIn(bufs, held);
    forall x | x in b ensures x in a {
      var j :| j in held && 0 <= j < |bufs| && bufs[j].blockno == x;
      assert bufs[i := buf][j].blockno == x;
    }
    forall x | x in a ensures x in b {
      var j :| j in held && 0 <= j < |bufs| && bufs[i := buf][j].blockno == x;
      assert bufs[j].blockno == x;
    }
  }

  lemma HeldAt(bufs: seq<Buf>, held: set<int>, i: int)
    requires i in held && 0 <= i < |bufs|
    ensures bufs[i].blockno in HeldIn(bufs, held)
  {
  }

  lemma HeldMore(bufs: seq<Buf>, held: set<int>, i: int)
    requires 0 <= i < |bufs|
    ensures HeldIn(bufs, held + {i}) == HeldIn(bufs, held) + {bufs[i].blockno}
  {
  }

  lemma HeldLess(bufs: seq<Buf>, place: map<nat, int>, n: nat, held: set<int>, i: int)
    requires Placed(bufs, place, n) && i in held && forall j :: j in held ==> 0 <= j < NBUF && bufs[j].refcnt >= 1
    ensures HeldIn(bufs, held - {i}) == HeldIn(bufs, held) - {bufs[i].blockno}
  {
    var a, b := HeldIn(bufs, held - {i}), HeldIn(bufs, held);
    forall x | x in a ensures x in b && x != bufs[i].blockno {
      var j :| j in held - {i} && 0 <= j < |bufs| && bufs[j].blockno == x;
      assert PlacedAt(bufs[i], place, i, n) && PlacedAt(bufs[j], place, j, n);
    }
    forall x | x in b && x != bufs[i].blockno ensures x in a {
      var j :| j in held && 0 <= j < |bufs| && bufs[j].blockno == x;
      assert j in held - {i};
    }
  }

  /** A block that is not held has no locked buffer. */
  lemma NotHeld(bufs: seq<Buf>, place: map<nat, int>, n: nat, held: set<int>, b: nat)
    requires Placed(bufs, place, n)
    ensures b in place && place[b] in held ==> b in HeldIn(bufs, held)
  {
  }

  /** No two buffers hold the same block of a device that is in use. */
  lemma NoDuplicates(bufs: seq<Buf>, place: map<nat, int>, n: nat, i: int, j: int)
    requires Placed(bufs, place, n) && 0 <= i < NBUF && 0 <= j < NBUF
    requires bufs[i].dev == bufs[j].dev != 0 && bufs[i].blockno == bufs[j].blockno
    ensures i == j
  {
    assert PlacedAt(bufs[i], place, i, n) && PlacedAt(bufs[j], place, j, n);
  }

  // ---------------------------------------------------------------- the cache

  class Bcache {
    var bufs: seq<Buf>
    var next: seq<int>
    var prev: seq<int>
    var held: set<int>
    var disk: seq<Block>
    ghost var order: seq<int>
    ghost var place: map<nat, int>
    ghost var view: seq<Block>
    ghost var writes: seq<Write>

    ghost predicate Valid()
      reads this
    {
      && Ring(prev, next, order) && Complete(order)
      && Coherent(bufs, place, disk, view)
      && (forall i :: i in held ==> 0 <= i < NBUF && bufs[i].refcnt >= 1 && bufs[i].valid)
    }

    /** Block b has a change that recycling its buffer would lose. */
    ghost predicate Loose(b: nat)
      reads this
    {
      LooseIn(bufs, place, disk, b)
    }

    /** No block is loose, so that recycling a buffer changes no block's content. */
    ghost predicate Tight()
      reads this
    {
      NoneLoose(bufs, place, disk)
    }

    ghost predicate Sound()
      reads this
    {
      Valid() && Tight()
    }

    /** How many references block b has, which is zero when it has no buffer. */
    ghost function Refs(b: nat): nat
      reads this
    {
      if b in place && 0 <= place[b] < |bufs| then bufs[place[b]].refcnt else 0
    }

    /** The buffers that can be taken for another block. */
    ghost function Unused(): set<int>
      reads this
    {
      UnusedIn(bufs)
    }

    /** The blocks whose buffers are locked. */
    ghost function HeldBlocks(): set<nat>
      reads this
    {
      HeldIn(bufs, held)
    }

    /** Whoever held a buffer holds it still, and finds in it what was there. */
    twostate predicate Kept()
      reads this
    {
      held == old(held) && HeldBlocks() == old(HeldBlocks()) && SameBufs(old(bufs), bufs, held)
    }

    /** A held buffer is the one place of a block of the disk. */
    lemma HeldBlock(i: int)
      requires Valid() && i in held
      ensures bufs[i].dev == ROOTDEV && bufs[i].blockno < |disk|
      ensures bufs[i].blockno in place && place[bufs[i].blockno] == i
    {
      assert PlacedAt(bufs[i], place, i, |disk|);
    }

    lemma HeldRefs(b: nat)
      requires Valid()
      ensures b in HeldBlocks() ==> Refs(b) > 0
    {
      if b in HeldBlocks() {
        var i :| i in held && 0 <= i < |bufs| && bufs[i].blockno == b;
        HeldBlock(i);
      }
    }

    lemma Sizes()
      requires Valid()
      ensures |view| == |disk| && |bufs| == NBUF
    {
    }

    lemma PlaceOf(b: nat)
      requires Valid()
      ensures b in place ==> 0 <= place[b] < NBUF && Refs(b) == bufs[place[b]].refcnt
    {
    }

    /** A cache in which no block is referenced has all its buffers to give. */
    lemma AllUnused()
      requires Valid() && forall b: nat :: Refs(b) == 0
      ensures |Unused()| == NBUF
    {
      forall i | 0 <= i < NBUF ensures bufs[i].refcnt == 0 {
        assert PlacedAt(bufs[i], place, i, |disk|);
        assert bufs[i].dev == ROOTDEV ==> Refs(bufs[i].blockno) == bufs[i].refcnt;
      }
      UnusedCount(bufs);
    }

    /** binit: every buffer empty and linked in, the last one in front. */
    constructor (disk: seq<Block>)
      ensures Sound() && this.disk == disk == view && held == {} && writes == []
      ensures forall b: nat :: Refs(b) == 0
    {
      this.disk, view, held, writes, place := disk, disk, {}, [], map[];
      bufs := seq(NBUF, i => Buf(0, 0, false, 0, ZERO));
      order := [];
      var n := seq(NBUF + 1, i => HEAD);
      var p := seq(NBUF + 1, i => HEAD);
      ghost var o: seq<int> := [];
      assert Link(p, n, o, 0);
      for b := 0 to NBUF
        invariant |o| == b && Ring(p, n, o)
        invariant forall i :: 0 <= i < NBUF ==> (i in o <==> i < b)
      {
        PushFrontRing(p, n, o, b);
        var first := n[HEAD];
        n, p := n[b := first], p[b := HEAD];
        n, p := n[HEAD := b], p[first := b];
        o := [b] + o;
      }
      next, prev, order := n, p, o;
    }

    /** The search of bget: the buffer of a cached block. */
    method Find(dev: int, blockno: nat) returns (i: int)
      requires Valid() && dev == ROOTDEV
      ensures -1 <= i < NBUF && (i >= 0 <==> blockno in place)
      ensures i >= 0 ==> place[blockno] == i
    {
      i := next[HEAD];
      ghost var k := 0;
      assert Link(prev, next, order, 0);
      while i != HEAD
        invariant 0 <= k <= NBUF && i == At(order, k)
        invariant forall j :: 0 <= j < k ==> !(bufs[order[j]].dev == dev && bufs[order[j]].blockno == blockno)
        decreases NBUF - k
      {
        assert PlacedAt(bufs[i], place, i, |disk|);
        if bufs[i].dev == dev && bufs[i].blockno == blockno {
          return;
        }
        assert Link(prev, next, order, k + 1);
        i, k := next[i], k + 1;
      }
      assert k == NBUF;
      forall j | 0 <= j < NBUF
        ensures !(bufs[j].dev == dev && bufs[j].blockno == blockno)
      {
        ghost var m := Position(order, j);
      }
      i := -1;
    }

    /** The other search of bget: from the least recently used end, a buffer nobody references. */
    method FindUnused() returns (i: int)
      requires Valid()
      ensures i == Oldest(order, bufs) && -1 <= i < NBUF
      ensures i >= 0 ==> bufs[i].refcnt == 0
      ensures i >= 0 ==> exists k :: 0 <= k < NBUF && IsOldest(order, bufs, k, i)
      ensures i == -1 ==> forall j :: 0 <= j < NBUF ==> bufs[j].refcnt > 0
      ensures i == -1 <==> Unused() == {}
    {
      i := prev[HEAD];
      ghost var k := NBUF - 1;
      assert Link(prev, next, order, NBUF);
      while i != HEAD
        invariant -1 <= k < NBUF && i == At(order, k)
        invariant forall j :: k < j < NBUF ==> bufs[order[j]].refcnt != 0
        decreases k
      {
        if bufs[i].refcnt == 0 {
          OldestAt(order, bufs, k);
          assert i in Unused() && IsOldest(order, bufs, k, i);
          return;
        }
        assert Link(prev, next, order, k);
        i, k := prev[i], k - 1;
      }
      assert k == -1;
      OldestAt(order, bufs, -1);
      forall j | 0 <= j < NBUF
        ensures bufs[j].refcnt > 0
      {
        assert j in order;
      }
      i := -1;
    }

    /**
     bget up to the wait for the buffer's lock: a referenced buffer for the block, its
     own or the one unused longest; -1 when every buffer is referenced and the block
     has none. Taking a buffer loses the change of a loose block, and changes no other.
     */
    method Bget(dev: int, blockno: nat) returns (i: int)
      requires Valid() && dev == ROOTDEV && blockno < |disk|
      modifies this`bufs, this`place, this`view
      ensures Valid() && -1 <= i < NBUF
      ensures i == -1 <==> old(blockno !in place && Oldest(order, bufs) == -1)
      ensures i == -1 <==> old(blockno !in place && Unused() == {})
      ensures i == -1 ==> unchanged(this)
      ensures i >= 0 ==> i == old(if blockno in place then place[blockno] else Oldest(order, bufs))
      ensures i >= 0 ==> blockno in place && place[blockno] == i
      ensures i >= 0 && old(blockno in place) ==>
                bufs[i] == old(bufs[i]).(refcnt := old(bufs[i]).refcnt + 1) && view == old(view)
      ensures i == -1 ==> forall j :: 0 <= j < NBUF ==> bufs[j].refcnt > 0
      ensures i >= 0 && old(blockno !in place) ==>
                && i !in held && old(bufs[i]).refcnt == 0
                && bufs[i] == Buf(ROOTDEV, blockno, false, 1, old(bufs[i]).data)
                && view == old(Forgotten(bufs, disk, view, i))
                && (view == old(view) <==> !(old(bufs[i]).dev == ROOTDEV && old(Loose(bufs[i].blockno))))
      ensures forall j :: 0 <= j < NBUF && j != i ==> bufs[j] == old(bufs[j])
      ensures i >= 0 ==> forall b: nat :: Refs(b) == old(Refs(b)) + (if b == blockno then 1 else 0)
      ensures old(Tight()) ==> Tight() && view == old(view)
      ensures HeldBlocks() == old(HeldBlocks())
      ensures i >= 0 ==> Unused() == old(Unused()) - {i} && (i in old(Unused()) <==> old(Refs(blockno)) == 0)
      ensures old(blockno in place) || i == -1 ==> place == old(place) && view == old(view)
      ensures Slips(old(view), view, disk)
      ensures forall b: nat :: b < |view| && old(Refs(b)) > 0 ==> view[b] == old(view)[b]
    {
      i := Find(dev, blockno);
      if i >= 0 {
        assert Shows(bufs, place, disk, view, blockno);
        var buf := bufs[i].(refcnt := bufs[i].refcnt + 1);
        RefsCoherent(bufs, place, disk, view, i, buf);
        HeldSame(bufs, held, i, buf);
        bufs := bufs[i := buf];
        NoneLoosened(old(bufs), place, disk, i, buf, disk);
        return;
      }
      i := FindUnused();
      if i != -1 {
        Recycle(i, dev, blockno);
      }
    }

    /** Take an unreferenced buffer for a block that has none. */
    method Recycle(i: int, dev: int, blockno: nat)
      requires Valid() && dev == ROOTDEV && blockno < |disk| && blockno !in place
      requires 0 <= i < NBUF && bufs[i].refcnt == 0
      modifies this`bufs, this`place, this`view
      ensures Valid() && bufs == old(bufs)[i := Buf(ROOTDEV, blockno, false, 1, old(bufs[i]).data)]
      ensures i !in held && blockno in place && place[blockno] == i
      ensures view == old(Forgotten(bufs, disk, view, i))
      ensures view == old(view) <==> !(old(bufs[i]).dev == ROOTDEV && old(Loose(bufs[i].blockno)))
      ensures forall b: nat :: Refs(b) == old(Refs(b)) + (if b == blockno then 1 else 0)
      ensures old(Tight()) ==> Tight()
      ensures HeldBlocks() == old(HeldBlocks())
      ensures Unused() == old(Unused()) - {i} && Slips(old(view), view, disk)
      ensures forall b: nat :: b < |view| && old(Refs(b)) > 0 ==> view[b] == old(view)[b]
    {
      assert PlacedAt(bufs[i], place, i, |disk|);
      HeldSame(bufs, held, i, Buf(dev, blockno, false, 1, bufs[i].data));
      RecycleCoherent(bufs, place, disk, view, i, blockno);
      ghost var left := if bufs[i].dev == ROOTDEV then place - {bufs[i].blockno} else place;
      view := Forgotten(bufs, disk, view, i);
      place := left[blockno := i];
      bufs := bufs[i := Buf(dev, blockno, false, 1, bufs[i].data)];
      forall b: nat
        ensures Refs(b) == old(Refs(b)) + (if b == blockno then 1 else 0)
        ensures LooseIn(bufs, place, disk, b) ==> LooseIn(old(bufs), old(place), disk, b)
      {
        if b in old(place) && old(place)[b] != i {
          assert place[b] == old(place)[b];
        }
      }
    }

    /** The rest of bread, once the lock is free: take it, and fill the buffer if it is not. */
    method LockBuf(i: int)
      requires Valid() && 0 <= i < NBUF && i !in held && bufs[i].refcnt >= 1
      modifies this`bufs, this`held
      ensures Valid() && held == old(held) + {i} && bufs[i].blockno < |view|
      ensures bufs == old(bufs)[i := old(bufs[i]).(valid := true, data := view[bufs[i].blockno])]
      ensures forall b: nat :: Refs(b) == old(Refs(b))
      ensures old(Tight()) ==> Tight()
      ensures HeldBlocks() == old(HeldBlocks()) + {bufs[i].blockno} && Unused() == old(Unused())
    {
      assert PlacedAt(bufs[i], place, i, |disk|);
      var b := bufs[i].blockno;
      assert Shows(bufs, place, disk, view, b);
      var buf := if bufs[i].valid then bufs[i] else bufs[i].(data := disk[b], valid := true);
      UpdateCoherent(bufs, place, disk, view, i, buf, disk, view);
      NoneLoosened(bufs, place, disk, i, buf, disk);
      HeldSame(bufs, held, i, buf);
      bufs := bufs[i := buf];
      HeldMore(bufs, held, i);
      held := held + {i};
    }

    /** bread with the lock free: a locked buffer with the current content of the block. */
    method Bread(dev: int, blockno: nat) returns (i: int)
      requires Valid() && dev == ROOTDEV && blockno < |disk|
      requires blockno !in HeldBlocks()
      modifies this`bufs, this`held, this`place, this`view
      ensures Valid() && -1 <= i < NBUF
      ensures i == -1 <==> old(blockno !in place && Oldest(order, bufs) == -1)
      ensures i == -1 <==> old(blockno !in place && Unused() == {})
      ensures i == -1 ==> unchanged(this)
      ensures i >= 0 ==> i !in old(held) && held == old(held) + {i} && blockno in place && place[blockno] == i
      ensures i >= 0 ==> bufs[i] == Buf(ROOTDEV, blockno, true, old(Refs(blockno)) + 1, view[blockno])
      ensures forall j :: 0 <= j < NBUF && j != i ==> bufs[j] == old(bufs[j])
      ensures i >= 0 ==> forall b: nat :: Refs(b) == old(Refs(b)) + (if b == blockno then 1 else 0)
      ensures old(Tight()) ==> Tight() && view == old(view)
      ensures i >= 0 ==> HeldBlocks() == old(HeldBlocks()) + {blockno}
      ensures i >= 0 ==> Unused() == old(Unused()) - {i} && (i in old(Unused()) <==> old(Refs(blockno)) == 0)
      ensures old(blockno in place) || i == -1 ==> place == old(place) && view == old(view)
      ensures Slips(old(view), view, disk)
      ensures forall b: nat :: b < |view| && old(Refs(b)) > 0 ==> view[b] == old(view)[b]
    {
      NotHeld(bufs, place, |disk|, held, blockno);
      i := Bget(dev, blockno);
      if i != -1 {
        LockBuf(i);
      }
    }

    /** The holder of a buffer overwrites its data. */
    method Put(i: int, data: Block)
      requires Valid() && i in held
      modifies this`bufs, this`view
      ensures Valid() && bufs == old(bufs)[i := old(bufs[i]).(data := data)]
      ensures bufs[i].blockno < |view| && view == old(view)[bufs[i].blockno := data]
      ensures forall b: nat :: Refs(b) == old(Refs(b))
      ensures old(Tight()) ==> Tight()
      ensures HeldBlocks() == old(HeldBlocks()) && Unused() == old(Unused())
    {
      assert PlacedAt(bufs[i], place, i, |disk|);
      var buf := bufs[i].(data := data);
      HeldSame(bufs, held, i, buf);
      UpdateCoherent(bufs, place, disk, view, i, buf, disk, view[bufs[i].blockno := data]);
      NoneLoosened(bufs, place, disk, i, buf, disk);
      view := view[bufs[i].blockno := data];
      bufs := bufs[i := buf];
    }

    /** bwrite: the buffer's data reaches the disk. */
    method Bwrite(i: int)
      requires Valid() && i in held
      modifies this`disk, this`writes
      ensures Valid() && bufs[i].blockno < |old(disk)| && disk == old(disk)[bufs[i].blockno := bufs[i].data]
      ensures writes == old(writes) + [Write(bufs[i].blockno, bufs[i].data)]
      ensures bufs[i].data == view[bufs[i].blockno]
      ensures old(Tight()) ==> Tight()
    {
      assert PlacedAt(bufs[i], place, i, |disk|);
      var b := bufs[i].blockno;
      assert Shows(bufs, place, disk, view, b);
      UpdateCoherent(bufs, place, disk, view, i, bufs[i], disk[b := bufs[i].data], view);
      NoneLoosened(bufs, place, disk, i, bufs[i], disk[b := bufs[i].data]);
      assert bufs[i := bufs[i]] == bufs;
      disk := disk[b := bufs[i].data];
      writes := writes + [Write(b, bufs[i].data)];
    }

    /**
     brelse: unlock and drop the reference; a buffer no longer referenced moves
     to the front. Its block is loose exactly if this was the last reference to a
     change that has not been written.
     */
    method Brelse(i: int)
      requires Valid() && i in held
      modifies this`bufs, this`held, this`next, this`prev, this`order
      ensures Valid() && held == old(held) - {i}
      ensures bufs == old(bufs)[i := old(bufs[i]).(refcnt := old(bufs[i]).refcnt - 1)]
      ensures i in old(order)
      ensures order == if bufs[i].refcnt == 0 then [i] + Without(old(order), i) else old(order)
      ensures bufs[i].blockno < |disk| && HeldBlocks() == old(HeldBlocks()) - {bufs[i].blockno}
      ensures forall b: nat ::
                Loose(b) <==> old(Loose(b)) || (b == bufs[i].blockno && bufs[i].refcnt == 0 && bufs[i].data != disk[b])
      ensures old(Tight()) ==> (Tight() <==> !(bufs[i].refcnt == 0 && bufs[i].data != disk[bufs[i].blockno]))
      ensures forall b: nat :: Refs(b) == old(Refs(b)) - (if b == bufs[i].blockno then 1 else 0)
      ensures Unused() == old(Unused()) + (if bufs[i].refcnt == 0 then {i} else {})
    {
      assert PlacedAt(bufs[i], place, i, |disk|);
      assert Shows(bufs, place, disk, view, bufs[i].blockno);
      HeldLess(bufs, place, |disk|, held, i);
      held := held - {i};
      var buf := bufs[i].(refcnt := bufs[i].refcnt - 1);
      HeldSame(bufs, held, i, buf);
      UpdateCoherent(bufs, place, disk, view, i, buf, disk, view);
      bufs := bufs[i := buf];
      if bufs[i].refcnt == 0 {
        MoveToFront(i);
      }
      forall b: nat
        ensures Refs(b) == old(Refs(b)) - (if b == bufs[i].blockno then 1 else 0)
        ensures Loose(b) <==> old(Loose(b)) || (b == bufs[i].blockno && bufs[i].refcnt == 0 && bufs[i].data != disk[b])
      {
      }
    }

    method MoveToFront(i: int)
      requires Ring(prev, next, order) && Complete(order) && 0 <= i < NBUF
      modifies this`next, this`prev, this`order
      ensures Ring(prev, next, order) && Complete(order)
      ensures i in old(order) && order == [i] + Without(old(order), i)
    {
      UnlinkRing(prev, next, order, i);
      ghost var rest := Without(order, i);
      WithoutMembers(order, i);
      var p, n := prev[i], next[i];
      prev := prev[n := p];
      next := next[p := n];
      PushFrontRing(prev, next, rest, i);
      var first := next[HEAD];
      next := next[i := first];
      prev := prev[i := HEAD];
      prev := prev[first := i];
      next := next[HEAD := i];
      order := [i] + rest;
    }

    method Bpin(i: int)
      requires Valid() && i in held
      modifies this`bufs
      ensures Valid() && bufs == old(bufs)[i := old(bufs[i]).(refcnt := old(bufs[i]).refcnt + 1)]
      ensures forall b: nat :: Refs(b) == old(Refs(b)) + (if b == bufs[i].blockno then 1 else 0)
      ensures old(Tight()) ==> Tight()
      ensures HeldBlocks() == old(HeldBlocks()) && Unused() == old(Unused())
    {
      assert PlacedAt(bufs[i], place, i, |disk|);
      assert Shows(bufs, place, disk, view, bufs[i].blockno);
      var buf := bufs[i].(refcnt := bufs[i].refcnt + 1);
      HeldSame(bufs, held, i, buf);
      UpdateCoherent(bufs, place, disk, view, i, buf, disk, view);
      NoneLoosened(bufs, place, disk, i, buf, disk);
      bufs := bufs[i := buf];
    }

    method Bunpin(i: int)
      requires Valid() && i in held && bufs[i].refcnt >= 2
      modifies this`bufs
      ensures Valid() && bufs == old(bufs)[i := old(bufs[i]).(refcnt := old(bufs[i]).refcnt - 1)]
      ensures forall b: nat :: Refs(b) == old(Refs(b)) - (if b == bufs[i].blockno then 1 else 0)
      ensures old(Tight()) ==> Tight()
      ensures HeldBlocks() == old(HeldBlocks()) && Unused() == old(Unused())
    {
      assert PlacedAt(bufs[i], place, i, |disk|);
      assert Shows(bufs, place, disk, view, bufs[i].blockno);
      var buf := bufs[i].(refcnt := bufs[i].refcnt - 1);
      HeldSame(bufs, held, i, buf);
      UpdateCoherent(bufs, place, disk, view, i, buf, disk, view);
      NoneLoosened(bufs, place, disk, i, buf, disk);
      bufs := bufs[i := buf];
    }
  }

  /**
   A change lost: buffer i holds a block that nobody else references, every other
   buffer is referenced, and its holder changes it, releases it without listing it,
   and asks for another block.
   */
  method LoseChange(cache: Bcache, i: int, data: Block, other: nat) returns (j: int, ghost shown: seq<Block>)
    requires cache.Sound() && i in cache.held && cache.bufs[i].refcnt == 1
    requires forall k :: 0 <= k < NBUF ==> cache.bufs[k].refcnt > 0
    requires cache.bufs[i].blockno < |cache.disk| ==> data != cache.disk[cache.bufs[i].blockno]
    requires other < |cache.disk| && other !in cache.place
    modifies cache
    ensures cache.Valid() && j == i && old(cache.bufs[i].blockno) < |cache.view| == |cache.disk| == |shown|
    ensures cache.disk == old(cache.disk) && shown[old(cache.bufs[i].blockno)] == data
    ensures cache.view[old(cache.bufs[i].blockno)] == cache.disk[old(cache.bufs[i].blockno)] != data
  {
    hide Ring, Complete, HeldIn, Coherent, NoneLoose;
    cache.HeldBlock(i);
    cache.Put(i, data);
    shown := cache.view;
    cache.Brelse(i);
    j := cache.Bget(ROOTDEV, other);
  }

  /** Such a loss from the start: NBUF blocks of zeros read and held, and the first of them changed. */
  method LoseFirst(data: Block) returns (cache: Bcache, ghost shown: seq<Block>)
    requires data != ZERO
    ensures fresh(cache) && cache.Valid() && |cache.view| == |shown| > 0
    ensures shown[0] == data && cache.view[0] == ZERO
  {
    var disk: seq<Block> := seq(NBUF + 1, _ => ZERO);
    cache := new Bcache(disk);
    var first := FillCache(cache, disk);
    var j;
    j, shown := LoseChange(cache, first, data, NBUF);
  }

  /** Reads a block into every buffer. */
  method FillCache(cache: Bcache, ghost disk: seq<Block>) returns (first: int)
    requires cache.Sound() && cache.disk == disk && |disk| > NBUF && cache.held == {}
    requires forall b: nat :: cache.Refs(b) == 0
    modifies cache
    ensures cache.Sound() && cache.disk == disk && NBUF !in cache.place
    ensures forall k :: 0 <= k < NBUF ==> cache.bufs[k].refcnt > 0
    ensures first in cache.held && cache.bufs[first].blockno == 0 && cache.bufs[first].refcnt == 1
  {
    hide Ring, Complete, Coherent, NoneLoose, HeldIn;
    cache.AllUnused();
    first := -1;
    assert cache.HeldBlocks() == {} by { NothingHeld(cache.bufs); }
    for b := 0 to NBUF
      invariant cache.Sound() && cache.disk == disk && |cache.Unused()| == NBUF - b
      invariant forall c: nat :: cache.Refs(c) == if c < b then 1 else 0
      invariant forall c :: c in cache.HeldBlocks() ==> c < b
      invariant b > 0 ==> first in cache.held && cache.bufs[first].blockno == 0 && cache.bufs[first].refcnt == 1
    {
      var i := cache.Bread(ROOTDEV, b);
      if b == 0 {
        first := i;
      }
    }
    forall k | 0 <= k < NBUF ensures cache.bufs[k].refcnt > 0 {
      assert k !in cache.Unused();
    }
    assert cache.Refs(NBUF) == 0;
    cache.PlaceOf(NBUF);
  }

  lemma NothingHeld(bufs: seq<Buf>)
    ensures HeldIn(bufs, {}) == {}
  {
  }

  lemma {:induction false} UnusedCount(bufs: seq<Buf>)
    requires forall i :: 0 <= i < |bufs| ==> bufs[i].refcnt == 0
    ensures |UnusedIn(bufs)| == |bufs|
  {
    if bufs != [] {
      var n := |bufs| - 1;
      UnusedCount(bufs[..n]);
      assert UnusedIn(bufs) == UnusedIn(bufs[..n]) + {n};
    }
  }

  lemma WithoutMembers(order: seq<int>, i: int)
    requires Distinct(order) && Complete(order) && 0 <= i < NBUF
    ensures i !in Without(order, i) && Complete([i] + Without(order, i))
  {
    var k := Position(order, i);
    var rest := Without(order, i);
    forall j | 0 <= j < NBUF
      ensures j in [i] + rest
    {
      if j != i {
        var m := Position(order, j);
        assert rest[if m < k then m else m - 1] == j;
      }
    }
  }
}
