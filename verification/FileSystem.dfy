/**
 The file layer of the kernel (kernel/fs.c): the block allocator, the map from file
 blocks to disk blocks, truncation, reading and writing, on the blocks as the buffer
 cache shows them inside one transaction.
 */
module FileSystem {
  import opened Blocks
  import opened FsLayout

  // ---------------------------------------------------------------- one allocation, as values

  /** The blocks after balloc has taken block b: marked in the bitmap, and zeroed. */
  function Taken(g: Super, blocks: seq<Block>, b: nat): (r: seq<Block>)
    requires Sane(g) && |blocks| == g.size && b < g.size
    ensures |r| == g.size && r[b] == ZERO
    ensures forall c :: 0 <= c < g.size && c != b && c != BBlock(g, b) ==> r[c] == blocks[c]
  {
    Mark(g, blocks, b, true)[b := ZERO]
  }

  /** A block that the bitmap shows free is a file block that no place owns. */
  lemma FreeIsUnowned(g: Super, d: Disk, own: Owners, b: nat)
    requires Addresses(g, d, own) && Bits(g, d.blocks, own) && b < g.size && !Used(g, d.blocks, b)
    ensures 0 < g.meta <= b && b !in own
  {
    hide Used;
    assert BitRight(g, d.blocks, own, b);
  }

  lemma TakenKeeps(g: Super, d: Disk, own: Owners, b: nat)
    requires Addresses(g, d, own) && Bits(g, d.blocks, own) && b < g.size && !Used(g, d.blocks, b)
    ensures var d' := Disk(Taken(g, d.blocks, b), d.inodes);
            Addresses(g, d', own) && SameFiles(g, d, d')
            && forall i, k :: 0 <= i < g.ninodes && 0 <= k < SLOTS ==> Addr(g, d', i, k) == Addr(g, d, i, k)
  {
    FreeIsUnowned(g, d, own, b);
    hide Addr, InodeOk, Taken, FileBlock, Bits, Used, SameFiles;
    var d' := Disk(Taken(g, d.blocks, b), d.inodes);
    forall c | c in own && c < g.size ensures d'.blocks[c] == d.blocks[c] {
      assert OwnedRight(g, d, own, c);
      assert BBlock(g, b) < g.meta;
    }
    FreeBlocksChange(g, d, d', own);
  }

  lemma TakenBits(g: Super, d: Disk, own: Owners, b: nat, p: Place)
    requires Addresses(g, d, own) && Bits(g, d.blocks, own) && b < g.size && !Used(g, d.blocks, b)
    ensures Bits(g, Taken(g, d.blocks, b), own[b := p])
  {
    FreeIsUnowned(g, d, own, b);
    hide Addr, InodeOk, Mark;
    var m := Mark(g, d.blocks, b, true);
    Marked(g, d.blocks, b, true);
    BitsMarked(g, d.blocks, m, own, own[b := p], b, true);
    BitsKept(g, m, Taken(g, d.blocks, b), own[b := p]);
  }

  /** The disk after a free block has been taken and its address stored at a place. */
  function Grown(g: Super, d: Disk, i: nat, k: nat, b: nat): (r: Disk)
    requires Shape(g, d) && i < g.ninodes && k < SLOTS && b < g.size
    requires k > NDIRECT ==> Addr(g, Disk(Taken(g, d.blocks, b), d.inodes), i, NDIRECT) != 0
    ensures Shape(g, r)
  {
    Store(g, Disk(Taken(g, d.blocks, b), d.inodes), i, k, b)
  }

  /** Giving a place a new block keeps every invariant and changes no file. */
  lemma GrownKeeps(g: Super, d: Disk, own: Owners, i: nat, k: nat, b: nat)
    requires Addresses(g, d, own) && Bits(g, d.blocks, own) && i < g.ninodes && k < SLOTS
    requires Addr(g, d, i, k) == 0 && (k > NDIRECT ==> Addr(g, d, i, NDIRECT) != 0)
    requires b < g.size && !Used(g, d.blocks, b)
    ensures Shape(g, Disk(Taken(g, d.blocks, b), d.inodes))
    ensures k > NDIRECT ==> Addr(g, Disk(Taken(g, d.blocks, b), d.inodes), i, NDIRECT) != 0
    ensures var d' := Grown(g, d, i, k, b);
            Addresses(g, d', own[b := Place(i, k)]) && Bits(g, d'.blocks, own[b := Place(i, k)]) && SameFiles(g, d, d')
  {
    FreeIsUnowned(g, d, own, b);
    TakenKeeps(g, d, own, b);
    TakenBits(g, d, own, b, Place(i, k));
    hide InodeOk, Taken, FileBlock, Used, Addr, Store, Addresses, Bits, SameFiles;
    var d1 := Disk(Taken(g, d.blocks, b), d.inodes);
    Claimed(g, d1, own, i, k, b);
    StoreBits(g, d1, own, own[b := Place(i, k)], i, k, b);
    SameTwice(g, d, d1, Store(g, d1, i, k, b));
  }

  lemma StoreBits(g: Super, d: Disk, own: Owners, own': Owners, i: nat, k: nat, b: nat)
    requires Addresses(g, d, own) && Bits(g, d.blocks, own') && i < g.ninodes && k < SLOTS && b < g.size
    requires k > NDIRECT ==> Addr(g, d, i, NDIRECT) != 0
    ensures Bits(g, Store(g, d, i, k, b).blocks, own')
  {
    assert PointsRight(g, d, own, i, NDIRECT);
    hide PutWord, WordAt, Used;
    BitsKept(g, d.blocks, Store(g, d, i, k, b).blocks, own');
  }

  /** ... and moves no address. */
  lemma GrownAddrs(g: Super, d: Disk, own: Owners, i: nat, k: nat, b: nat)
    requires Addresses(g, d, own) && Bits(g, d.blocks, own) && i < g.ninodes && k < SLOTS
    requires Addr(g, d, i, k) == 0 && (k > NDIRECT ==> Addr(g, d, i, NDIRECT) != 0)
    requires b < g.size && !Used(g, d.blocks, b)
    ensures Shape(g, Disk(Taken(g, d.blocks, b), d.inodes))
    ensures k > NDIRECT ==> Addr(g, Disk(Taken(g, d.blocks, b), d.inodes), i, NDIRECT) != 0
    ensures forall j, m :: 0 <= j < g.ninodes && 0 <= m < SLOTS ==>
              Addr(g, Grown(g, d, i, k, b), j, m) == if (j, m) == (i, k) then b else Addr(g, d, j, m)
  {
    FreeIsUnowned(g, d, own, b);
    TakenKeeps(g, d, own, b);
    hide InodeOk, Taken, Used, Store, Addr;
    StoredAddrs(g, Disk(Taken(g, d.blocks, b), d.inodes), own, i, k, b);
  }

  // ---------------------------------------------------------------- giving blocks back, as values

  /** All files but i are as they were. */
  ghost predicate OthersSame(g: Super, d: Disk, d': Disk, i: nat)
    requires Shape(g, d) && Shape(g, d')
  {
    forall j :: 0 <= j < g.ninodes && j != i ==> d'.inodes[j] == d.inodes[j] && SameFile(g, d, d', j)
  }

  lemma OthersTwice(g: Super, d: Disk, d1: Disk, d2: Disk, i: nat)
    requires Shape(g, d) && Shape(g, d1) && Shape(g, d2) && OthersSame(g, d, d1, i) && OthersSame(g, d1, d2, i)
    ensures OthersSame(g, d, d2, i)
  {
    hide FileBlock, Shape;
    forall j | 0 <= j < g.ninodes && j != i ensures SameFile(g, d, d2, j) {
      assert SameFile(g, d, d1, j) && SameFile(g, d1, d2, j);
    }
  }

  /** A block that a place owns is in use, so that freeing it never panics. */
  lemma OwnedIsUsed(g: Super, d: Disk, own: Owners, all: Owners, i: nat, k: nat)
    requires Addresses(g, d, all) && Bits(g, d.blocks, own) && i < g.ninodes && k < SLOTS
    requires Addr(g, d, i, k) != 0 && Addr(g, d, i, k) in own
    ensures var b := Addr(g, d, i, k); g.meta <= b < g.size && b in all && all[b] == Place(i, k) && Used(g, d.blocks, b)
  {
    hide Used, Addr;
    assert PointsRight(g, d, all, i, k);
    assert BitRight(g, d.blocks, own, Addr(g, d, i, k));
  }

  /** Clearing the bit of a file block changes the bitmap only. */
  lemma UnmarkKeeps(g: Super, d: Disk, own: Owners, b: nat)
    requires Addresses(g, d, own) && g.meta <= b < g.size
    ensures var d' := Disk(Mark(g, d.blocks, b, false), d.inodes); Addresses(g, d', own) && SameFiles(g, d, d')
  {
    hide Addr, InodeOk, Mark, FileBlock;
    var d' := Disk(Mark(g, d.blocks, b, false), d.inodes);
    forall c | c in own && c < g.size ensures d'.blocks[c] == d.blocks[c] {
      assert OwnedRight(g, d, own, c);
      assert BBlock(g, b) < g.meta;
    }
    FreeBlocksChange(g, d, d', own);
  }

  lemma UnmarkBits(g: Super, blocks: seq<Block>, own: Owners, own': Owners, b: nat)
    requires Bits(g, blocks, own) && g.meta <= b < g.size
    requires b !in own' && forall c :: c != b ==> (c in own' <==> c in own)
    ensures Bits(g, Mark(g, blocks, b, false), own')
  {
    hide Mark;
    Marked(g, blocks, b, false);
    BitsMarked(g, blocks, Mark(g, blocks, b, false), own, own', b, false);
  }

  /** The blocks that leave when one more place is dealt with: the one there, if any. */
  lemma OneLess(g: Super, d: Disk, all: Owners, i: nat, lo: nat, k: nat)
    requires Addresses(g, d, all) && i < g.ninodes && lo <= k < SLOTS
    ensures forall c: nat :: c in Without(all, i, lo, k + 1) <==> c in Without(all, i, lo, k) && c != Addr(g, d, i, k)
    ensures Addr(g, d, i, k) == 0 ==> Without(all, i, lo, k + 1) == Without(all, i, lo, k)
    ensures Addr(g, d, i, k) != 0 ==> Addr(g, d, i, k) in Without(all, i, lo, k)
  {
    hide Addr;
    assert PointsRight(g, d, all, i, k);
    var w, w' := Without(all, i, lo, k), Without(all, i, lo, k + 1);
    forall c: nat ensures c in w' <==> c in w && c != Addr(g, d, i, k) {
      assert OwnedRight(g, d, all, c);
    }
    assert OwnedRight(g, d, all, 0);
    assert Addr(g, d, i, k) == 0 ==> w'.Keys == w.Keys;
  }

  /** Freeing a direct block and clearing its address. */
  lemma FreedDirect(g: Super, d: Disk, own: Owners, i: nat, k: nat)
    requires Addresses(g, d, own) && Bits(g, d.blocks, own) && i < g.ninodes && k < NDIRECT && Addr(g, d, i, k) != 0
    ensures var b := Addr(g, d, i, k);
            && g.meta <= b < g.size && Used(g, d.blocks, b)
            && var d1 := Disk(Mark(g, d.blocks, b, false), d.inodes);
            && Shape(g, d1)
            && var d' := Store(g, d1, i, k, 0);
            && Addresses(g, d', Without(own, i, k, k + 1)) && Bits(g, d'.blocks, Without(own, i, k, k + 1))
            && OthersSame(g, d, d', i)
  {
    hide Addresses, Bits, Used, Mark, InodeOk, SameFiles;
    var b := Addr(g, d, i, k);
    OneLess(g, d, own, i, k, k);
    assert Without(own, i, k, k) == own;
    OwnedIsUsed(g, d, own, own, i, k);
    UnmarkKeeps(g, d, own, b);
    UnmarkBits(g, d.blocks, own, Without(own, i, k, k + 1), b);
    var d1 := Disk(Mark(g, d.blocks, b, false), d.inodes);
    DropDirect(g, d1, own, i, k);
    DroppedOthers(g, d, d1, Store(g, d1, i, k, 0), i);
  }

  lemma DroppedOthers(g: Super, d: Disk, d1: Disk, d2: Disk, i: nat)
    requires Shape(g, d) && Shape(g, d1) && Shape(g, d2) && SameFiles(g, d, d1) && d1.inodes == d.inodes
    requires forall j :: 0 <= j < g.ninodes && j != i ==> SameFile(g, d1, d2, j) && d2.inodes[j] == d1.inodes[j]
    ensures OthersSame(g, d, d2, i)
  {
    hide FileBlock, Shape;
    forall j | 0 <= j < g.ninodes && j != i ensures SameFile(g, d, d2, j) {
      assert SameFile(g, d, d1, j) && SameFile(g, d1, d2, j);
    }
  }

  /** Freeing one block that the indirect block lists; its address stays there meanwhile. */
  lemma FreedListed(g: Super, d: Disk, all: Owners, i: nat, k: nat)
    requires Addresses(g, d, all) && i < g.ninodes && NDIRECT < k < SLOTS
    requires Bits(g, d.blocks, Without(all, i, NDIRECT + 1, k)) && Addr(g, d, i, k) != 0
    ensures var b := Addr(g, d, i, k);
            && g.meta <= b < g.size && Used(g, d.blocks, b)
            && var d' := Disk(Mark(g, d.blocks, b, false), d.inodes);
            && Addresses(g, d', all) && SameFiles(g, d, d') && Bits(g, d'.blocks, Without(all, i, NDIRECT + 1, k + 1))
  {
    hide Addresses, Bits, Used, Mark, InodeOk, SameFiles, Without, Addr;
    var b := Addr(g, d, i, k);
    OneLess(g, d, all, i, NDIRECT + 1, k);
    OwnedIsUsed(g, d, Without(all, i, NDIRECT + 1, k), all, i, k);
    UnmarkKeeps(g, d, all, b);
    UnmarkBits(g, d.blocks, Without(all, i, NDIRECT + 1, k), Without(all, i, NDIRECT + 1, k + 1), b);
  }

  /** Freeing the indirect block itself, once what it lists is free. */
  lemma FreedIndirect(g: Super, d: Disk, all: Owners, i: nat)
    requires Addresses(g, d, all) && i < g.ninodes && Addr(g, d, i, NDIRECT) != 0
    requires Bits(g, d.blocks, Without(all, i, NDIRECT + 1, SLOTS))
    ensures var b := Addr(g, d, i, NDIRECT);
            && g.meta <= b < g.size && Used(g, d.blocks, b)
            && var d1 := Disk(Mark(g, d.blocks, b, false), d.inodes);
            && Shape(g, d1)
            && var d' := Store(g, d1, i, NDIRECT, 0);
            && Addresses(g, d', Without(all, i, NDIRECT, SLOTS)) && Bits(g, d'.blocks, Without(all, i, NDIRECT, SLOTS))
            && OthersSame(g, d, d', i)
  {
    hide Addresses, Bits, Used, Mark, InodeOk, SameFiles;
    var b := Addr(g, d, i, NDIRECT);
    OneLess(g, d, all, i, NDIRECT, NDIRECT);
    var own, own' := Without(all, i, NDIRECT + 1, SLOTS), Without(all, i, NDIRECT, SLOTS);
    assert forall c: nat :: c in own' <==> c in own && c in Without(all, i, NDIRECT, NDIRECT + 1);
    assert forall c: nat :: c in own ==> c in Without(all, i, NDIRECT, NDIRECT);
    OwnedPlace(g, d, all, i, NDIRECT);
    OwnedIsUsed(g, d, own, all, i, NDIRECT);
    UnmarkKeeps(g, d, all, b);
    UnmarkBits(g, d.blocks, own, own', b);
    var d1 := Disk(Mark(g, d.blocks, b, false), d.inodes);
    DropIndirect(g, d1, all, i);
    DroppedOthers(g, d, d1, Store(g, d1, i, NDIRECT, 0), i);
  }

  lemma OwnedPlace(g: Super, d: Disk, own: Owners, i: nat, k: nat)
    requires Addresses(g, d, own) && i < g.ninodes && k < SLOTS && Addr(g, d, i, k) != 0
    ensures Addr(g, d, i, k) in own && own[Addr(g, d, i, k)] == Place(i, k)
  {
    assert PointsRight(g, d, own, i, k);
  }

  /** Without an indirect block there is nothing past the direct addresses. */
  lemma NothingListed(g: Super, d: Disk, own: Owners, i: nat)
    requires Addresses(g, d, own) && i < g.ninodes && Addr(g, d, i, NDIRECT) == 0
    ensures Without(own, i, NDIRECT, SLOTS) == own
  {
    forall c: nat | c in own ensures c in Without(own, i, NDIRECT, SLOTS) {
      assert OwnedRight(g, d, own, c);
    }
  }

  // ---------------------------------------------------------------- the file system

  /** A lowest free block: the one balloc takes. */
  predicate FirstFree(g: Super, blocks: seq<Block>, b: nat)
    requires Sane(g) && |blocks| == g.size && b < g.size
  {
    !Used(g, blocks, b) && forall c :: 0 <= c < b ==> Used(g, blocks, c)
  }

  predicate Full(g: Super, blocks: seq<Block>) {
    Sane(g) && |blocks| == g.size && forall c :: 0 <= c < g.size ==> Used(g, blocks, c)
  }

  /** The blocks it takes to map block n of a file: the block, and the indirect block if that is missing too. */
  function MapCost(g: Super, d: Disk, i: nat, n: nat): nat
    requires Shape(g, d) && i < g.ninodes && n < MAXFILE
  {
    if Addr(g, d, i, Slot(n)) != 0 then 0 else if n >= NDIRECT && Addr(g, d, i, NDIRECT) == 0 then 2 else 1
  }

  /** Mapping block n puts an address into the inode itself, and not only into its indirect block. */
  predicate MapsInInode(g: Super, d: Disk, i: nat, n: nat)
    requires Shape(g, d) && i < g.ninodes && n < MAXFILE
  {
    Addr(g, d, i, Slot(n)) == 0 && (n < NDIRECT || Addr(g, d, i, NDIRECT) == 0)
  }

  /** The disk is full exactly when every file block is owned. */
  lemma FullCount(g: Super, d: Disk, own: Owners)
    requires Addresses(g, d, own) && Bits(g, d.blocks, own)
    ensures |own| <= g.size - g.meta && (Full(g, d.blocks) <==> |own| == g.size - g.meta)
  {
    hide Addr, Used, InodeOk;
    var s := own.Keys;
    assert |own| == |s|;
    forall b | b in s ensures g.meta <= b < g.size {
      assert OwnedRight(g, d, own, b);
    }
    Between(g.meta, g.size, s);
    if Full(g, d.blocks) {
      forall b: nat | g.meta <= b < g.size ensures b in s {
        assert BitRight(g, d.blocks, own, b);
      }
    }
    if |own| == g.size - g.meta {
      forall b | 0 <= b < g.size ensures Used(g, d.blocks, b) {
        assert BitRight(g, d.blocks, own, b);
      }
    }
  }

  lemma {:induction false} Between(lo: nat, hi: nat, s: set<nat>)
    requires lo <= hi && forall b :: b in s ==> lo <= b < hi
    ensures |s| <= hi - lo && (|s| == hi - lo <==> forall b: nat :: lo <= b < hi ==> b in s)
    decreases hi
  {
    if lo < hi {
      var t := s - {hi - 1};
      Between(lo, hi - 1, t);
      if hi - 1 in s {
        assert s == t + {hi - 1};
      } else {
        assert s == t;
      }
    } else {
      assert s == {};
    }
  }

  /** Every address that was there still is. */
  predicate Keeps(g: Super, d: Disk, d': Disk)
    requires Shape(g, d) && Shape(g, d')
  {
    forall j, m :: 0 <= j < g.ninodes && 0 <= m < SLOTS && Addr(g, d, j, m) != 0 ==>
        Addr(g, d', j, m) == Addr(g, d, j, m)
  }

  lemma KeepsBut(g: Super, d: Disk, d': Disk, i: nat, k: nat)
    requires Shape(g, d) && Shape(g, d') && i < g.ninodes && k < SLOTS && Addr(g, d, i, k) == 0
    requires forall j, m :: 0 <= j < g.ninodes && 0 <= m < SLOTS && (j, m) != (i, k) ==>
               Addr(g, d', j, m) == Addr(g, d, j, m)
    ensures Keeps(g, d, d')
  {
    hide Addr, Shape;
  }

  /** Of the addresses of inode i, only block n's and the indirect block's may differ. */
  predicate MovesOnly(g: Super, d: Disk, d': Disk, i: nat, n: nat)
    requires Shape(g, d) && Shape(g, d') && i < g.ninodes
  {
    forall m :: 0 <= m < SLOTS && m != Slot(n) && m != NDIRECT ==> Addr(g, d', i, m) == Addr(g, d, i, m)
  }

  /** The inodes differ at most in the addresses of inode i. */
  predicate SameSizes(a: seq<Inode>, b: seq<Inode>, i: nat) {
    && i < |a| == |b| && b[i].size == a[i].size
    && forall j :: 0 <= j < |a| && j != i ==> b[j] == a[j]
  }

  /** Every block that changed has been logged. */
  predicate AllLogged(was: seq<Block>, now: seq<Block>, logged: set<nat>) {
    |was| == |now| && forall c :: 0 <= c < |was| && now[c] != was[c] ==> c in logged
  }

  class Fs {
    const g: Super
    var blocks: seq<Block>
    /** Inodes in memory, and their copies on disk. */
    var inodes: seq<Inode>
    var dinodes: seq<Inode>
    /** The blocks this transaction has passed to log_write. */
    var logged: set<nat>
    /** Which place each file block belongs to. */
    ghost var owner: Owners

    ghost predicate Valid()
      reads this
    {
      Addresses(g, Disk(blocks, inodes), owner) && Bits(g, blocks, owner)
    }

    /** A file system on a disk that is in order. */
    constructor (g: Super, blocks: seq<Block>, inodes: seq<Inode>, ghost owner: Owners)
      requires Addresses(g, Disk(blocks, inodes), owner) && Bits(g, blocks, owner)
      ensures Valid() && this.g == g && this.blocks == blocks && this.inodes == inodes && this.owner == owner
      ensures dinodes == inodes && logged == {}
    {
      this.g, this.blocks, this.inodes, this.dinodes := g, blocks, inodes, inodes;
      this.logged, this.owner := {}, owner;
    }

    /** The blocks that can still be given to files, by one who has this many operations outstanding. */
    ghost function Spare(outstanding: nat): int
      reads this
    {
      if outstanding < 1 then 0 else g.size - g.meta - |owner|
    }

    /**
     A zeroed block, the first that is free. It fails if the disk is full, which is one
     panic, and if no operation is outstanding, which is the panic of log_write.
     */
    method Balloc(outstanding: nat) returns (ok: bool, b: nat)
      requires Sane(g) && |blocks| == g.size
      modifies this`blocks, this`logged
      ensures ok ==> b < g.size && FirstFree(g, old(blocks), b)
      ensures ok ==> blocks == Taken(g, old(blocks), b) && logged == old(logged) + {BBlock(g, b), b}
      ensures !ok ==> (outstanding < 1 || Full(g, blocks)) && blocks == old(blocks) && logged == old(logged)
      ensures ok <==> outstanding >= 1 && !old(Full(g, blocks))
    {
      hide BitAt;
      b := 0;
      var base := 0;
      while base < g.size
        invariant base % BPB == 0 && blocks == old(blocks) && logged == old(logged)
        invariant forall c :: 0 <= c < base && c < g.size ==> Used(g, blocks, c)
      {
        var bp := blocks[BBlock(g, base)];
        var bi := 0;
        while bi < BPB && base + bi < g.size
          invariant bi <= BPB && blocks == old(blocks) && logged == old(logged)
          invariant forall c :: 0 <= c < base + bi && c < g.size ==> Used(g, blocks, c)
        {
          assert BBlock(g, base + bi) == BBlock(g, base) && (base + bi) % BPB == bi by { InBlock(base, bi); }
          if !BitAt(bp, bi) {
            if outstanding < 1 {
              return false, 0;
            }
            b := base + bi;
            blocks := blocks[BBlock(g, b) := PutBit(bp, bi, true)];
            logged := logged + {BBlock(g, b)};
            Bzero(b);
            return true, b;
          }
          bi := bi + 1;
        }
        base := base + BPB;
      }
      ok := false;
    }

    method Bzero(b: nat)
      requires b < |blocks|
      modifies this`blocks, this`logged
      ensures blocks == old(blocks)[b := ZERO] && logged == old(logged) + {b}
    {
      blocks := blocks[b := ZERO];
      logged := logged + {b};
    }

    /** Clears a block's bit; a clear bit is the panic on freeing a free block. */
    method Bfree(b: nat) returns (ok: bool)
      requires Sane(g) && |blocks| == g.size && b < g.size
      modifies this`blocks, this`logged
      ensures ok == Used(g, old(blocks), b)
      ensures ok ==> blocks == Mark(g, old(blocks), b, false) && logged == old(logged) + {BBlock(g, b)}
      ensures !ok ==> blocks == old(blocks) && logged == old(logged)
    {
      var bp := blocks[BBlock(g, b)];
      if !BitAt(bp, b % BPB) {
        return false;
      }
      blocks := blocks[BBlock(g, b) := PutBit(bp, b % BPB, false)];
      logged := logged + {BBlock(g, b)};
      ok := true;
    }

    /** The address at a place, after giving the place a block if it had none. */
    method Ensure(i: nat, k: nat, outstanding: nat) returns (ok: bool, addr: nat)
      requires Valid() && i < g.ninodes && k < SLOTS
      requires k > NDIRECT ==> Addr(g, Disk(blocks, inodes), i, NDIRECT) != 0
      modifies this`blocks, this`inodes, this`logged, this`owner
      ensures !ok ==> outstanding < 1 || Full(g, blocks)
      ensures ok <==> old(Addr(g, Disk(blocks, inodes), i, k) != 0 || Spare(outstanding) > 0)
      ensures ok ==> |owner| == old(|owner|) + if old(Addr(g, Disk(blocks, inodes), i, k)) == 0 then 1 else 0
      ensures ok ==> (inodes == old(inodes) <==> k > NDIRECT || old(Addr(g, Disk(blocks, inodes), i, k)) != 0)
      ensures ok ==> Valid() && 0 < g.meta <= addr < g.size
      ensures ok ==> var d, d' := old(Disk(blocks, inodes)), Disk(blocks, inodes);
                && SameFiles(g, d, d') && Keeps(g, d, d') && Addr(g, d', i, k) == addr
                && (forall j, m :: 0 <= j < g.ninodes && 0 <= m < SLOTS && (j, m) != (i, k) ==>
                      Addr(g, d', j, m) == Addr(g, d, j, m))
      ensures ok ==> SameSizes(old(inodes), inodes, i) && AllLogged(old(blocks), blocks, logged)
      ensures old(Addr(g, Disk(blocks, inodes), i, k)) != 0 ==>
                ok && blocks == old(blocks) && inodes == old(inodes) && logged == old(logged) && owner == old(owner)
      ensures ok && old(Addr(g, Disk(blocks, inodes), i, k)) == 0 ==>
                logged == old(logged) + {BBlock(g, addr), addr}
                          + if k > NDIRECT then {old(Addr(g, Disk(blocks, inodes), i, NDIRECT))} else {}
    {
      hide InodeOk, Addresses, Bits, Used, Taken, FileBlock, SameFiles, WordAt, PutWord, BBlock, Full;
      ghost var d := Disk(blocks, inodes);
      Owned(g, d, owner, i, k);
      Owned(g, d, owner, i, NDIRECT);
      addr := if k <= NDIRECT then inodes[i].addrs[k]
              else WordAt(blocks[inodes[i].addrs[NDIRECT]], k - NDIRECT - 1);
      if addr != 0 {
        SameSelf(g, d);
        return true, addr;
      }
      ok, addr := Grow(i, k, outstanding);
    }

    /** Gives a new block to a place that has none. */
    method Grow(i: nat, k: nat, outstanding: nat) returns (ok: bool, b: nat)
      requires Valid() && i < g.ninodes && k < SLOTS && Addr(g, Disk(blocks, inodes), i, k) == 0
      requires k > NDIRECT ==> Addr(g, Disk(blocks, inodes), i, NDIRECT) != 0
      modifies this`blocks, this`inodes, this`logged, this`owner
      ensures !ok ==> outstanding < 1 || Full(g, blocks)
      ensures ok <==> old(Spare(outstanding)) > 0
      ensures ok ==> Valid() && 0 < g.meta <= b < g.size && |owner| == old(|owner|) + 1
      ensures ok ==> var d, d' := old(Disk(blocks, inodes)), Disk(blocks, inodes);
                && SameFiles(g, d, d') && Keeps(g, d, d') && Addr(g, d', i, k) == b
                && (forall j, m :: 0 <= j < g.ninodes && 0 <= m < SLOTS && (j, m) != (i, k) ==>
                      Addr(g, d', j, m) == Addr(g, d, j, m))
      ensures ok ==> SameSizes(old(inodes), inodes, i) && AllLogged(old(blocks), blocks, logged)
      ensures ok ==> (inodes == old(inodes) <==> k > NDIRECT)
      ensures ok ==> logged == old(logged) + {BBlock(g, b), b}
                               + if k > NDIRECT then {old(Addr(g, Disk(blocks, inodes), i, NDIRECT))} else {}
    {
      hide InodeOk, Addresses, Bits, Used, Taken, FileBlock, SameFiles, WordAt, PutWord, BBlock, Full, Sane, Keeps;
      ghost var d := Disk(blocks, inodes);
      Owned(g, d, owner, i, NDIRECT);
      assert k <= NDIRECT ==> inodes[i].addrs[k] == 0;
      FullCount(g, d, owner);
      ok, b := Balloc(outstanding);
      if !ok {
        return;
      }
      GrownKeeps(g, d, owner, i, k, b);
      GrownAddrs(g, d, owner, i, k, b);
      FreeIsUnowned(g, d, owner, b);
      if k <= NDIRECT {
        inodes := inodes[i := Inode(inodes[i].size, inodes[i].addrs[k := b])];
        assert inodes[i].addrs[k] != d.inodes[i].addrs[k];
      } else {
        var ind := inodes[i].addrs[NDIRECT];
        blocks := blocks[ind := PutWord(blocks[ind], k - NDIRECT - 1, b)];
        logged := logged + {ind};
      }
      owner := owner[b := Place(i, k)];
      assert Disk(blocks, inodes) == Grown(g, d, i, k, b);
      KeepsBut(g, d, Disk(blocks, inodes), i, k);
    }

    /** The disk block of block n of file i, allocated if there was none. */
    method Bmap(i: nat, n: nat, outstanding: nat) returns (ok: bool, addr: nat)
      requires Valid() && i < g.ninodes && n < MAXFILE
      modifies this`blocks, this`inodes, this`logged, this`owner
      ensures !ok ==> outstanding < 1 || Full(g, blocks)
      ensures var need := old(MapCost(g, Disk(blocks, inodes), i, n));
              (ok <==> need == 0 || need <= old(Spare(outstanding))) && (ok ==> |owner| == old(|owner|) + need)
      ensures ok ==> (inodes == old(inodes) <==> !old(MapsInInode(g, Disk(blocks, inodes), i, n)))
      ensures ok ==> Valid() && g.meta <= addr < g.size
      ensures ok ==> var d, d' := old(Disk(blocks, inodes)), Disk(blocks, inodes);
                SameFiles(g, d, d') && Keeps(g, d, d') && Addr(g, d', i, Slot(n)) == addr
      ensures ok ==> SameSizes(old(inodes), inodes, i) && AllLogged(old(blocks), blocks, logged)
      ensures ok && n < NDIRECT ==>
                Addr(g, Disk(blocks, inodes), i, NDIRECT) == old(Addr(g, Disk(blocks, inodes), i, NDIRECT))
      ensures ok ==> MovesOnly(g, old(Disk(blocks, inodes)), Disk(blocks, inodes), i, n)
      ensures old(Addr(g, Disk(blocks, inodes), i, Slot(n))) != 0 ==>
                ok && blocks == old(blocks) && inodes == old(inodes) && logged == old(logged) && owner == old(owner)
      ensures ok && old(Addr(g, Disk(blocks, inodes), i, Slot(n))) == 0 ==>
                logged == old(logged) + {addr, BBlock(g, addr)}
                          + MapWrites(g, old(Addr(g, Disk(blocks, inodes), i, NDIRECT)),
                                      Addr(g, Disk(blocks, inodes), i, NDIRECT), n)
    {
      hide InodeOk, Addresses, Bits, SameFiles, Keeps, SameSizes, AllLogged, BBlock, WordAt, Full, Addr, Sane;
      NoIndirect(g, Disk(blocks, inodes), i);
      if n < NDIRECT {
        ok, addr := Ensure(i, n, outstanding);
        return;
      }
      ghost var d := Disk(blocks, inodes);
      ok, addr := Ensure(i, NDIRECT, outstanding);
      if !ok {
        return;
      }
      ghost var d1 := Disk(blocks, inodes);
      assert Addr(g, d1, i, n + 1) == Addr(g, d, i, n + 1);
      ghost var logged1 := logged;
      ok, addr := Ensure(i, n + 1, outstanding);
      if ok {
        MappedTwice(g, d, d1, Disk(blocks, inodes), i, logged1, logged);
      }
    }

    /** Writes inode i back to its block. */
    method Iupdate(i: nat)
      requires i < |inodes| && i < |dinodes|
      modifies this`dinodes, this`logged
      ensures dinodes == old(dinodes)[i := inodes[i]] && logged == old(logged) + {IBlock(g, i)}
    {
      dinodes := dinodes[i := inodes[i]];
      logged := logged + {IBlock(g, i)};
    }

    /** Frees direct block k of inode i, if there is one. */
    method FreeDirect(i: nat, k: nat)
      requires Valid() && i < g.ninodes && k < NDIRECT
      modifies this`blocks, this`inodes, this`logged, this`owner
      ensures Valid() && owner == Without(old(owner), i, k, k + 1)
      ensures inodes == old(inodes)[i := Cleared(old(inodes[i]), k)]
      ensures OthersSame(g, old(Disk(blocks, inodes)), Disk(blocks, inodes), i)
      ensures MapOnly(g, old(blocks), blocks, old(logged), logged)
    {
      hide Addresses, Bits, InodeOk, Used, Without, OthersSame;
      ghost var d := Disk(blocks, inodes);
      Owned(g, d, owner, i, k);
      var b := inodes[i].addrs[k];
      if b != 0 {
        FreedDirect(g, d, owner, i, k);
        var ok := Bfree(b);
        assert ok;
        inodes := inodes[i := Inode(inodes[i].size, inodes[i].addrs[k := 0])];
        assert Disk(blocks, inodes) == Store(g, Disk(Mark(g, d.blocks, b, false), d.inodes), i, k, 0);
        MarkIsMap(g, d.blocks, b, old(logged));
      } else {
        OneLess(g, d, owner, i, k, k);
        NoRange(owner, i, k);
        OthersSelf(g, d, i);
        assert inodes[i] == Cleared(inodes[i], k);
      }
      owner := Without(owner, i, k, k + 1);
    }

    /** Frees every block that the indirect block of inode i lists. */
    method FreeListed(i: nat)
      requires Valid() && i < g.ninodes && Addr(g, Disk(blocks, inodes), i, NDIRECT) != 0
      modifies this`blocks, this`logged
      ensures Addresses(g, Disk(blocks, inodes), owner) && Bits(g, blocks, Without(owner, i, NDIRECT + 1, SLOTS))
      ensures SameFiles(g, old(Disk(blocks, inodes)), Disk(blocks, inodes))
      ensures MapOnly(g, old(blocks), blocks, old(logged), logged)
    {
      hide Addresses, Bits, InodeOk, Used, Without, SameFiles, WordAt, BBlock, Mark;
      ghost var d := Disk(blocks, inodes);
      Owned(g, d, owner, i, NDIRECT);
      NoRange(owner, i, NDIRECT + 1);
      SameSelf(g, d);
      var a := blocks[inodes[i].addrs[NDIRECT]];
      for j := 0 to NINDIRECT
        invariant Addresses(g, Disk(blocks, inodes), owner) && SameFiles(g, d, Disk(blocks, inodes))
        invariant Bits(g, blocks, Without(owner, i, NDIRECT + 1, NDIRECT + 1 + j))
        invariant MapOnly(g, d.blocks, blocks, old(logged), logged)
      {
        ghost var d1 := Disk(blocks, inodes);
        var b := WordAt(a, j);
        assert b == Addr(g, d1, i, NDIRECT + 1 + j);
        if b != 0 {
          FreedListed(g, d1, owner, i, NDIRECT + 1 + j);
          MarkIsMap(g, blocks, b, logged);
          var ok := Bfree(b);
          assert ok;
          SameTwice(g, d, d1, Disk(blocks, inodes));
        } else {
          OneLess(g, d1, owner, i, NDIRECT + 1, NDIRECT + 1 + j);
        }
      }
    }

    /** Frees the indirect block of inode i, if there is one, and all it lists. */
    method FreeIndirect(i: nat)
      requires Valid() && i < g.ninodes
      modifies this`blocks, this`inodes, this`logged, this`owner
      ensures Valid() && owner == Without(old(owner), i, NDIRECT, SLOTS)
      ensures inodes == old(inodes)[i := Cleared(old(inodes[i]), NDIRECT)]
      ensures OthersSame(g, old(Disk(blocks, inodes)), Disk(blocks, inodes), i)
      ensures MapOnly(g, old(blocks), blocks, old(logged), logged)
    {
      hide Addresses, Bits, InodeOk, Used, Without, OthersSame, SameFiles, BBlock, Mark, WordAt;
      ghost var d := Disk(blocks, inodes);
      Owned(g, d, owner, i, NDIRECT);
      var ind := inodes[i].addrs[NDIRECT];
      if ind != 0 {
        FreeListed(i);
        ghost var d1 := Disk(blocks, inodes);
        FreedIndirect(g, d1, owner, i);
        MarkIsMap(g, blocks, ind, logged);
        var ok := Bfree(ind);
        assert ok;
        inodes := inodes[i := Inode(inodes[i].size, inodes[i].addrs[NDIRECT := 0])];
        assert Disk(blocks, inodes) == Store(g, Disk(Mark(g, d1.blocks, ind, false), d1.inodes), i, NDIRECT, 0);
        OthersAfterSame(g, d, d1, Disk(blocks, inodes), i);
      } else {
        NothingListed(g, d, owner, i);
        OthersSelf(g, d, i);
        assert inodes[i] == Cleared(inodes[i], NDIRECT);
      }
      owner := Without(owner, i, NDIRECT, SLOTS);
    }

    /** Frees every block of inode i and clears its addresses. */
    method FreeAll(i: nat)
      requires Valid() && i < g.ninodes
      modifies this`blocks, this`inodes, this`logged, this`owner
      ensures Valid() && owner == Without(old(owner), i, 0, SLOTS)
      ensures |inodes| == g.ninodes && Clearing(old(inodes[i]), inodes[i], NDIRECT + 1)
      ensures OthersSame(g, old(Disk(blocks, inodes)), Disk(blocks, inodes), i)
      ensures MapOnly(g, old(blocks), blocks, old(logged), logged)
    {
      hide Addresses, Bits, InodeOk, Without, OthersSame, MapOnly;
      ghost var d, own := Disk(blocks, inodes), owner;
      Owned(g, d, own, i, 0);
      OthersSelf(g, d, i);
      NoRange(own, i, 0);
      NoMap(g, blocks, logged);
      for k := 0 to NDIRECT
        invariant Valid() && owner == Without(own, i, 0, k)
        invariant Clearing(d.inodes[i], inodes[i], k)
        invariant OthersSame(g, d, Disk(blocks, inodes), i) && MapOnly(g, d.blocks, blocks, old(logged), logged)
      {
        ghost var d1, logged1 := Disk(blocks, inodes), logged;
        FreeDirect(i, k);
        OthersTwice(g, d, d1, Disk(blocks, inodes), i);
        RangeTwice(own, i, k, k + 1);
        MapTwice(g, d.blocks, d1.blocks, blocks, old(logged), logged1, logged);
      }
      ghost var d1, logged1 := Disk(blocks, inodes), logged;
      FreeIndirect(i);
      OthersTwice(g, d, d1, Disk(blocks, inodes), i);
      RangeTwice(own, i, NDIRECT, SLOTS);
      MapTwice(g, d.blocks, d1.blocks, blocks, old(logged), logged1, logged);
    }

    /** Frees exactly the blocks of inode i, each of which was in use, and empties it. */
    method Itrunc(i: nat)
      requires Valid() && i < g.ninodes && |dinodes| == g.ninodes
      modifies this
      ensures Valid() && owner == Without(old(owner), i, 0, SLOTS)
      ensures inodes == old(inodes)[i := Inode(0, seq(NDIRECT + 1, _ => 0))] && dinodes == old(dinodes)[i := inodes[i]]
      ensures OthersSame(g, old(Disk(blocks, inodes)), Disk(blocks, inodes), i)
      ensures MapOnly(g, old(blocks), blocks, old(logged), logged) && IBlock(g, i) in logged
    {
      hide Addresses, Bits, InodeOk, Without, SameFile;
      ghost var d := Disk(blocks, inodes);
      FreeAll(i);
      ghost var d1 := Disk(blocks, inodes);
      inodes := inodes[i := Inode(0, inodes[i].addrs)];
      assert inodes[i].addrs == seq(NDIRECT + 1, _ => 0);
      Shrunk(g, d, d1, owner, i, 0);
      Iupdate(i);
    }
  }

  /** Without an indirect block there is nothing in it. */
  lemma NoIndirect(g: Super, d: Disk, i: nat)
    requires Shape(g, d) && i < g.ninodes
    ensures Addr(g, d, i, NDIRECT) == 0 ==> forall k :: NDIRECT < k < SLOTS ==> Addr(g, d, i, k) == 0
  {
  }

  lemma MappedTwice(g: Super, d: Disk, d1: Disk, d2: Disk, i: nat, logged1: set<nat>, logged2: set<nat>)
    requires Shape(g, d) && Shape(g, d1) && Shape(g, d2)
    requires SameFiles(g, d, d1) && Keeps(g, d, d1) && SameSizes(d.inodes, d1.inodes, i)
    requires SameFiles(g, d1, d2) && Keeps(g, d1, d2) && SameSizes(d1.inodes, d2.inodes, i)
    requires AllLogged(d.blocks, d1.blocks, logged1) && AllLogged(d1.blocks, d2.blocks, logged2) && logged1 <= logged2
    ensures SameFiles(g, d, d2) && Keeps(g, d, d2) && SameSizes(d.inodes, d2.inodes, i)
    ensures AllLogged(d.blocks, d2.blocks, logged2)
  {
    hide Addr, Shape;
    SameTwice(g, d, d1, d2);
  }

  /** What mapping block n of a file logs for its indirect block. */
  function MapWrites(g: Super, was: nat, ind: nat, n: nat): set<nat> {
    if n < NDIRECT then {}
    else {ind} + if was == 0 then {BBlock(g, ind)} else {}
  }

  lemma InBlock(base: nat, bi: nat)
    requires base % BPB == 0 && bi < BPB
    ensures (base + bi) / BPB == base / BPB && (base + bi) % BPB == bi
  {
  }

  lemma Owned(g: Super, d: Disk, own: Owners, i: nat, k: nat)
    requires Addresses(g, d, own) && i < g.ninodes && k < SLOTS
    ensures PointsRight(g, d, own, i, k) && InodeOk(g, d.inodes[i])
  {
  }

  lemma SameSelf(g: Super, d: Disk)
    requires Shape(g, d)
    ensures SameFiles(g, d, d)
  {
  }

  /** An inode with address k cleared. */
  function Cleared(ino: Inode, k: nat): Inode
    requires k < |ino.addrs|
  {
    Inode(ino.size, ino.addrs[k := 0])
  }

  predicate Clearing(was: Inode, now: Inode, k: nat) {
    && |was.addrs| == |now.addrs| == NDIRECT + 1 && now.size == was.size
    && forall m :: 0 <= m < k && m <= NDIRECT ==> now.addrs[m] == 0
  }

  /** Only blocks of the bitmap have changed, and they are logged. */
  predicate MapOnly(g: Super, was: seq<Block>, now: seq<Block>, logged: set<nat>, logged': set<nat>) {
    && |was| == |now| == g.size && logged <= logged' && AllLogged(was, now, logged')
    && forall c :: g.meta <= c < g.size ==> now[c] == was[c]
  }

  lemma MarkIsMap(g: Super, blocks: seq<Block>, b: nat, logged: set<nat>)
    requires Sane(g) && |blocks| == g.size && b < g.size
    ensures MapOnly(g, blocks, Mark(g, blocks, b, false), logged, logged + {BBlock(g, b)})
  {
  }

  lemma NoMap(g: Super, blocks: seq<Block>, logged: set<nat>)
    requires |blocks| == g.size
    ensures MapOnly(g, blocks, blocks, logged, logged)
  {
  }

  lemma MapTwice(g: Super, a: seq<Block>, b: seq<Block>, c: seq<Block>, l1: set<nat>, l2: set<nat>, l3: set<nat>)
    requires MapOnly(g, a, b, l1, l2) && MapOnly(g, b, c, l2, l3)
    ensures MapOnly(g, a, c, l1, l3)
  {
  }

  lemma NoRange(own: Owners, i: nat, k: nat)
    ensures Without(own, i, k, k) == own
  {
    assert Without(own, i, k, k).Keys == own.Keys;
  }

  lemma RangeTwice(own: Owners, i: nat, k: nat, hi: nat)
    requires k <= hi
    ensures Without(Without(own, i, 0, k), i, k, hi) == Without(own, i, 0, hi)
  {
    assert Without(Without(own, i, 0, k), i, k, hi).Keys == Without(own, i, 0, hi).Keys;
  }

  lemma OthersSelf(g: Super, d: Disk, i: nat)
    requires Shape(g, d)
    ensures OthersSame(g, d, d, i)
  {
  }

  lemma OthersAfterSame(g: Super, d: Disk, d1: Disk, d2: Disk, i: nat)
    requires Shape(g, d) && Shape(g, d1) && Shape(g, d2) && SameFiles(g, d, d1) && d1.inodes == d.inodes
    requires OthersSame(g, d1, d2, i)
    ensures OthersSame(g, d, d2, i)
  {
    hide FileBlock, Shape;
    DroppedOthers(g, d, d1, d2, i);
  }

  /** Changing the size of inode i moves no address. */
  lemma Shrunk(g: Super, d: Disk, d1: Disk, own: Owners, i: nat, size: nat)
    requires Addresses(g, d1, own) && Shape(g, d) && i < g.ninodes && size <= MAXFILE * BSIZE && OthersSame(g, d, d1, i)
    ensures var d2 := Disk(d1.blocks, d1.inodes[i := Inode(size, d1.inodes[i].addrs)]);
            && Addresses(g, d2, own) && OthersSame(g, d, d2, i) && SameFiles(g, d1, d2)
            && forall j, k :: 0 <= j < g.ninodes && 0 <= k < SLOTS ==> Addr(g, d2, j, k) == Addr(g, d1, j, k)
  {
    hide WordAt;
    var d2 := Disk(d1.blocks, d1.inodes[i := Inode(size, d1.inodes[i].addrs)]);
    assert forall j, k :: 0 <= j < g.ninodes && 0 <= k < SLOTS ==> Addr(g, d2, j, k) == Addr(g, d1, j, k);
    hide Addr;
    forall j, k | 0 <= j < g.ninodes && 0 <= k < SLOTS ensures PointsRight(g, d2, own, j, k) {
      assert PointsRight(g, d1, own, j, k);
    }
    forall c ensures OwnedRight(g, d2, own, c) {
      assert OwnedRight(g, d1, own, c);
    }
    assert SameFiles(g, d1, d2);
    hide FileBlock;
    forall j | 0 <= j < g.ninodes && j != i ensures SameFile(g, d, d2, j) {
      assert SameFile(g, d, d1, j) && SameFile(g, d1, d2, j);
    }
  }
}
