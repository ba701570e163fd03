/**
 Reading and writing the bytes of files (kernel/fs.c readi and writei, and the loop
 of kernel/file.c filewrite that splits a write into transactions).
 */
module FileIo {
  import opened Blocks
  import opened FsLayout
  import opened FileSystem
  import opened Params

  function Min(a: nat, b: nat): nat {
    if a < b then a else b
  }

  function Max(a: nat, b: nat): nat {
    if a > b then a else b
  }

  // ---------------------------------------------------------------- reading

  function Part(c: seq<Byte>, off: nat, n: nat): seq<Byte>
    requires off + n <= |c|
  {
    c[off..off + n]
  }

  /** What a read gives back: the bytes asked for, up to the end of the file. */
  function Wanted(c: seq<Byte>, off: nat, n: nat): seq<Byte> {
    if off > |c| || off + n >= UINT then [] else Part(c, off, Min(n, |c| - off))
  }

  /** The result of a read of these bytes into a destination that takes `good` of them. */
  predicate Gives(want: seq<Byte>, good: nat, r: int, data: seq<Byte>) {
    if |want| <= good then r == |want| && data == want else r == -1 && data == want[..good]
  }

  /** The part of a block that a chunk covers is that part of the file. */
  lemma ChunkOf(g: Super, d: Disk, i: nat, off: nat, m: nat)
    requires Shape(g, d) && i < g.ninodes && off + m <= d.inodes[i].size && off % BSIZE + m <= BSIZE && m > 0
    ensures off / BSIZE < MAXFILE
    ensures FileBlock(g, d, i, off / BSIZE).at[off % BSIZE..off % BSIZE + m] == Contents(g, d, i)[off..off + m]
  {
    hide FileBlock;
    var b, c := FileBlock(g, d, i, off / BSIZE).at[off % BSIZE..off % BSIZE + m], Contents(g, d, i)[off..off + m];
    forall x | 0 <= x < m ensures b[x] == c[x] {
      InChunk(off, x);
    }
  }

  lemma NoPart(c: seq<Byte>, off: nat)
    requires off <= |c|
    ensures Part(c, off, 0) == []
  {
  }

  lemma PartMore(c: seq<Byte>, off: nat, tot: nat, m: nat)
    requires off + tot + m <= |c|
    ensures Part(c, off, tot) + Part(c, off + tot, m) == Part(c, off, tot + m)
  {
  }

  lemma PartFault(c: seq<Byte>, off: nat, tot: nat, m: nat, want: nat, good: nat)
    requires tot <= good < tot + m <= want && off + want <= |c|
    ensures |Part(c, off + tot, m)| == m
    ensures Gives(Part(c, off, want), good, -1, Part(c, off, tot) + Part(c, off + tot, m)[..good - tot])
  {
    assert Part(c, off + tot, m)[..good - tot] == Part(c, off + tot, good - tot);
    PartMore(c, off, tot, good - tot);
    assert Part(c, off, want)[..good] == Part(c, off, good);
  }

  lemma PartDone(c: seq<Byte>, off: nat, want: nat, good: nat)
    requires want <= good && off + want <= |c|
    ensures Gives(Part(c, off, want), good, want, Part(c, off, want))
  {
  }

  lemma InChunk(off: nat, x: nat)
    requires off % BSIZE + x < BSIZE
    ensures (off + x) / BSIZE == off / BSIZE && (off + x) % BSIZE == off % BSIZE + x
  {
  }

  /** No block below the size is missing, so mapping one allocates nothing. */
  lemma DenseAt(g: Super, d: Disk, i: nat, off: nat)
    requires Shape(g, d) && i < g.ninodes && Dense(g, d, i) && off < d.inodes[i].size
    ensures off / BSIZE < MAXFILE && Addr(g, d, i, Slot(off / BSIZE)) != 0
  {
    hide Addr;
    assert off / BSIZE * BSIZE <= off;
  }

  // ---------------------------------------------------------------- the holes a read meets

  /** How many of the blocks from lo up to hi are missing. */
  function Holes(g: Super, d: Disk, i: nat, lo: nat, hi: nat): nat
    requires Shape(g, d) && i < g.ninodes && hi <= MAXFILE
  {
    if hi <= lo then 0 else Holes(g, d, i, lo, hi - 1) + if Addr(g, d, i, Slot(hi - 1)) == 0 then 1 else 0
  }

  /** The blocks that reading them allocates: those, and the indirect block if they need one. */
  function ReadCost(g: Super, d: Disk, i: nat, lo: nat, hi: nat): nat
    requires Shape(g, d) && i < g.ninodes && hi <= MAXFILE
  {
    Holes(g, d, i, lo, hi) + if lo < hi && NDIRECT < hi && Addr(g, d, i, NDIRECT) == 0 then 1 else 0
  }

  /** Reading them puts an address into the inode, which a read does not write back. */
  predicate ReadLeaks(g: Super, d: Disk, i: nat, lo: nat, hi: nat)
    requires Shape(g, d) && i < g.ninodes && hi <= MAXFILE
  {
    exists n :: lo <= n < hi && MapsInInode(g, d, i, n)
  }

  /** One past the last block that a read of a file of this size maps; 0 if it maps none. */
  function ReadEnd(size: nat, off: nat, n: nat, good: nat): (hi: nat)
    ensures hi * BSIZE < size + BSIZE
  {
    if off > size || off + n >= UINT || n == 0 || size == off then 0
    else LastBlock(off, Min(Min(n, size - off), good + 1))
  }

  /** One past the block of the last of n bytes at off. */
  function LastBlock(off: nat, n: nat): nat {
    if n == 0 then off / BSIZE else (off + n - 1) / BSIZE + 1
  }

  /** An address of the inode itself that was not there before. */
  predicate GainedAt(g: Super, d: Disk, d': Disk, i: nat, k: nat)
    requires Shape(g, d) && Shape(g, d') && i < g.ninodes && k <= NDIRECT
  {
    Addr(g, d, i, k) == 0 && Addr(g, d', i, k) != 0
  }

  predicate Gained(g: Super, d: Disk, d': Disk, i: nat)
    requires Shape(g, d) && Shape(g, d') && i < g.ninodes
  {
    exists k :: 0 <= k <= NDIRECT && GainedAt(g, d, d', i, k)
  }

  /** Where a read stands that has mapped the blocks from lo up to hi. */
  ghost predicate ReadTo(g: Super, d: Disk, own: Owners, d': Disk, own': Owners, i: nat, lo: nat, hi: nat)
    requires Shape(g, d) && Shape(g, d') && i < g.ninodes
  {
    && lo <= hi <= MAXFILE && |own'| == |own| + ReadCost(g, d, i, lo, hi) && Keeps(g, d, d')
    && (forall n :: hi <= n < MAXFILE ==> Addr(g, d', i, Slot(n)) == Addr(g, d, i, Slot(n)))
    && (Addr(g, d', i, NDIRECT) == 0 <==> Addr(g, d, i, NDIRECT) == 0 && !(lo < hi && NDIRECT < hi))
    && (if ReadLeaks(g, d, i, lo, hi) then Gained(g, d, d', i) else d'.inodes == d.inodes)
  }

  lemma ReadNone(g: Super, d: Disk, own: Owners, i: nat, lo: nat)
    requires Shape(g, d) && i < g.ninodes && lo <= MAXFILE
    ensures ReadTo(g, d, own, d, own, i, lo, lo) && ReadCost(g, d, i, lo, lo) == 0
  {
    hide Addr;
  }

  /** Mapping the next block. */
  lemma ReadNext(g: Super, d: Disk, own: Owners, d1: Disk, own1: Owners, d2: Disk, own2: Owners, i: nat, lo: nat,
                 n: nat)
    requires Shape(g, d) && Shape(g, d1) && Shape(g, d2) && i < g.ninodes && n < MAXFILE
    requires ReadTo(g, d, own, d1, own1, i, lo, n)
    requires Keeps(g, d1, d2) && MovesOnly(g, d1, d2, i, n) && Addr(g, d2, i, Slot(n)) != 0
    requires n < NDIRECT ==> Addr(g, d2, i, NDIRECT) == Addr(g, d1, i, NDIRECT)
    requires |own2| == |own1| + MapCost(g, d1, i, n) && (d2.inodes == d1.inodes <==> !MapsInInode(g, d1, i, n))
    ensures ReadTo(g, d, own, d2, own2, i, lo, n + 1)
  {
    CostNext(g, d, own, d1, own1, i, lo, n);
    LeaksNext(g, d, i, lo, n);
    NoIndirect(g, d2, i);
    NoIndirect(g, d1, i);
    hide Addr;
    forall m | n + 1 <= m < MAXFILE ensures Addr(g, d2, i, Slot(m)) == Addr(g, d, i, Slot(m)) {
      assert Addr(g, d1, i, Slot(m)) == Addr(g, d, i, Slot(m));
    }
    if ReadLeaks(g, d, i, lo, n) {
      var k :| 0 <= k <= NDIRECT && GainedAt(g, d, d1, i, k);
      assert GainedAt(g, d, d2, i, k);
    } else if MapsInInode(g, d, i, n) {
      assert GainedAt(g, d, d2, i, if n < NDIRECT then n else NDIRECT);
    }
  }

  lemma CostNext(g: Super, d: Disk, own: Owners, d1: Disk, own1: Owners, i: nat, lo: nat, n: nat)
    requires Shape(g, d) && Shape(g, d1) && i < g.ninodes && n < MAXFILE && ReadTo(g, d, own, d1, own1, i, lo, n)
    ensures ReadCost(g, d, i, lo, n + 1) == ReadCost(g, d, i, lo, n) + MapCost(g, d1, i, n)
  {
    NoIndirect(g, d, i);
    hide Addr;
    assert Addr(g, d1, i, Slot(n)) == Addr(g, d, i, Slot(n));
  }

  lemma LeaksNext(g: Super, d: Disk, i: nat, lo: nat, n: nat)
    requires Shape(g, d) && i < g.ninodes && lo <= n < MAXFILE
    ensures ReadLeaks(g, d, i, lo, n + 1) <==> ReadLeaks(g, d, i, lo, n) || MapsInInode(g, d, i, n)
  {
    hide Addr, MapsInInode;
  }

  lemma {:induction false} CostMono(g: Super, d: Disk, i: nat, lo: nat, m: nat, hi: nat)
    requires Shape(g, d) && i < g.ninodes && lo <= m <= hi <= MAXFILE
    ensures ReadCost(g, d, i, lo, m) <= ReadCost(g, d, i, lo, hi)
    decreases hi
  {
    hide Addr;
    if m < hi {
      CostMono(g, d, i, lo, m, hi - 1);
    }
  }

  /** A file with no missing block costs nothing to read. */
  lemma {:induction false} DenseCost(g: Super, d: Disk, i: nat, lo: nat, hi: nat)
    requires Shape(g, d) && i < g.ninodes && Dense(g, d, i) && hi <= MAXFILE && hi * BSIZE < d.inodes[i].size + BSIZE
    ensures ReadCost(g, d, i, lo, hi) == 0
    decreases hi
  {
    NoIndirect(g, d, i);
    hide Addr;
    if lo < hi {
      DenseCost(g, d, i, lo, hi - 1);
      assert Addr(g, d, i, Slot(hi - 1)) != 0;
    }
  }

  /**
   A read leaves the inode on disk as it was. If it has put an address into the inode
   in memory, the disk then has a block marked in use that no inode on it has.
   */
  lemma LeakIff(g: Super, d: Disk, d': Disk, own': Owners, i: nat)
    requires Shape(g, d) && Addresses(g, d', own') && Bits(g, d'.blocks, own') && i < g.ninodes
    requires Keeps(g, d, d') && SameSizes(d.inodes, d'.inodes, i)
    requires Gained(g, d, d', i) || d'.inodes == d.inodes
    ensures InOrder(g, Disk(d'.blocks, d.inodes)) <==> !Gained(g, d, d', i)
  {
    if Gained(g, d, d', i) {
      forall own | Addresses(g, Disk(d'.blocks, d.inodes), own) ensures !Bits(g, d'.blocks, own) {
        Leaked(g, d, d', own', i, own);
      }
    } else {
      assert Disk(d'.blocks, d.inodes) == d';
    }
  }

  lemma Leaked(g: Super, d: Disk, d': Disk, own': Owners, i: nat, own: Owners)
    requires Shape(g, d) && Addresses(g, d', own') && Bits(g, d'.blocks, own') && i < g.ninodes
    requires Keeps(g, d, d') && SameSizes(d.inodes, d'.inodes, i) && Gained(g, d, d', i)
    requires Addresses(g, Disk(d'.blocks, d.inodes), own)
    ensures !Bits(g, d'.blocks, own)
  {
    hide Used, InodeOk, WordAt, Addr, Keeps, SameSizes;
    var disk := Disk(d'.blocks, d.inodes);
    var k :| 0 <= k <= NDIRECT && GainedAt(g, d, d', i, k);
    var b := Addr(g, d', i, k);
    assert PointsRight(g, d', own', i, k);
    assert BitRight(g, d'.blocks, own', b);
    forall j, m | 0 <= j < g.ninodes && 0 <= m < SLOTS ensures Addr(g, disk, j, m) != b {
      NotThere(g, d, d', own', i, k, j, m);
    }
    assert OwnedRight(g, disk, own, b);
    assert Bits(g, d'.blocks, own) ==> BitRight(g, d'.blocks, own, b);
  }

  lemma NotThere(g: Super, d: Disk, d': Disk, own': Owners, i: nat, k: nat, j: nat, m: nat)
    requires Shape(g, d) && Addresses(g, d', own') && i < g.ninodes && j < g.ninodes && m < SLOTS
    requires Keeps(g, d, d') && SameSizes(d.inodes, d'.inodes, i) && k <= NDIRECT && GainedAt(g, d, d', i, k)
    ensures Addr(g, Disk(d'.blocks, d.inodes), j, m) != Addr(g, d', i, k)
  {
    hide InodeOk, WordAt;
    var disk := Disk(d'.blocks, d.inodes);
    assert PointsRight(g, d', own', i, k) && PointsRight(g, d', own', j, m);
    assert Addr(g, d, j, NDIRECT) != 0 ==> Addr(g, d', j, NDIRECT) == Addr(g, d, j, NDIRECT);
    assert m <= NDIRECT && Addr(g, d, j, m) != 0 ==> Addr(g, d', j, m) == Addr(g, d, j, m);
    assert Addr(g, disk, j, m) != 0 ==> Addr(g, d', j, m) == Addr(g, disk, j, m);
  }

  // ---------------------------------------------------------------- reading a file

  /**
   Reads up to n bytes at off. The destination takes the first `good` bytes and
   faults after that. A block that is missing is allocated, which panics if the disk
   has none left or if no operation is outstanding; and the inode on disk does not
   learn of it.
   */
  method Readi(fs: Fs, i: nat, off: nat, n: nat, good: nat, outstanding: nat)
    returns (panic: bool, r: int, data: seq<Byte>)
    requires fs.Valid() && i < fs.g.ninodes && off < UINT && n < UINT
    modifies fs`blocks, fs`inodes, fs`logged, fs`owner
    ensures panic <==>
              old(ReadCost(fs.g, Disk(fs.blocks, fs.inodes), i, off / BSIZE, ReadEnd(fs.inodes[i].size, off, n, good))
                  > fs.Spare(outstanding))
    ensures panic ==> outstanding < 1 || Full(fs.g, fs.blocks)
    ensures old(Dense(fs.g, Disk(fs.blocks, fs.inodes), i)) ==>
              !panic && fs.blocks == old(fs.blocks) && fs.inodes == old(fs.inodes) && fs.logged == old(fs.logged)
              && fs.owner == old(fs.owner)
    ensures !panic ==> fs.Valid() && SameFiles(fs.g, old(Disk(fs.blocks, fs.inodes)), Disk(fs.blocks, fs.inodes))
                       && SameSizes(old(fs.inodes), fs.inodes, i)
    ensures !panic ==> Gives(Wanted(old(Contents(fs.g, Disk(fs.blocks, fs.inodes), i)), off, n), good, r, data)
    ensures !panic ==>
              var c := old(Contents(fs.g, Disk(fs.blocks, fs.inodes), i));
              if off > |c| || off + n >= UINT then r == 0 && data == []
              else
                var k := if n < |c| - off then n else |c| - off;
                r == (if good < k then -1 else k) && data == c[off..off + if good < k then good else k]
    ensures !panic ==>
              (InOrder(fs.g, Disk(fs.blocks, old(fs.inodes)))
               <==> !old(ReadLeaks(fs.g, Disk(fs.blocks, fs.inodes), i, off / BSIZE,
                                   ReadEnd(fs.inodes[i].size, off, n, good))))
  {
    hide Addr, Addresses, Bits, InodeOk, SameFiles, Contents, FileBlock, Dense, SameSizes, Full, Part, Gives,
        ReadCost, ReadLeaks, InOrder, LastBlock;
    ghost var d, c := Disk(fs.blocks, fs.inodes), Contents(fs.g, Disk(fs.blocks, fs.inodes), i);
    SizesSelf(fs.inodes, i);
    SameSelf(fs.g, d);
    InodeSize(fs.g, d, i);
    NothingRead(fs.g, d, fs.owner, i, off / BSIZE);
    panic, r, data := false, 0, [];
    var size := fs.inodes[i].size;
    if off > size || off + n >= UINT {
      GivesNone(good);
      return;
    }
    var want := Min(n, size - off);
    WantedIs(c, off, n);
    if want == 0 {
      NoPart(c, off);
      GivesNone(good);
      GivesIs(c, off, n, good, r, data);
      return;
    }
    panic, r, data := ReadLoop(fs, i, off, want, good, outstanding);
    if !panic {
      GivesIs(c, off, n, good, r, data);
    }
  }

  lemma GivesIs(c: seq<Byte>, off: nat, n: nat, good: nat, r: int, data: seq<Byte>)
    requires Gives(Wanted(c, off, n), good, r, data) && off <= |c| && off + n < UINT
    ensures var k := if n < |c| - off then n else |c| - off;
            r == (if good < k then -1 else k) && data == c[off..off + if good < k then good else k]
  {
  }

  /** The loop of readi, for bytes that are there. */
  method ReadLoop(fs: Fs, i: nat, off: nat, want: nat, good: nat, outstanding: nat)
    returns (panic: bool, r: int, data: seq<Byte>)
    requires fs.Valid() && i < fs.g.ninodes && 0 < want && off + want <= fs.inodes[i].size
    modifies fs`blocks, fs`inodes, fs`logged, fs`owner
    ensures LastBlock(off, Min(want, good + 1)) <= MAXFILE
    ensures panic <==>
              old(ReadCost(fs.g, Disk(fs.blocks, fs.inodes), i, off / BSIZE, LastBlock(off, Min(want, good + 1)))
                  > fs.Spare(outstanding))
    ensures panic ==> outstanding < 1 || Full(fs.g, fs.blocks)
    ensures old(Dense(fs.g, Disk(fs.blocks, fs.inodes), i)) ==>
              !panic && fs.blocks == old(fs.blocks) && fs.inodes == old(fs.inodes) && fs.logged == old(fs.logged)
              && fs.owner == old(fs.owner)
    ensures !panic ==> fs.Valid() && SameFiles(fs.g, old(Disk(fs.blocks, fs.inodes)), Disk(fs.blocks, fs.inodes))
                       && SameSizes(old(fs.inodes), fs.inodes, i)
    ensures !panic ==> Gives(Part(old(Contents(fs.g, Disk(fs.blocks, fs.inodes), i)), off, want), good, r, data)
    ensures !panic ==>
              (InOrder(fs.g, Disk(fs.blocks, old(fs.inodes)))
               <==> !old(ReadLeaks(fs.g, Disk(fs.blocks, fs.inodes), i, off / BSIZE,
                                   LastBlock(off, Min(want, good + 1)))))
  {
    hide Addr, Addresses, Bits, InodeOk, SameFiles, Contents, FileBlock, Dense, SameSizes, Full, Part, Gives, ReadTo,
        ReadCost, ReadLeaks, InOrder, LastBlock, ReadAt;
    ghost var d, own := Disk(fs.blocks, fs.inodes), fs.owner;
    ghost var c, lo, end := Contents(fs.g, d, i), off / BSIZE, LastBlock(off, Min(want, good + 1));
    SizesSelf(fs.inodes, i);
    SameSelf(fs.g, d);
    InodeSize(fs.g, d, i);
    LastInside(off, want, good, fs.inodes[i].size);
    NoPart(c, off);
    if Dense(fs.g, d, i) {
      DenseCost(fs.g, d, i, lo, end);
    }
    ReadNone(fs.g, d, own, i, lo);
    panic, r, data := false, 0, [];
    var tot := 0;
    ghost var hi: nat := lo;
    while tot < want
      invariant tot <= want && data == Part(c, off, tot) && tot <= good && ReadAt(off, tot, want, hi)
      invariant fs.Valid() && SameFiles(fs.g, d, Disk(fs.blocks, fs.inodes)) && SameSizes(d.inodes, fs.inodes, i)
      invariant ReadTo(fs.g, d, own, Disk(fs.blocks, fs.inodes), fs.owner, i, lo, hi)
      invariant hi <= end && (outstanding < 1 ==> ReadCost(fs.g, d, i, lo, hi) == 0)
      invariant Dense(fs.g, d, i) ==>
                  fs.blocks == d.blocks && fs.inodes == d.inodes && fs.logged == old(fs.logged)
                      && fs.owner == old(fs.owner)
    {
      NextChunk(off, tot, want);
      ChunkEnd(off, tot, want, good, hi);
      var m := Min(want - tot, BSIZE - (off + tot) % BSIZE);
      LowFirst(fs.g, d, own, Disk(fs.blocks, fs.inodes), fs.owner, i, lo, hi);
      CostMono(fs.g, d, i, lo, hi + 1, end);
      var ok, bytes := ReadChunk(fs, i, off + tot, m, outstanding, d, own, lo);
      if !ok {
        panic := true;
        return;
      }
      hi := hi + 1;
      if tot + m > good {
        PartFault(c, off, tot, m, want, good);
        data := data + bytes[..good - tot];
        r := -1;
        ReadOver(fs, i, d, own, lo, hi);
        return;
      }
      PartMore(c, off, tot, m);
      data := data + bytes;
      tot := tot + m;
    }
    PartDone(c, off, want, good);
    ReadAtEnd(off, want, good, hi);
    ReadOver(fs, i, d, own, lo, hi);
    r := tot;
  }

  /** What a read that is over has cost, and what it has left on disk. */
  lemma ReadOver(fs: Fs, i: nat, d: Disk, own: Owners, lo: nat, hi: nat)
    requires fs.Valid() && Shape(fs.g, d) && i < fs.g.ninodes && SameSizes(d.inodes, fs.inodes, i)
    requires ReadTo(fs.g, d, own, Disk(fs.blocks, fs.inodes), fs.owner, i, lo, hi)
    ensures hi <= MAXFILE && ReadCost(fs.g, d, i, lo, hi) <= fs.g.size - fs.g.meta - |own|
    ensures InOrder(fs.g, Disk(fs.blocks, d.inodes)) <==> !ReadLeaks(fs.g, d, i, lo, hi)
  {
    hide Addr, Addresses, Bits, InodeOk, SameSizes, Full, InOrder, ReadLeaks, ReadCost, GainedAt;
    FullCount(fs.g, Disk(fs.blocks, fs.inodes), fs.owner);
    LeakIff(fs.g, d, Disk(fs.blocks, fs.inodes), fs.owner, i);
    if d.inodes == fs.inodes {
      NotGained(fs.g, d, Disk(fs.blocks, fs.inodes), i);
    }
  }

  lemma NotGained(g: Super, d: Disk, d': Disk, i: nat)
    requires Shape(g, d) && Shape(g, d') && i < g.ninodes && d'.inodes == d.inodes
    ensures !Gained(g, d, d', i)
  {
  }

  lemma NothingRead(g: Super, d: Disk, own: Owners, i: nat, lo: nat)
    requires Addresses(g, d, own) && Bits(g, d.blocks, own) && i < g.ninodes
    ensures ReadCost(g, d, i, lo, 0) == 0 <= g.size - g.meta - |own|
    ensures InOrder(g, d) && !ReadLeaks(g, d, i, lo, 0)
  {
    FullCount(g, d, own);
    hide Addr, Addresses, Bits;
  }

  lemma GivesNone(good: nat)
    ensures Gives([], good, 0, [])
  {
  }

  lemma WantedIs(c: seq<Byte>, off: nat, n: nat)
    requires off <= |c| && off + n < UINT
    ensures Wanted(c, off, n) == Part(c, off, Min(n, |c| - off))
  {
  }

  lemma LowFirst(g: Super, d: Disk, own: Owners, d': Disk, own': Owners, i: nat, lo: nat, hi: nat)
    requires Shape(g, d) && Shape(g, d') && i < g.ninodes && ReadTo(g, d, own, d', own', i, lo, hi)
    ensures lo <= hi <= MAXFILE
  {
  }

  /** After tot of the bytes at off, hi is one past the last block mapped, and the next to map. */
  ghost predicate ReadAt(off: nat, tot: nat, want: nat, hi: nat) {
    hi == LastBlock(off, tot) && (tot == want || hi == (off + tot) / BSIZE)
  }

  /** The block that a chunk is in, and the last block of all. */
  lemma ChunkEnd(off: nat, tot: nat, want: nat, good: nat, hi: nat)
    requires tot < want && tot <= good && ReadAt(off, tot, want, hi)
    ensures hi == (off + tot) / BSIZE && hi + 1 <= LastBlock(off, Min(want, good + 1))
    ensures var m := Min(want - tot, BSIZE - (off + tot) % BSIZE);
            && ReadAt(off, tot + m, want, hi + 1)
            && (tot + m > good ==> hi + 1 == LastBlock(off, Min(want, good + 1)))
  {
    var m, x := Min(want - tot, BSIZE - (off + tot) % BSIZE), off + tot;
    InChunk(x, m - 1);
    if tot + m > good {
      InChunk(x, good - tot);
    }
  }

  lemma ReadAtEnd(off: nat, want: nat, good: nat, hi: nat)
    requires 0 < want <= good && ReadAt(off, want, want, hi)
    ensures hi == LastBlock(off, Min(want, good + 1))
  {
  }

  lemma LastInside(off: nat, want: nat, good: nat, size: nat)
    requires 0 < want && off + want <= size <= MAXFILE * BSIZE
    ensures off / BSIZE < LastBlock(off, Min(want, good + 1)) <= MAXFILE
    ensures LastBlock(off, Min(want, good + 1)) * BSIZE < size + BSIZE
    ensures ReadAt(off, 0, want, off / BSIZE)
  {
  }

  method ReadChunk(fs: Fs, i: nat, x: nat, m: nat, outstanding: nat, ghost d: Disk, ghost own: Owners, ghost lo: nat)
    returns (ok: bool, bytes: seq<Byte>)
    requires fs.Valid() && i < fs.g.ninodes && Shape(fs.g, d) && m > 0 && x % BSIZE + m <= BSIZE
    requires SameFiles(fs.g, d, Disk(fs.blocks, fs.inodes)) && SameSizes(d.inodes, fs.inodes, i)
    requires x + m <= d.inodes[i].size
    requires ReadTo(fs.g, d, own, Disk(fs.blocks, fs.inodes), fs.owner, i, lo, x / BSIZE)
    requires outstanding < 1 ==> ReadCost(fs.g, d, i, lo, x / BSIZE) == 0
    modifies fs`blocks, fs`inodes, fs`logged, fs`owner
    ensures x / BSIZE < MAXFILE
    ensures !ok ==> outstanding < 1 || Full(fs.g, fs.blocks)
    ensures !ok ==> ReadCost(fs.g, d, i, lo, x / BSIZE + 1)
                    > if outstanding < 1 then 0 else fs.g.size - fs.g.meta - |own|
    ensures Dense(fs.g, d, i) && old(fs.blocks) == d.blocks && old(fs.inodes) == d.inodes ==>
              ok && fs.blocks == old(fs.blocks) && fs.inodes == old(fs.inodes) && fs.logged == old(fs.logged)
              && fs.owner == old(fs.owner)
    ensures ok ==> fs.Valid() && SameFiles(fs.g, d, Disk(fs.blocks, fs.inodes)) && SameSizes(d.inodes, fs.inodes, i)
    ensures ok ==> bytes == Part(Contents(fs.g, d, i), x, m)
    ensures ok ==> ReadTo(fs.g, d, own, Disk(fs.blocks, fs.inodes), fs.owner, i, lo, x / BSIZE + 1)
    ensures ok && outstanding < 1 ==> ReadCost(fs.g, d, i, lo, x / BSIZE + 1) == 0
  {
    hide Addr, Addresses, Bits, InodeOk, SameFiles, Contents, Dense, SameSizes, Full, BBlock, MapWrites, AllLogged,
        Keeps, MovesOnly, MapCost, MapsInInode, ReadTo, ReadCost, Part, ReadLeaks;
    ghost var d1, own1 := Disk(fs.blocks, fs.inodes), fs.owner;
    ChunkOf(fs.g, d, i, x, m);
    if Dense(fs.g, d, i) {
      DenseAt(fs.g, d, i, x);
    }
    CostHere(fs.g, d, own, d1, own1, i, lo, x / BSIZE);
    var addr;
    ok, addr := fs.Bmap(i, x / BSIZE, outstanding);
    bytes := [];
    if ok {
      ghost var d2 := Disk(fs.blocks, fs.inodes);
      SameTwice(fs.g, d, d1, d2);
      SizesTwice(d.inodes, d1.inodes, d2.inodes, i);
      SameAt(fs.g, d, d2, i, x / BSIZE);
      MetaFirst(fs.g, d2);
      ReadNext(fs.g, d, own, d1, own1, d2, fs.owner, i, lo, x / BSIZE);
      bytes := fs.blocks[addr].at[x % BSIZE..x % BSIZE + m];
      PartIs(Contents(fs.g, d, i), x, m);
    }
  }

  lemma MetaFirst(g: Super, d: Disk)
    requires Shape(g, d)
    ensures 0 < g.meta
  {
  }

  lemma PartIs(c: seq<Byte>, x: nat, m: nat)
    requires x + m <= |c|
    ensures Part(c, x, m) == c[x..x + m]
  {
  }

  lemma CostHere(g: Super, d: Disk, own: Owners, d1: Disk, own1: Owners, i: nat, lo: nat, n: nat)
    requires Shape(g, d) && Shape(g, d1) && i < g.ninodes && n < MAXFILE && ReadTo(g, d, own, d1, own1, i, lo, n)
    ensures |own1| == |own| + ReadCost(g, d, i, lo, n)
    ensures ReadCost(g, d, i, lo, n + 1) == ReadCost(g, d, i, lo, n) + MapCost(g, d1, i, n)
  {
    CostNext(g, d, own, d1, own1, i, lo, n);
  }

  lemma SizesSelf(a: seq<Inode>, i: nat)
    requires i < |a|
    ensures SameSizes(a, a, i)
  {
  }

  lemma SizesTwice(a: seq<Inode>, b: seq<Inode>, c: seq<Inode>, i: nat)
    requires SameSizes(a, b, i) && SameSizes(b, c, i)
    ensures SameSizes(a, c, i)
  {
  }

  lemma InodeSize(g: Super, d: Disk, i: nat)
    requires Shape(g, d) && i < g.ninodes
    ensures d.inodes[i].size <= MAXFILE * BSIZE
  {
  }

  lemma SameAt(g: Super, d: Disk, d': Disk, i: nat, n: nat)
    requires Shape(g, d) && Shape(g, d') && SameFiles(g, d, d') && i < g.ninodes && n < MAXFILE
    ensures FileBlock(g, d', i, n) == FileBlock(g, d, i, n)
  {
    hide FileBlock;
    assert SameFile(g, d, d', i);
  }

  // ---------------------------------------------------------------- writing one chunk

  /** File i has changed by bytes s at position x, and by nothing else. */
  ghost predicate Wrote(g: Super, d: Disk, d': Disk, i: nat, x: nat, s: seq<Byte>)
    requires Shape(g, d) && Shape(g, d') && i < g.ninodes
  {
    forall y :: 0 <= y < MAXFILE * BSIZE ==>
        ByteAt(g, d', i, y) == if x <= y < x + |s| then s[y - x] else ByteAt(g, d, i, y)
  }

  /** The map has grown: no address moved, and sizes and files other than i are as they were. */
  ghost predicate GrewOnly(g: Super, d: Disk, d': Disk, i: nat)
    requires Shape(g, d) && Shape(g, d') && i < g.ninodes
  {
    OthersSame(g, d, d', i) && Keeps(g, d, d') && SameSizes(d.inodes, d'.inodes, i)
  }

  /** Patching the disk block of a file block writes those bytes to the file. */
  lemma PatchWrites(g: Super, d: Disk, d': Disk, own: Owners, i: nat, x: nat, s: seq<Byte>, addr: nat)
    requires Addresses(g, d, own) && i < g.ninodes && x / BSIZE < MAXFILE && x % BSIZE + |s| <= BSIZE
    requires addr == Addr(g, d, i, Slot(x / BSIZE)) && 0 < addr < g.size
    requires d' == Disk(d.blocks[addr := Patch(d.blocks[addr], x % BSIZE, s)], d.inodes)
    ensures Addresses(g, d', own) && GrewOnly(g, d, d', i) && Wrote(g, d, d', i, x, s)
    ensures forall j, k :: 0 <= j < g.ninodes && 0 <= k < SLOTS ==> Addr(g, d', j, k) == Addr(g, d, j, k)
  {
    DataWrite(g, d, d', own, i, x / BSIZE, Patch(d.blocks[addr], x % BSIZE, s));
    assert FileBlock(g, d, i, x / BSIZE) == d.blocks[addr];
    hide Addr, InodeOk, FileBlock, Patch;
    assert forall j :: 0 <= j < g.ninodes && j != i ==> SameFile(g, d, d', j);
    forall y | 0 <= y < MAXFILE * BSIZE
      ensures ByteAt(g, d', i, y) == if x <= y < x + |s| then s[y - x] else ByteAt(g, d, i, y)
    {
      PatchPosition(x, y, |s|);
    }
  }

  lemma PatchPosition(x: nat, y: nat, n: nat)
    requires x % BSIZE + n <= BSIZE
    ensures x <= y < x + n <==> y / BSIZE == x / BSIZE && x % BSIZE <= y % BSIZE < x % BSIZE + n
    ensures y / BSIZE == x / BSIZE ==> y % BSIZE - x % BSIZE == y - x
  {
    assert x == BSIZE * (x / BSIZE) + x % BSIZE;
    assert y == BSIZE * (y / BSIZE) + y % BSIZE;
  }

  lemma AfterSame(g: Super, d: Disk, d1: Disk, d2: Disk, i: nat, x: nat, s: seq<Byte>)
    requires Shape(g, d) && Shape(g, d1) && Shape(g, d2) && i < g.ninodes
    requires SameFiles(g, d, d1) && Keeps(g, d, d1) && SameSizes(d.inodes, d1.inodes, i)
    requires GrewOnly(g, d1, d2, i) && Wrote(g, d1, d2, i, x, s)
    ensures GrewOnly(g, d, d2, i) && Wrote(g, d, d2, i, x, s)
  {
    hide Addr, InodeOk, FileBlock;
    assert SameFile(g, d, d1, i);
    forall j | 0 <= j < g.ninodes && j != i ensures SameFile(g, d, d2, j) && d2.inodes[j] == d.inodes[j] {
      assert SameFile(g, d, d1, j) && SameFile(g, d1, d2, j);
    }
  }

  /** What one chunk logs: its data block when it is written out, and what mapping it took. */
  function ChunkWrites(g: Super, was: nat, addr: nat, wasInd: nat, ind: nat, n: nat, out: bool): set<nat> {
    (if out then {addr} else {})
    + if was == 0 then {addr, BBlock(g, addr)} + MapWrites(g, wasInd, ind, n) else {}
  }

  /** How mapping block n may change the address of the indirect block. */
  predicate IndStep(g: Super, was: nat, wasInd: nat, ind: nat, n: nat) {
    && ind < g.size && (n >= NDIRECT ==> ind != 0)
    && (wasInd != 0 || n < NDIRECT || was != 0 ==> ind == wasInd)
  }

  lemma IndStepped(g: Super, d: Disk, d': Disk, own: Owners, i: nat, n: nat)
    requires Shape(g, d) && Addresses(g, d', own) && i < g.ninodes && n < MAXFILE && Keeps(g, d, d')
    requires Addr(g, d', i, Slot(n)) != 0
    requires n < NDIRECT || Addr(g, d, i, Slot(n)) != 0 ==> Addr(g, d', i, NDIRECT) == Addr(g, d, i, NDIRECT)
    ensures IndStep(g, Addr(g, d, i, Slot(n)), Addr(g, d, i, NDIRECT), Addr(g, d', i, NDIRECT), n)
  {
    hide WordAt;
    assert PointsRight(g, d', own, i, NDIRECT);
  }

  /** Bytes s have been put at position x of file i, in block addr, with this much logged. */
  ghost predicate ChunkDone(g: Super, d: Disk, d': Disk, i: nat, x: nat, s: seq<Byte>, out: bool, addr: nat,
                            logged: set<nat>, logged': set<nat>)
    requires Shape(g, d) && Shape(g, d') && i < g.ninodes && x / BSIZE < MAXFILE
  {
    var n := x / BSIZE;
    && GrewOnly(g, d, d', i) && MovesOnly(g, d, d', i, n) && Wrote(g, d, d', i, x, s)
    && g.meta <= addr < g.size && Addr(g, d', i, Slot(n)) == addr
    && logged' == logged + ChunkWrites(g, Addr(g, d, i, Slot(n)), addr, Addr(g, d, i, NDIRECT),
                                       Addr(g, d', i, NDIRECT), n, out)
    && IndStep(g, Addr(g, d, i, Slot(n)), Addr(g, d, i, NDIRECT), Addr(g, d', i, NDIRECT), n)
    && AllLogged(d.blocks, d'.blocks, if out then logged' else logged' + {addr})
  }

  /** These blocks hold inodes, the bitmap or files. */
  predicate Inside(g: Super, s: set<nat>) {
    forall b :: b in s ==> g.inodestart <= b < g.size
  }

  lemma ChunkInside(g: Super, d: Disk, own: Owners, i: nat, was: nat, addr: nat, wasInd: nat, n: nat, out: bool,
                    logged: set<nat>)
    requires Addresses(g, d, own) && i < g.ninodes && g.meta <= addr < g.size && Inside(g, logged)
    requires n >= NDIRECT ==> Addr(g, d, i, NDIRECT) != 0
    ensures Inside(g, logged + ChunkWrites(g, was, addr, wasInd, Addr(g, d, i, NDIRECT), n, out))
  {
    assert PointsRight(g, d, own, i, NDIRECT);
    hide Addresses, Addr, ChunkWrites, Inside;
    WritesInside(g, was, addr, wasInd, Addr(g, d, i, NDIRECT), n, out, logged);
  }

  lemma WritesInside(g: Super, was: nat, addr: nat, wasInd: nat, ind: nat, n: nat, out: bool, logged: set<nat>)
    requires Sane(g) && g.meta <= addr < g.size && Inside(g, logged)
    requires (n >= NDIRECT ==> ind != 0) && (ind == 0 || g.meta <= ind < g.size)
    ensures Inside(g, logged + ChunkWrites(g, was, addr, wasInd, ind, n, out))
  {
    hide BBlock, Sane;
    MapInside(g, addr);
    if ind != 0 {
      MapInside(g, ind);
    }
  }

  lemma MapInside(g: Super, b: nat)
    requires Sane(g) && b < g.size
    ensures g.inodestart <= BBlock(g, b) < g.size && g.inodestart <= g.meta
  {
    MapBelow(g, b);
  }

  /** Maps the block at position x and puts s there; logs the block when `out` says so. */
  method WriteChunk(fs: Fs, i: nat, x: nat, s: seq<Byte>, out: bool) returns (ok: bool, addr: nat)
    requires fs.Valid() && i < fs.g.ninodes && x / BSIZE < MAXFILE && x % BSIZE + |s| <= BSIZE
    modifies fs`blocks, fs`inodes, fs`logged, fs`owner
    ensures !ok ==> Full(fs.g, fs.blocks)
    ensures ok ==> fs.Valid()
    ensures ok ==> ChunkDone(fs.g, old(Disk(fs.blocks, fs.inodes)), Disk(fs.blocks, fs.inodes), i, x, s, out, addr,
                             old(fs.logged), fs.logged)
    ensures ok && Inside(fs.g, old(fs.logged)) ==> Inside(fs.g, fs.logged)
  {
    hide Addr, Addresses, Bits, InodeOk, SameFiles, Patch, Wrote, GrewOnly, BBlock, Keeps, SameSizes, MapWrites,
        IndStep, Inside, MapCost, MapsInInode, Fs.Spare, Sane, Full, ChunkDone, ChunkWrites, MovesOnly, AllLogged;
    ghost var d, logged := Disk(fs.blocks, fs.inodes), fs.logged;
    ok, addr := fs.Bmap(i, x / BSIZE, 1);
    if ok {
      ghost var d1, logged1 := Disk(fs.blocks, fs.inodes), fs.logged;
      MetaFirst(fs.g, d1);
      fs.blocks := fs.blocks[addr := Patch(fs.blocks[addr], x % BSIZE, s)];
      if out {
        fs.logged := fs.logged + {addr};
      }
      ChunkMade(fs.g, d, d1, Disk(fs.blocks, fs.inodes), fs.owner, i, x, s, out, addr, logged, logged1);
    }
  }

  lemma ChunkMade(g: Super, d: Disk, d1: Disk, d2: Disk, own: Owners, i: nat, x: nat, s: seq<Byte>, out: bool,
                  addr: nat, logged: set<nat>, logged1: set<nat>)
    requires Shape(g, d) && Addresses(g, d1, own) && Bits(g, d1.blocks, own) && i < g.ninodes && x / BSIZE < MAXFILE
    requires x % BSIZE + |s| <= BSIZE && 0 < g.meta <= addr < g.size && Addr(g, d1, i, Slot(x / BSIZE)) == addr
    requires SameFiles(g, d, d1) && Keeps(g, d, d1) && SameSizes(d.inodes, d1.inodes, i)
    requires MovesOnly(g, d, d1, i, x / BSIZE) && AllLogged(d.blocks, d1.blocks, logged1)
    requires x / BSIZE < NDIRECT || Addr(g, d, i, Slot(x / BSIZE)) != 0 ==>
               Addr(g, d1, i, NDIRECT) == Addr(g, d, i, NDIRECT)
    requires logged1 == if Addr(g, d, i, Slot(x / BSIZE)) != 0 then logged
        else logged + {addr, BBlock(g, addr)}
             + MapWrites(g, Addr(g, d, i, NDIRECT), Addr(g, d1, i, NDIRECT), x / BSIZE)
    requires d2 == Disk(d1.blocks[addr := Patch(d1.blocks[addr], x % BSIZE, s)], d1.inodes)
    ensures Addresses(g, d2, own) && Bits(g, d2.blocks, own)
    ensures var logged2 := if out then logged1 + {addr} else logged1;
            && ChunkDone(g, d, d2, i, x, s, out, addr, logged, logged2)
            && (Inside(g, logged) ==> Inside(g, logged2))
  {
    hide Addr, Addresses, Bits, InodeOk, SameFiles, Patch, Wrote, GrewOnly, BBlock, Keeps, SameSizes, MapWrites,
        IndStep, Inside, Sane;
    IndStepped(g, d, d1, own, i, x / BSIZE);
    PatchWrites(g, d1, d2, own, i, x, s, addr);
    AfterSame(g, d, d1, d2, i, x, s);
    BitsKept(g, d1.blocks, d2.blocks, own);
    if Inside(g, logged) {
      IndThere(g, d2, i, x / BSIZE);
      ChunkInside(g, d2, own, i, Addr(g, d, i, Slot(x / BSIZE)), addr, Addr(g, d, i, NDIRECT), x / BSIZE, out, logged);
    }
  }

  lemma IndThere(g: Super, d: Disk, i: nat, n: nat)
    requires Shape(g, d) && i < g.ninodes && n < MAXFILE && Addr(g, d, i, Slot(n)) != 0
    ensures n >= NDIRECT ==> Addr(g, d, i, NDIRECT) != 0
  {
  }

  lemma WroteTwice(g: Super, d: Disk, d1: Disk, d2: Disk, i: nat, x: nat, s: seq<Byte>, t: seq<Byte>)
    requires Shape(g, d) && Shape(g, d1) && Shape(g, d2) && i < g.ninodes
    requires GrewOnly(g, d, d1, i) && Wrote(g, d, d1, i, x, s)
    requires GrewOnly(g, d1, d2, i) && Wrote(g, d1, d2, i, x + |s|, t)
    ensures GrewOnly(g, d, d2, i) && Wrote(g, d, d2, i, x, s + t)
  {
    hide Addr, InodeOk, ByteAt;
    OthersTwice(g, d, d1, d2, i);
    forall y | 0 <= y < MAXFILE * BSIZE
      ensures ByteAt(g, d2, i, y) == if x <= y < x + |s + t| then (s + t)[y - x] else ByteAt(g, d, i, y)
    {
    }
  }

  lemma WroteNothing(g: Super, d: Disk, i: nat, x: nat)
    requires Shape(g, d) && i < g.ninodes
    ensures GrewOnly(g, d, d, i) && Wrote(g, d, d, i, x, [])
  {
    OthersSelf(g, d, i);
  }

  // ---------------------------------------------------------------- how much a write logs

  /** Block c is one of the bitmap's. */
  predicate IsMap(g: Super, c: nat) {
    g.size > 0 && g.bmapstart <= c <= g.bmapstart + (g.size - 1) / BPB
  }

  lemma MapOf(g: Super, b: nat)
    requires b < g.size
    ensures IsMap(g, BBlock(g, b))
  {
  }

  /** The blocks a write has logged, by kind: data blocks, bitmap blocks, the indirect block. */
  datatype Bill = Bill(data: set<nat>, maps: set<nat>, inds: set<nat>)

  predicate AllMaps(g: Super, s: set<nat>) {
    forall c :: c in s ==> IsMap(g, c)
  }

  /**
   The bill of a write that has mapped t blocks, f of which were new, since the
   indirect block was wasInd; it is ind now.
   */
  predicate Paid(g: Super, before: set<nat>, now: set<nat>, bill: Bill, t: nat, f: nat, wasInd: nat, ind: nat) {
    && now == before + bill.data + bill.maps + bill.inds
    && |bill.data| <= t && (bill.inds == {} || bill.inds == {ind}) && (ind == 0 ==> bill.inds == {})
    && |bill.maps| <= f + (if wasInd == 0 && ind != 0 then 1 else 0)
    && AllMaps(g, bill.maps)
  }

  lemma AddOne(s: set<nat>, x: nat)
    ensures |s + {x}| <= |s| + 1
  {
    if x in s {
      assert s + {x} == s;
    }
  }

  lemma PaidOld(g: Super, before: set<nat>, now: set<nat>, bill: Bill, t: nat, f: nat, ind0: nat, ind: nat, addr: nat)
    requires Paid(g, before, now, bill, t, f, ind0, ind)
    ensures Paid(g, before, now + {addr}, Bill(bill.data + {addr}, bill.maps, bill.inds), t + 1, f, ind0, ind)
  {
    hide IsMap;
    AddOne(bill.data, addr);
    assert now + {addr} == before + (bill.data + {addr}) + bill.maps + bill.inds;
  }

  lemma PaidNew(g: Super, before: set<nat>, now: set<nat>, bill: Bill, t: nat, f: nat, ind0: nat, ind: nat, addr: nat)
    requires Paid(g, before, now, bill, t, f, ind0, ind) && addr < g.size
    ensures Paid(g, before, now + {addr, BBlock(g, addr)},
                 Bill(bill.data + {addr}, bill.maps + {BBlock(g, addr)}, bill.inds), t + 1, f + 1, ind0, ind)
  {
    MapOf(g, addr);
    hide IsMap, BBlock;
    AddOne(bill.data, addr);
    AddOne(bill.maps, BBlock(g, addr));
    assert now + {addr, BBlock(g, addr)}
        == before + (bill.data + {addr}) + (bill.maps + {BBlock(g, addr)}) + bill.inds;
  }

  lemma PaidIndirect(g: Super, before: set<nat>, now: set<nat>, bill: Bill, t: nat, f: nat, ind0: nat, was: nat,
                     ind: nat)
    requires Paid(g, before, now, bill, t, f, ind0, was) && 0 < ind < g.size
    requires (was != 0 ==> ind == was) && (ind0 != 0 ==> was == ind0)
    ensures var maps := if was == 0 then {BBlock(g, ind)} else {};
            Paid(g, before, now + ({ind} + maps), Bill(bill.data, bill.maps + maps, bill.inds + {ind}), t, f, ind0, ind)
  {
    MapOf(g, ind);
    hide IsMap, BBlock;
    AddOne(bill.maps, BBlock(g, ind));
    var none: set<nat> := {};
    assert bill.inds + {ind} == {ind};
    if was == 0 {
      Regroup(now, before, bill, {ind}, {BBlock(g, ind)});
    } else {
      assert bill.maps + none == bill.maps;
      Regroup(now, before, bill, {ind}, none);
    }
  }

  lemma Regroup(now: set<nat>, before: set<nat>, bill: Bill, inds: set<nat>, maps: set<nat>)
    requires now == before + bill.data + bill.maps + bill.inds
    ensures now + (inds + maps) == before + bill.data + (bill.maps + maps) + (bill.inds + inds)
  {
  }

  function NextBill(g: Super, bill: Bill, was: nat, addr: nat, wasInd: nat, ind: nat, n: nat): Bill {
    if was != 0 then Bill(bill.data + {addr}, bill.maps, bill.inds)
    else if n < NDIRECT then Bill(bill.data + {addr}, bill.maps + {BBlock(g, addr)}, bill.inds)
    else Bill(bill.data + {addr}, bill.maps + {BBlock(g, addr)} + (if wasInd == 0 then {BBlock(g, ind)} else {}),
              bill.inds + {ind})
  }

  /** One more chunk on the bill. */
  lemma PaidStep(g: Super, before: set<nat>, now: set<nat>, bill: Bill, t: nat, f: nat, ind0: nat,
                 was: nat, addr: nat, wasInd: nat, ind: nat, n: nat, out: bool)
    requires Paid(g, before, now, bill, t, f, ind0, wasInd) && (out || was == 0)
    requires addr < g.size && ind < g.size && (wasInd != 0 ==> ind == wasInd) && (ind0 != 0 ==> wasInd == ind0)
    requires n >= NDIRECT ==> ind != 0
    requires n < NDIRECT || was != 0 ==> ind == wasInd
    ensures Paid(g, before, now + ChunkWrites(g, was, addr, wasInd, ind, n, out),
                 NextBill(g, bill, was, addr, wasInd, ind, n), t + 1, if was == 0 then f + 1 else f, ind0, ind)
  {
    hide BBlock, Paid;
    if was != 0 {
      PaidOld(g, before, now, bill, t, f, ind0, ind, addr);
      assert ChunkWrites(g, was, addr, wasInd, ind, n, out) == {addr};
    } else {
      PaidNew(g, before, now, bill, t, f, ind0, wasInd, addr);
      var now1 := now + {addr, BBlock(g, addr)};
      if n < NDIRECT {
        assert ChunkWrites(g, was, addr, wasInd, ind, n, out) == {addr, BBlock(g, addr)};
      } else {
        PaidIndirect(g, before, now1, Bill(bill.data + {addr}, bill.maps + {BBlock(g, addr)}, bill.inds), t + 1, f + 1,
                     ind0, wasInd, ind);
        assert now1 + MapWrites(g, wasInd, ind, n) == now + ChunkWrites(g, was, addr, wasInd, ind, n, out);
      }
    }
  }

  /** The most a bill comes to, with the inode's own block. */
  lemma PaidTotal(g: Super, before: set<nat>, now: set<nat>, bill: Bill, t: nat, f: nat, wasInd: nat, ind: nat,
                  inode: nat)
    requires Paid(g, before, now, bill, t, f, wasInd, ind)
    ensures var used := bill.data + bill.maps + bill.inds + {inode};
            && now + {inode} == before + used && |used| <= t + f + 3
            && (g.size <= BPB ==> |used| <= t + 3)
  {
    var used := bill.data + bill.maps + bill.inds + {inode};
    assert now + {inode} == before + used;
    if g.size <= BPB {
      OneMap(g, bill.maps);
    }
  }

  lemma OneMap(g: Super, s: set<nat>)
    requires AllMaps(g, s) && g.size <= BPB
    ensures |s| <= 1
  {
    if s != {} {
      var c :| c in s;
      assert IsMap(g, c);
      assert (g.size - 1) / BPB == 0;
      forall x | x in s ensures x == c {
        assert IsMap(g, x);
      }
      assert s == {c};
    }
  }

  // ---------------------------------------------------------------- writing

  /** How many blocks n bytes at off touch. */
  function Spans(off: nat, n: nat): nat {
    if n == 0 then 0 else (off % BSIZE + n + BSIZE - 1) / BSIZE
  }

  /**
   The bytes a write counts when the first `good` of its n bytes can be read: all of
   them, or those before the last block boundary at or below the fault.
   */
  function Counted(off: nat, n: nat, good: nat): (t: nat)
    requires good <= n
    ensures t <= good && (t == n <==> good == n)
    ensures good < n ==> (t == 0 || (off + t) % BSIZE == 0) && (off + good) / BSIZE == (off + t) / BSIZE
  {
    var edge := (off + good) / BSIZE * BSIZE;
    if good == n then n else if edge <= off then 0 else edge - off
  }

  /** The chunk that does not fit below the fault is where the count stops. */
  lemma CountedStop(off: nat, tot: nat, n: nat, good: nat)
    requires tot < n && (tot == 0 || (off + tot) % BSIZE == 0)
    requires tot <= good < tot + Min(n - tot, BSIZE - (off + tot) % BSIZE)
    ensures tot == Counted(off, n, good)
  {
    assert (off + good) / BSIZE == (off + tot) / BSIZE by { InChunk(off + tot, good - tot); }
    assert off + tot == (off + tot) / BSIZE * BSIZE + (off + tot) % BSIZE;
  }

  /** A chunk that fits below the fault lies in an earlier block than the fault's. */
  lemma CountedMore(off: nat, tot: nat, n: nat, good: nat)
    requires tot < n && good < n && tot + Min(n - tot, BSIZE - (off + tot) % BSIZE) <= good
    ensures (off + tot) / BSIZE < (off + Counted(off, n, good)) / BSIZE
  {
    var m := BSIZE - (off + tot) % BSIZE;
    assert off + tot == (off + tot) / BSIZE * BSIZE + (off + tot) % BSIZE;
    assert off + tot + m == ((off + tot) / BSIZE + 1) * BSIZE;
    assert (off + good) / BSIZE >= (off + tot) / BSIZE + 1;
  }

  /** Every block of a dense file that begins below x has been allocated. */
  predicate Reached(g: Super, d: Disk, i: nat, x: nat)
    requires Shape(g, d) && i < g.ninodes
  {
    forall n :: 0 <= n < MAXFILE && n * BSIZE < x ==> Addr(g, d, i, Slot(n)) != 0
  }

  lemma ReachedMore(g: Super, d: Disk, d': Disk, i: nat, x: nat, y: nat)
    requires Shape(g, d) && Shape(g, d') && i < g.ninodes && Keeps(g, d, d')
    requires Reached(g, d, i, x) && x / BSIZE < MAXFILE && Addr(g, d', i, Slot(x / BSIZE)) != 0
    requires x <= y && y <= x - x % BSIZE + BSIZE
    ensures Reached(g, d', i, y)
  {
    hide Addr;
    forall n | 0 <= n < MAXFILE && n * BSIZE < y ensures Addr(g, d', i, Slot(n)) != 0 {
      assert n * BSIZE < x || n == x / BSIZE;
      assert n * BSIZE < x ==> Addr(g, d, i, Slot(n)) != 0;
    }
  }

  lemma SpansMore(off: nat, tot: nat, m: nat)
    requires m > 0 && (tot == 0 || (off + tot) % BSIZE == 0)
    ensures Spans(off, tot) < Spans(off, tot + m)
  {
    if tot > 0 {
      assert (off % BSIZE + tot) % BSIZE == 0;
    }
  }

  lemma SpansMono(off: nat, m: nat, n: nat)
    requires m <= n
    ensures Spans(off, m) <= Spans(off, n)
  {
  }

  /** The blocks a write has mapped, how many of them were new, and what it logged. */
  datatype Work = Work(t: nat, f: nat, bill: Bill)

  /** A write that began at off has put s there, reaching x, and has done this much work. */
  ghost predicate Progress(g: Super, d: Disk, d': Disk, i: nat, off: nat, s: seq<Byte>, x: nat,
                           before: set<nat>, now: set<nat>, w: Work)
    requires Shape(g, d) && Shape(g, d') && i < g.ninodes
  {
    && GrewOnly(g, d, d', i) && Wrote(g, d, d', i, off, s)
    && Paid(g, before, now, w.bill, w.t, w.f, Addr(g, d, i, NDIRECT), Addr(g, d', i, NDIRECT))
    && w.f <= w.t && (Dense(g, d, i) && off % BSIZE != 0 && w.t > 0 ==> w.f < w.t)
    && (Dense(g, d, i) ==> Reached(g, d', i, x))
  }

  lemma ProgressStart(g: Super, d: Disk, i: nat, off: nat, logged: set<nat>)
    requires Shape(g, d) && i < g.ninodes && off <= d.inodes[i].size
    ensures Progress(g, d, d, i, off, [], off, logged, logged, Work(0, 0, Bill({}, {}, {})))
  {
    hide Addr, InodeOk;
    WroteNothing(g, d, i, off);
  }

  /** A chunk that found its block new: not the first, unaligned block of a dense file. */
  lemma NewIsAligned(g: Super, d: Disk, i: nat, x: nat)
    requires Shape(g, d) && i < g.ninodes && Reached(g, d, i, x) && x / BSIZE < MAXFILE
    requires Addr(g, d, i, Slot(x / BSIZE)) == 0
    ensures x % BSIZE == 0
  {
    hide Addr;
    assert x == x / BSIZE * BSIZE + x % BSIZE;
  }

  lemma ProgressStep(g: Super, d: Disk, d1: Disk, d2: Disk, i: nat, off: nat, s: seq<Byte>, chunk: seq<Byte>, y: nat,
                     before: set<nat>, now: set<nat>, w: Work, addr: nat, out: bool) returns (w': Work)
    requires Shape(g, d) && Shape(g, d1) && Shape(g, d2) && i < g.ninodes
    requires Progress(g, d, d1, i, off, s, off + |s|, before, now, w) && (|s| > 0 ==> w.t > 0)
    requires var x := off + |s|;
             && x / BSIZE < MAXFILE && GrewOnly(g, d1, d2, i) && Wrote(g, d1, d2, i, x, chunk)
             && 0 < addr < g.size && Addr(g, d2, i, Slot(x / BSIZE)) == addr
             && IndStep(g, Addr(g, d1, i, Slot(x / BSIZE)), Addr(g, d1, i, NDIRECT), Addr(g, d2, i, NDIRECT), x / BSIZE)
             && x <= y <= x - x % BSIZE + BSIZE
    ensures Progress(g, d, d2, i, off, s + chunk, y, before,
                     now + ChunkWrites(g, Addr(g, d1, i, Slot((off + |s|) / BSIZE)), addr, Addr(g, d1, i, NDIRECT),
                                       Addr(g, d2, i, NDIRECT), (off + |s|) / BSIZE, out), w')
    ensures w'.t <= w.t + 1 && (out ==> w'.t > 0)
  {
    hide Addr, InodeOk, Wrote, Dense, Reached, Paid, ChunkWrites, NextBill, Keeps, SameSizes, OthersSame;
    var x := off + |s|;
    var was, wasInd, ind := Addr(g, d1, i, Slot(x / BSIZE)), Addr(g, d1, i, NDIRECT), Addr(g, d2, i, NDIRECT);
    WroteTwice(g, d, d1, d2, i, off, s, chunk);
    if Dense(g, d, i) {
      ReachedMore(g, d1, d2, i, x, y);
      if was == 0 {
        NewIsAligned(g, d1, i, x);
      }
    }
    if out || was == 0 {
      SameInd(g, d, d1, i);
      PaidStep(g, before, now, w.bill, w.t, w.f, Addr(g, d, i, NDIRECT), was, addr, wasInd, ind, x / BSIZE, out);
      w' := Work(w.t + 1, if was == 0 then w.f + 1 else w.f, NextBill(g, w.bill, was, addr, wasInd, ind, x / BSIZE));
    } else {
      NoWrites(g, was, addr, wasInd, ind, x / BSIZE, now);
      w' := w;
    }
  }

  lemma SameInd(g: Super, d: Disk, d': Disk, i: nat)
    requires Shape(g, d) && Shape(g, d') && i < g.ninodes && Keeps(g, d, d')
    ensures Addr(g, d, i, NDIRECT) != 0 ==> Addr(g, d', i, NDIRECT) == Addr(g, d, i, NDIRECT)
  {
  }

  lemma NoWrites(g: Super, was: nat, addr: nat, wasInd: nat, ind: nat, n: nat, now: set<nat>)
    requires was != 0
    ensures now + ChunkWrites(g, was, addr, wasInd, ind, n, false) == now
  {
  }

  lemma LoggedTwice(a: seq<Block>, b: seq<Block>, c: seq<Block>, l1: set<nat>, l2: set<nat>)
    requires AllLogged(a, b, l1) && AllLogged(b, c, l2) && l1 <= l2
    ensures AllLogged(a, c, l2)
  {
  }

  lemma NextChunk(off: nat, tot: nat, n: nat)
    requires tot < n && off + n <= MAXFILE * BSIZE
    ensures var m := Min(n - tot, BSIZE - (off + tot) % BSIZE);
            && 0 < m && tot + m <= n && (off + tot) % BSIZE + m <= BSIZE && (off + tot) / BSIZE < MAXFILE
            && (tot + m == n || (off + tot + m) % BSIZE == 0)
  {
  }

  /** The block at place k of file i is still the one it was, and is logged only if it was. */
  ghost predicate Untouched(g: Super, d: Disk, d': Disk, i: nat, k: nat, before: set<nat>, now: set<nat>)
    requires Shape(g, d) && Shape(g, d') && i < g.ninodes && k < SLOTS
  {
    var b := Addr(g, d, i, k);
    Addr(g, d', i, k) == b && (b != 0 && b !in before ==> b !in now)
  }

  /** Writing another block of the file leaves the block at place k alone. */
  lemma UntouchedStep(g: Super, d: Disk, d1: Disk, d2: Disk, own: Owners, i: nat, n: nat, k: nat,
                      before: set<nat>, now: set<nat>, addr: nat, out: bool)
    requires Shape(g, d) && Shape(g, d1) && Addresses(g, d2, own) && i < g.ninodes && n < MAXFILE && k < SLOTS
    requires Untouched(g, d, d1, i, k, before, now) && k != Slot(n) && k != NDIRECT
    requires MovesOnly(g, d1, d2, i, n) && Addr(g, d2, i, Slot(n)) == addr && 0 < addr < g.size
    ensures Untouched(g, d, d2, i, k, before,
                      now + ChunkWrites(g, Addr(g, d1, i, Slot(n)), addr, Addr(g, d1, i, NDIRECT),
                                        Addr(g, d2, i, NDIRECT), n, out))
  {
    hide Addr, InodeOk;
    var b := Addr(g, d, i, k);
    if b != 0 {
      assert Shape(g, d2);
      assert PointsRight(g, d2, own, i, k) && PointsRight(g, d2, own, i, Slot(n));
      assert PointsRight(g, d2, own, i, NDIRECT);
      MapBelow(g, addr);
      MapBelow(g, Addr(g, d2, i, NDIRECT));
    }
  }

  lemma MapBelow(g: Super, b: nat)
    requires Sane(g) && b < g.size
    ensures BBlock(g, b) < g.meta
  {
    assert b / BPB <= (g.size - 1) / BPB;
  }

  /**
   What it takes for every block that a write changes to be logged: no byte is copied
   past the last whole block, or the block of the fault is new, or it was logged
   already, or it held those bytes already.
   */
  ghost predicate Covered(g: Super, d: Disk, logged: set<nat>, i: nat, off: nat, src: seq<Byte>, good: nat)
    requires Shape(g, d) && i < g.ninodes && good <= |src| && off + |src| <= MAXFILE * BSIZE
  {
    var tot := Counted(off, |src|, good);
    || tot == good
    || Addr(g, d, i, Slot((off + tot) / BSIZE)) == 0
    || Addr(g, d, i, Slot((off + tot) / BSIZE)) in logged
    || forall y :: tot <= y < good ==> ByteAt(g, d, i, off + y) == src[y]
  }

  /** Two disks agree on a block of a file exactly if they agree on its bytes. */
  lemma BlockBytes(g: Super, d: Disk, d': Disk, i: nat, n: nat)
    requires Shape(g, d) && Shape(g, d') && i < g.ninodes && n < MAXFILE
    ensures FileBlock(g, d', i, n) == FileBlock(g, d, i, n)
            <==> forall y :: n * BSIZE <= y < n * BSIZE + BSIZE ==> ByteAt(g, d', i, y) == ByteAt(g, d, i, y)
  {
    hide FileBlock;
    var b, b' := FileBlock(g, d, i, n), FileBlock(g, d', i, n);
    if forall y :: n * BSIZE <= y < n * BSIZE + BSIZE ==> ByteAt(g, d', i, y) == ByteAt(g, d, i, y) {
      forall z | 0 <= z < BSIZE ensures b'.at[z] == b.at[z] {
        InChunk(n * BSIZE, z);
        assert ByteAt(g, d', i, n * BSIZE + z) == ByteAt(g, d, i, n * BSIZE + z);
      }
      assert b'.at == b.at;
    }
  }

  /** A faulting chunk changes its block exactly if it brings other bytes. */
  lemma TornBlock(g: Super, d: Disk, d': Disk, i: nat, off: nat, src: seq<Byte>, good: nat)
    requires Shape(g, d) && Shape(g, d') && i < g.ninodes && good < |src| && off + |src| <= MAXFILE * BSIZE
    requires Wrote(g, d, d', i, off, src[..good])
    ensures var tot := Counted(off, |src|, good);
            FileBlock(g, d', i, (off + tot) / BSIZE) == FileBlock(g, d, i, (off + tot) / BSIZE)
            <==> forall y :: tot <= y < good ==> ByteAt(g, d, i, off + y) == src[y]
  {
    hide Addr, InodeOk, FileBlock, ByteAt;
    var tot := Counted(off, |src|, good);
    var n := (off + tot) / BSIZE;
    BlockBytes(g, d, d', i, n);
    FaultBlock(off, |src|, good);
    forall y | tot <= y < good ensures ByteAt(g, d', i, off + y) == src[y] {
    }
  }

  /** The bytes past the count lie in the block of the fault, and no counted byte does. */
  lemma FaultBlock(off: nat, n: nat, good: nat)
    requires good < n
    ensures var tot := Counted(off, n, good);
            var base := (off + tot) / BSIZE * BSIZE;
            base <= off + tot && off + good < base + BSIZE && (tot > 0 ==> base == off + tot)
  {
  }

  /** When a write leaves every changed block logged. */
  lemma TornLogged(g: Super, d: Disk, d1: Disk, d2: Disk, i: nat, off: nat, src: seq<Byte>, good: nat,
                   before: set<nat>, now: set<nat>, addr: nat, writes: set<nat>, x: nat, w: Work)
    requires Shape(g, d) && Shape(g, d1) && Shape(g, d2) && i < g.ninodes
    requires good < |src| && off + |src| <= MAXFILE * BSIZE && before <= now
    requires var n := (off + Counted(off, |src|, good)) / BSIZE;
             && Untouched(g, d, d1, i, Slot(n), before, now) && Addr(g, d2, i, Slot(n)) == addr && 0 < addr < g.size
             && GrewOnly(g, d1, d2, i)
             && writes == ChunkWrites(g, Addr(g, d1, i, Slot(n)), addr, Addr(g, d1, i, NDIRECT),
                                      Addr(g, d2, i, NDIRECT), n, false)
    requires AllLogged(d.blocks, d2.blocks, now + writes + {addr})
    requires Progress(g, d, d2, i, off, src[..good], x, before, now + writes, w)
    ensures AllLogged(d.blocks, d2.blocks, now + writes) <==> Covered(g, d, before, i, off, src, good)
  {
    hide Addr, InodeOk, Wrote, BBlock, Reached, Paid, OthersSame, SameSizes;
    var tot := Counted(off, |src|, good);
    var n := (off + tot) / BSIZE;
    TornBlock(g, d, d2, i, off, src, good);
    var b := Addr(g, d, i, Slot(n));
    if b == 0 {
      assert addr in writes;
    } else {
      assert addr == b && writes == {};
      assert FileBlock(g, d, i, n) == d.blocks[b] && FileBlock(g, d2, i, n) == d2.blocks[b];
    }
  }

  /** The place of the block in which a write faults. */
  function FaultPlace(off: nat, n: nat, good: nat): (k: nat)
    requires good <= n && off + n <= MAXFILE * BSIZE
    ensures good < n ==> k < SLOTS && k != NDIRECT
  {
    Slot((off + Counted(off, n, good)) / BSIZE)
  }

  /** Where the loop of a write stands after `tot` bytes. */
  ghost predicate SoFar(g: Super, d: Disk, d': Disk, i: nat, off: nat, src: seq<Byte>, good: nat, tot: nat,
                        before: set<nat>, now: set<nat>, w: Work)
    requires Shape(g, d) && Shape(g, d') && i < g.ninodes && good <= |src| && off + |src| <= MAXFILE * BSIZE
  {
    && tot <= good && (tot == 0 || tot == |src| || (off + tot) % BSIZE == 0)
    && before <= now && w.t <= Spans(off, tot) && (tot > 0 ==> w.t > 0)
    && (good < |src| ==> Untouched(g, d, d', i, FaultPlace(off, |src|, good), before, now))
    && Progress(g, d, d', i, off, src[..tot], off + tot, before, now, w)
    && AllLogged(d.blocks, d'.blocks, now)
  }

  /** Where a write stands when it has stopped: the count, the bytes put in place, and what is not logged. */
  ghost predicate Stopped(g: Super, d: Disk, d': Disk, i: nat, off: nat, src: seq<Byte>, good: nat, tot: nat,
                          before: set<nat>, now: set<nat>, w: Work, torn: nat)
    requires Shape(g, d) && Shape(g, d') && i < g.ninodes && good <= |src| && off + |src| <= MAXFILE * BSIZE
  {
    && tot == Counted(off, |src|, good) && w.t <= Spans(off, |src|)
    && Progress(g, d, d', i, off, src[..good], off + tot, before, now, w)
    && (AllLogged(d.blocks, d'.blocks, now) <==> Covered(g, d, before, i, off, src, good))
    && AllLogged(d.blocks, d'.blocks, if tot < |src| then now + {torn} else now)
    && (tot < |src| ==> g.meta <= torn && torn == Addr(g, d', i, FaultPlace(off, |src|, good)))
  }

  lemma SoFarStart(g: Super, d: Disk, i: nat, off: nat, src: seq<Byte>, good: nat, logged: set<nat>)
    requires Shape(g, d) && i < g.ninodes && good <= |src| && off + |src| <= MAXFILE * BSIZE
    requires off <= d.inodes[i].size
    ensures SoFar(g, d, d, i, off, src, good, 0, logged, logged, Work(0, 0, Bill({}, {}, {})))
  {
    hide Addr, InodeOk, Progress;
    ProgressStart(g, d, i, off, logged);
    assert src[..0] == [];
  }

  lemma SoFarEnd(g: Super, d: Disk, d': Disk, i: nat, off: nat, src: seq<Byte>, good: nat, before: set<nat>,
                 now: set<nat>, w: Work)
    requires Shape(g, d) && Shape(g, d') && i < g.ninodes && good <= |src| && off + |src| <= MAXFILE * BSIZE
    requires SoFar(g, d, d', i, off, src, good, |src|, before, now, w)
    ensures Stopped(g, d, d', i, off, src, good, |src|, before, now, w, 0)
  {
    hide Addr, InodeOk, Progress, AllLogged, Untouched;
    assert src[..good] == src[..|src|];
  }

  /** The size of the next chunk: to the end of its block, or of the bytes to write. */
  function ChunkSize(off: nat, n: nat, tot: nat): (m: nat)
    requires tot < n
  {
    Min(n - tot, BSIZE - (off + tot) % BSIZE)
  }

  /** What a round has done that took a whole chunk. */
  lemma RoundWhole(g: Super, d: Disk, d1: Disk, d2: Disk, own: Owners, i: nat, off: nat, src: seq<Byte>, good: nat,
                   tot: nat, before: set<nat>, now: set<nat>, now2: set<nat>, w: Work, addr: nat) returns (w': Work)
    requires Shape(g, d) && Shape(g, d1) && Addresses(g, d2, own) && i < g.ninodes && tot < |src|
    requires good <= |src| && off + |src| <= MAXFILE * BSIZE
    requires SoFar(g, d, d1, i, off, src, good, tot, before, now, w)
    requires var m := ChunkSize(off, |src|, tot);
             && tot + m <= good && (off + tot) / BSIZE < MAXFILE
             && ChunkDone(g, d1, d2, i, off + tot, src[tot..tot + m], true, addr, now, now2)
    ensures SoFar(g, d, d2, i, off, src, good, tot + ChunkSize(off, |src|, tot), before, now2, w')
  {
    hide Addr, Addresses, InodeOk, Progress, BBlock, IndStep, Spans, GrewOnly, Wrote, ChunkWrites, AllLogged,
        Counted, Untouched, MovesOnly;
    var m := ChunkSize(off, |src|, tot);
    NextChunk(off, tot, |src|);
    SpansMore(off, tot, m);
    assert src[..tot] + src[tot..tot + m] == src[..tot + m];
    w' := ProgressStep(g, d, d1, d2, i, off, src[..tot], src[tot..tot + m], off + tot + m, before, now, w, addr, true);
    LoggedTwice(d.blocks, d1.blocks, d2.blocks, now, now2);
    if good < |src| {
      CountedMore(off, tot, |src|, good);
      UntouchedStep(g, d, d1, d2, own, i, (off + tot) / BSIZE, FaultPlace(off, |src|, good), before, now, addr, true);
    }
  }

  /** What a round has done that faulted. */
  lemma RoundFault(g: Super, d: Disk, d1: Disk, d2: Disk, i: nat, off: nat, src: seq<Byte>, good: nat, tot: nat,
                   before: set<nat>, now: set<nat>, now2: set<nat>, w: Work, addr: nat) returns (w': Work)
    requires Shape(g, d) && Shape(g, d1) && Shape(g, d2) && i < g.ninodes && tot < |src|
    requires good <= |src| && off + |src| <= MAXFILE * BSIZE
    requires SoFar(g, d, d1, i, off, src, good, tot, before, now, w)
    requires tot + ChunkSize(off, |src|, tot) > good && (off + tot) / BSIZE < MAXFILE
    requires ChunkDone(g, d1, d2, i, off + tot, src[tot..good], false, addr, now, now2)
    ensures Stopped(g, d, d2, i, off, src, good, tot, before, now2, w', addr)
  {
    hide Addr, InodeOk, Progress, BBlock, IndStep, Spans, GrewOnly, Wrote, ChunkWrites, AllLogged, Counted, Untouched,
        Covered, MovesOnly;
    var m, n := ChunkSize(off, |src|, tot), (off + tot) / BSIZE;
    NextChunk(off, tot, |src|);
    SpansMore(off, tot, m);
    SpansMono(off, tot + m, |src|);
    CountedStop(off, tot, |src|, good);
    assert src[..tot] + src[tot..good] == src[..good];
    w' := ProgressStep(g, d, d1, d2, i, off, src[..tot], src[tot..good], off + tot, before, now, w, addr, false);
    LoggedTwice(d.blocks, d1.blocks, d2.blocks, now, now2 + {addr});
    TornLogged(g, d, d1, d2, i, off, src, good, before, now, addr,
               ChunkWrites(g, Addr(g, d1, i, Slot(n)), addr, Addr(g, d1, i, NDIRECT),
                           Addr(g, d2, i, NDIRECT), n, false),
               off + tot, w');
  }

  /** One round of a write: a whole chunk, or as much of one as could be read. */
  method WriteRound(fs: Fs, i: nat, off: nat, src: seq<Byte>, good: nat, tot: nat, ghost d: Disk,
                    ghost before: set<nat>, ghost w: Work)
    returns (ok: bool, m: nat, ghost w': Work, ghost torn: nat)
    requires fs.Valid() && i < fs.g.ninodes && good <= |src| && off + |src| <= MAXFILE * BSIZE && Shape(fs.g, d)
    requires SoFar(fs.g, d, Disk(fs.blocks, fs.inodes), i, off, src, good, tot, before, fs.logged, w) && tot < |src|
    modifies fs`blocks, fs`inodes, fs`logged, fs`owner
    ensures !ok ==> Full(fs.g, fs.blocks)
    ensures ok ==> fs.Valid() && m > 0 && tot + m <= |src|
    ensures ok && tot + m <= good ==>
              SoFar(fs.g, d, Disk(fs.blocks, fs.inodes), i, off, src, good, tot + m, before, fs.logged, w')
    ensures ok && tot + m > good ==>
              Stopped(fs.g, d, Disk(fs.blocks, fs.inodes), i, off, src, good, tot, before, fs.logged, w', torn)
    ensures ok && Inside(fs.g, old(fs.logged)) ==> Inside(fs.g, fs.logged)
  {
    hide Addr, Addresses, Bits, InodeOk, ChunkDone, Inside, Full, Progress, AllLogged, Untouched, Stopped, Spans;
    NextChunk(off, tot, |src|);
    m, w', torn := ChunkSize(off, |src|, tot), w, 0;
    ghost var d1, now := Disk(fs.blocks, fs.inodes), fs.logged;
    var out := tot + m <= good;
    var addr;
    ok, addr := WriteChunk(fs, i, off + tot, if out then src[tot..tot + m] else src[tot..good], out);
    if ok {
      ghost var d2 := Disk(fs.blocks, fs.inodes);
      if out {
        w' := RoundWhole(fs.g, d, d1, d2, fs.owner, i, off, src, good, tot, before, now, fs.logged, w, addr);
      } else {
        torn := addr;
        w' := RoundFault(fs.g, d, d1, d2, i, off, src, good, tot, before, now, fs.logged, w, addr);
      }
    }
  }

  /** The loop of a write, and the work it does. */
  method WriteAll(fs: Fs, i: nat, off: nat, src: seq<Byte>, good: nat)
    returns (panic: bool, tot: nat, ghost w: Work, ghost torn: nat)
    requires fs.Valid() && i < fs.g.ninodes && good <= |src|
    requires off <= fs.inodes[i].size && off + |src| <= MAXFILE * BSIZE
    modifies fs`blocks, fs`inodes, fs`logged, fs`owner
    ensures panic ==> Full(fs.g, fs.blocks)
    ensures !panic ==>
              fs.Valid() && Stopped(fs.g, old(Disk(fs.blocks, fs.inodes)), Disk(fs.blocks, fs.inodes), i, off, src,
                                    good, tot, old(fs.logged), fs.logged, w, torn)
    ensures !panic && Inside(fs.g, old(fs.logged)) ==> Inside(fs.g, fs.logged)
  {
    hide Addr, Addresses, Bits, InodeOk, Full, SoFar, Stopped, Inside;
    ghost var d := Disk(fs.blocks, fs.inodes);
    SoFarStart(fs.g, d, i, off, src, good, fs.logged);
    panic, tot, w, torn := false, 0, Work(0, 0, Bill({}, {}, {})), 0;
    while tot < |src|
      invariant fs.Valid() && tot <= |src| && (Inside(fs.g, old(fs.logged)) ==> Inside(fs.g, fs.logged))
      invariant SoFar(fs.g, d, Disk(fs.blocks, fs.inodes), i, off, src, good, tot, old(fs.logged), fs.logged, w)
    {
      var ok, m;
      ok, m, w, torn := WriteRound(fs, i, off, src, good, tot, d, old(fs.logged), w);
      if !ok {
        panic := true;
        return;
      }
      if tot + m > good {
        return;
      }
      tot := tot + m;
    }
    torn := 0;
    SoFarEnd(fs.g, d, Disk(fs.blocks, fs.inodes), i, off, src, good, old(fs.logged), fs.logged, w);
  }

  /** What a write of src makes of contents c when it stops after tot bytes and `good` were readable. */
  function After(c: seq<Byte>, off: nat, src: seq<Byte>, good: nat, tot: nat): seq<Byte>
    requires off <= |c| && tot <= good <= |src|
  {
    Splice(c, off, src[..good])[..Max(|c|, off + tot)]
  }

  lemma AfterAll(c: seq<Byte>, off: nat, src: seq<Byte>)
    requires off <= |c|
    ensures After(c, off, src, |src|, |src|) == Splice(c, off, src)
  {
    assert src[..|src|] == src;
  }

  lemma WrittenContents(g: Super, d: Disk, d1: Disk, d2: Disk, i: nat, off: nat, src: seq<Byte>, good: nat, tot: nat)
    requires Shape(g, d) && Shape(g, d1) && Shape(g, d2) && i < g.ninodes && off <= d.inodes[i].size
    requires tot <= good <= |src| && off + |src| <= MAXFILE * BSIZE
    requires Wrote(g, d, d1, i, off, src[..good]) && SameFile(g, d1, d2, i)
    requires d2.inodes[i].size == Max(d.inodes[i].size, off + tot)
    ensures Contents(g, d2, i) == After(Contents(g, d, i), off, src, good, tot)
  {
    hide Addr, InodeOk, FileBlock;
    var c, c' := Contents(g, d, i), Contents(g, d2, i);
    var a := After(c, off, src, good, tot);
    assert |c'| == |a|;
    forall y | 0 <= y < |c'| ensures c'[y] == a[y] {
      assert ByteAt(g, d2, i, y) == ByteAt(g, d1, i, y);
    }
  }

  lemma StillDense(g: Super, d: Disk, d1: Disk, d2: Disk, i: nat, x: nat)
    requires Shape(g, d) && Shape(g, d1) && Shape(g, d2) && i < g.ninodes
    requires Dense(g, d, i) && Keeps(g, d, d1) && Reached(g, d1, i, x)
    requires forall k :: 0 <= k < SLOTS ==> Addr(g, d2, i, k) == Addr(g, d1, i, k)
    requires d2.inodes[i].size == Max(d.inodes[i].size, x)
    ensures Dense(g, d2, i)
  {
    hide Addr, InodeOk;
  }

  /** Writes that the code refuses outright. */
  predicate Refused(c: seq<Byte>, off: nat, n: nat) {
    off > |c| || off + n > MAXFILE * BSIZE
  }

  /** The most blocks that a write of n bytes at off logs. */
  function Most(off: nat, n: nat, dense: bool): nat {
    2 * Spans(off, n) + 3 - if dense && off % BSIZE != 0 && n > 0 then 1 else 0
  }

  lemma WorkBound(g: Super, d: Disk, d': Disk, i: nat, off: nat, s: seq<Byte>, x: nat, before: set<nat>, now: set<nat>,
                  w: Work, n: nat, inode: nat) returns (used: set<nat>)
    requires Shape(g, d) && Shape(g, d') && i < g.ninodes && Progress(g, d, d', i, off, s, x, before, now, w)
    requires w.t <= Spans(off, n)
    ensures now + {inode} == before + used && |used| <= Most(off, n, Dense(g, d, i))
    ensures g.size <= BPB ==> |used| <= Spans(off, n) + 3
  {
    hide Addr, InodeOk, Dense, Reached, Wrote, GrewOnly, Paid;
    PaidTotal(g, before, now, w.bill, w.t, w.f, Addr(g, d, i, NDIRECT), Addr(g, d', i, NDIRECT), inode);
    used := w.bill.data + w.bill.maps + w.bill.inds + {inode};
  }

  /** What a write that was not refused has done to the disk. */
  ghost predicate WriteDone(g: Super, d: Disk, d': Disk, i: nat, off: nat, src: seq<Byte>, good: nat, tot: nat)
    requires Shape(g, d) && Shape(g, d') && i < g.ninodes
  {
    && good <= |src| && tot == Counted(off, |src|, good) && off <= d.inodes[i].size
    && Contents(g, d', i) == After(Contents(g, d, i), off, src, good, tot)
    && OthersSame(g, d, d', i) && Keeps(g, d, d') && (Dense(g, d, i) ==> Dense(g, d', i))
  }

  lemma WriteSettles(g: Super, d: Disk, d1: Disk, d2: Disk, own: Owners, i: nat, off: nat, src: seq<Byte>, good: nat,
                     tot: nat, before: set<nat>, now: set<nat>, w: Work)
    requires Shape(g, d) && Addresses(g, d1, own) && i < g.ninodes && off <= d.inodes[i].size
    requires off + |src| <= MAXFILE * BSIZE
    requires good <= |src| && tot == Counted(off, |src|, good)
    requires Progress(g, d, d1, i, off, src[..good], off + tot, before, now, w)
    requires d2 == Disk(d1.blocks, d1.inodes[i := Inode(Max(d.inodes[i].size, off + tot), d1.inodes[i].addrs)])
    ensures Addresses(g, d2, own) && WriteDone(g, d, d2, i, off, src, good, tot)
    ensures forall k :: 0 <= k < SLOTS ==> Addr(g, d2, i, k) == Addr(g, d1, i, k)
  {
    hide Addr, InodeOk, Wrote, Reached, Paid, Addresses;
    InodeSize(g, d, i);
    Shrunk(g, d, d1, own, i, Max(d.inodes[i].size, off + tot));
    WrittenContents(g, d, d1, d2, i, off, src, good, tot);
    if Dense(g, d, i) {
      StillDense(g, d, d1, d2, i, off + tot);
    }
  }

  /**
   Writes src at off. The first `good` bytes of the source can be read and the next
   cannot; used is what the call logs, and torn the block a fault leaves changed but
   not logged.
   */
  method Writei(fs: Fs, i: nat, off: nat, src: seq<Byte>, good: nat)
    returns (panic: bool, r: int, ghost used: set<nat>, ghost torn: nat)
    requires fs.Valid() && i < fs.g.ninodes && |fs.dinodes| == fs.g.ninodes
    requires off < UINT && |src| < UINT && good <= |src|
    modifies fs
    ensures panic ==> Full(fs.g, fs.blocks)
    ensures !panic ==>
        fs.Valid() && fs.logged == old(fs.logged) + used
        && |used| <= Most(off, |src|, old(Dense(fs.g, Disk(fs.blocks, fs.inodes), i)))
    ensures !panic && fs.g.size <= BPB ==> |used| <= Spans(off, |src|) + 3
    ensures !panic && Inside(fs.g, old(fs.logged)) ==> Inside(fs.g, fs.logged)
    ensures old(Refused(Contents(fs.g, Disk(fs.blocks, fs.inodes), i), off, |src|)) ==>
              !panic && r == -1 && fs.blocks == old(fs.blocks) && fs.inodes == old(fs.inodes)
                  && fs.dinodes == old(fs.dinodes) && used == {}
    ensures !panic ==> (r == -1 <==> off > old(fs.inodes[i].size) || off + |src| > MAXFILE * BSIZE)
    ensures !panic && !old(Refused(Contents(fs.g, Disk(fs.blocks, fs.inodes), i), off, |src|)) ==>
              && r == Counted(off, |src|, good)
              && WriteDone(fs.g, old(Disk(fs.blocks, fs.inodes)), Disk(fs.blocks, fs.inodes), i, off, src, good, r)
              && fs.dinodes == old(fs.dinodes)[i := fs.inodes[i]] && IBlock(fs.g, i) in fs.logged
              && AllLogged(old(fs.blocks), fs.blocks, if r < |src| then fs.logged + {torn} else fs.logged)
              && (r < |src| ==>
                  torn == Addr(fs.g, Disk(fs.blocks, fs.inodes), i, FaultPlace(off, |src|, good)))
              && (AllLogged(old(fs.blocks), fs.blocks, fs.logged)
                  <==> Covered(fs.g, old(Disk(fs.blocks, fs.inodes)), old(fs.logged), i, off, src, good))
  {
    hide Addr, Addresses, Bits, InodeOk, Progress, WriteDone, Contents, AllLogged, Dense, Spans, Full, Covered, Counted,
        Inside;
    ghost var d, before := Disk(fs.blocks, fs.inodes), fs.logged;
    panic, r, used, torn := false, -1, {}, 0;
    if off > fs.inodes[i].size || off + |src| >= UINT {
      return;
    }
    if off + |src| > MAXFILE * BSIZE {
      return;
    }
    var tot;
    ghost var w;
    panic, tot, w, torn := WriteAll(fs, i, off, src, good);
    if panic {
      return;
    }
    ghost var d1 := Disk(fs.blocks, fs.inodes);
    SizeKept(fs.g, d, d1, i, off, src[..good], off + tot, before, fs.logged, w);
    if off + tot > fs.inodes[i].size {
      fs.inodes := fs.inodes[i := Inode(off + tot, fs.inodes[i].addrs)];
    }
    assert fs.inodes == d1.inodes[i := Inode(Max(d.inodes[i].size, off + tot), d1.inodes[i].addrs)];
    WriteSettles(fs.g, d, d1, Disk(fs.blocks, fs.inodes), fs.owner, i, off, src, good, tot, before, fs.logged, w);
    used := WorkBound(fs.g, d, d1, i, off, src[..good], off + tot, before, fs.logged, w, |src|, IBlock(fs.g, i));
    ghost var all := if tot < |src| then fs.logged + {torn} else fs.logged;
    ghost var now := fs.logged;
    fs.Iupdate(i);
    MoreLogged(d.blocks, fs.blocks, all, if tot < |src| then fs.logged + {torn} else fs.logged);
    InodeBlockLogged(fs.g, d.blocks, fs.blocks, now, i, torn, tot < |src|);
    InodeInside(fs.g, i, now);
    r := tot;
  }

  lemma SizeKept(g: Super, d: Disk, d': Disk, i: nat, off: nat, s: seq<Byte>, x: nat, before: set<nat>, now: set<nat>,
                 w: Work)
    requires Shape(g, d) && Shape(g, d') && i < g.ninodes && Progress(g, d, d', i, off, s, x, before, now, w)
    ensures d'.inodes[i].size == d.inodes[i].size && |d'.inodes| == |d.inodes|
  {
  }

  /** Logging the inode's block makes no difference to a changed file block. */
  lemma InodeBlockLogged(g: Super, a: seq<Block>, b: seq<Block>, logged: set<nat>, i: nat, torn: nat, fault: bool)
    requires Sane(g) && i < g.ninodes && AllLogged(a, b, if fault then logged + {torn} else logged)
    requires fault ==> g.meta <= torn
    ensures AllLogged(a, b, logged + {IBlock(g, i)}) <==> AllLogged(a, b, logged)
  {
    assert i / IPB <= g.ninodes / IPB;
  }

  lemma InodeInside(g: Super, i: nat, logged: set<nat>)
    requires Sane(g) && i < g.ninodes
    ensures Inside(g, logged) ==> Inside(g, logged + {IBlock(g, i)})
  {
    assert i / IPB <= g.ninodes / IPB;
  }

  lemma MoreLogged(a: seq<Block>, b: seq<Block>, logged: set<nat>, logged': set<nat>)
    requires AllLogged(a, b, logged) && logged <= logged'
    ensures AllLogged(a, b, logged')
  {
  }

  /** Reading back what was written gives it back. */
  lemma ReadBack(c: seq<Byte>, off: nat, src: seq<Byte>)
    requires !Refused(c, off, |src|)
    ensures Wanted(Splice(c, off, src), off, |src|) == src
  {
  }

  /**
   A fault in the middle of a block leaves bytes past the count in the cached block.
   They show in the file unless the file ended there or held them already.
   */
  lemma TornShows(c: seq<Byte>, off: nat, src: seq<Byte>, good: nat)
    requires off <= |c| && good <= |src|
    ensures var tot := Counted(off, |src|, good);
            After(c, off, src, good, tot) == Splice(c, off, src[..tot])
            <==> forall y :: tot <= y < good && off + y < |c| ==> src[y] == c[off + y]
  {
    hide Counted;
    var tot := Counted(off, |src|, good);
    var a, b := After(c, off, src, good, tot), Splice(c, off, src[..tot]);
    assert |a| == |b|;
    forall y | tot <= y < good && off + y < |c| ensures a[off + y] == src[y] && b[off + y] == c[off + y] {
    }
    if forall y :: tot <= y < good && off + y < |c| ==> src[y] == c[off + y] {
      forall z | 0 <= z < |a| ensures a[z] == b[z] {
        assert tot <= z - off < good && z < |c| ==> src[z - off] == c[z];
      }
    }
  }

  /** The count tells all that a write did to the file. */
  ghost predicate CountTellsAll(c: seq<Byte>, off: nat, src: seq<Byte>, good: nat)
    requires off <= |c| && good <= |src|
  {
    var tot := Counted(off, |src|, good);
    After(c, off, src, good, tot) == Splice(c, off, src[..tot])
  }

  /**
   For which faults the count tells all whatever the bytes are: none at all, one at the
   first byte or at a block boundary, or one in a block where the file has no bytes.
   */
  lemma TornNever(size: nat, off: nat, n: nat, good: nat)
    requires off <= size && good <= n
    ensures (forall c, src :: |c| == size && |src| == n ==> CountTellsAll(c, off, src, good))
            <==> good == 0 || good == n || (off + good) % BSIZE == 0 || size <= off + Counted(off, n, good)
  {
    var tot := Counted(off, n, good);
    assert tot == good <==> good == 0 || good == n || (off + good) % BSIZE == 0;
    forall c: seq<Byte>, src: seq<Byte> | |c| == size && |src| == n && (tot == good || size <= off + tot)
      ensures CountTellsAll(c, off, src, good)
    {
      TornShows(c, off, src, good);
    }
    if tot < good && off + tot < size {
      var c: seq<Byte>, src: seq<Byte> := seq(size, _ => 0), seq(n, _ => 1);
      TornShows(c, off, src, good);
      assert src[tot] != c[off + tot];
      assert !CountTellsAll(c, off, src, good);
    }
  }

  /**
   One such write: 1024 ones over a block of 1024 zeros, with a fault after 512. It
   counts nothing, the file begins with ones, and its block is logged only if it was.
   */
  lemma TornOnce(g: Super, d: Disk, i: nat, logged: set<nat>)
    requires Shape(g, d) && i < g.ninodes && Contents(g, d, i) == seq(BSIZE, _ => 0) && Addr(g, d, i, 0) != 0
    ensures var c, ones := Contents(g, d, i), seq(BSIZE, _ => 1);
            && Counted(0, BSIZE, 512) == 0 && !CountTellsAll(c, 0, ones, 512)
            && After(c, 0, ones, 512, 0)[0] == 1
            && (Covered(g, d, logged, i, 0, ones, 512) <==> Addr(g, d, i, 0) in logged)
  {
    hide Addr;
    var c, ones := Contents(g, d, i), seq(BSIZE, _ => 1);
    TornShows(c, 0, ones, 512);
    assert ones[0] != c[0] && c[0] == ByteAt(g, d, i, 0);
  }

  // ---------------------------------------------------------------- writes in several transactions

  /** The bytes that one transaction writes at most. */
  const CHUNK: nat := (MAXOPBLOCKS - 1 - 1 - 2) / 2 * BSIZE

  /** A chunk's log blocks fit in what one operation may log. */
  lemma ChunkFits(off: nat, n: nat)
    requires n <= CHUNK
    ensures Most(off, n, true) <= MAXOPBLOCKS && Spans(off, n) + 3 <= 7
  {
  }

  lemma SpliceTwice(c: seq<Byte>, off: nat, s: seq<Byte>, t: seq<Byte>)
    requires off <= |c|
    ensures Splice(Splice(c, off, s), off + |s|, t) == Splice(c, off, s + t)
  {
  }

  /** A chunk written after `done` bytes is the whole write so far. */
  lemma AfterMore(c: seq<Byte>, off: nat, src: seq<Byte>, done: nat, n: nat, good: nat, tot: nat)
    requires off <= |c| && done + n <= |src| && tot <= good <= n
    ensures After(Splice(c, off, src[..done]), off + done, src[done..done + n], good, tot)
         == After(c, off, src, done + good, done + tot)
  {
    SpliceTwice(c, off, src[..done], src[done..done + n][..good]);
    assert src[..done] + src[done..done + n][..good] == src[..done + good];
  }

  class OpenFile {
    const inum: nat
    var off: nat

    constructor (inum: nat, off: nat)
      ensures this.inum == inum && this.off == off
    {
      this.inum := inum;
      this.off := off;
    }
  }

  /** Where a file and an offset stand after some transactions of a write. */
  ghost predicate Midway(g: Super, d: Disk, d': Disk, i: nat, off: nat, src: seq<Byte>, good: nat, off': nat)
    requires Shape(g, d) && Shape(g, d') && i < g.ninodes
  {
    && OthersSame(g, d, d', i) && (Dense(g, d, i) ==> Dense(g, d', i))
    && (off > d.inodes[i].size ==> d' == d && off' == off)
    && (off <= d.inodes[i].size ==>
          && off <= off' <= off + good <= off + |src|
          && Contents(g, d', i) == After(Contents(g, d, i), off, src, good, off' - off))
  }

  lemma MidwayStart(g: Super, d: Disk, i: nat, off: nat, src: seq<Byte>)
    requires Shape(g, d) && i < g.ninodes
    ensures Midway(g, d, d, i, off, src, 0, off)
  {
    OthersSelf(g, d, i);
    if off <= d.inodes[i].size {
      var c := Contents(g, d, i);
      assert src[..0] == [];
      assert After(c, off, src, 0, 0) == c;
    }
  }

  lemma MidwayMore(g: Super, d: Disk, d1: Disk, d2: Disk, i: nat, off: nat, src: seq<Byte>, done: nat, n: nat,
                   good: nat, tot: nat)
    requires Shape(g, d) && Shape(g, d1) && Shape(g, d2) && i < g.ninodes
    requires Midway(g, d, d1, i, off, src, done, off + done) && done + n <= |src| && off <= d.inodes[i].size
    requires WriteDone(g, d1, d2, i, off + done, src[done..done + n], good, tot)
    ensures Midway(g, d, d2, i, off, src, done + good, off + done + tot)
  {
    hide Addr, InodeOk, Contents, Dense;
    OthersTwice(g, d, d1, d2, i);
    var c := Contents(g, d, i);
    assert After(c, off, src, done, done) == Splice(c, off, src[..done]);
    AfterMore(c, off, src, done, n, good, tot);
  }

  lemma MidwayRefused(g: Super, d: Disk, d': Disk, i: nat, off: nat, src: seq<Byte>, done: nat, n: nat)
    requires Shape(g, d) && Shape(g, d') && i < g.ninodes && Midway(g, d, d', i, off, src, done, off + done)
    ensures Refused(Contents(g, d', i), off + done, n) <==> Refused(Contents(g, d, i), off, done + n)
  {
    hide Addr, InodeOk, Dense;
  }

  // ---------------------------------------------------------------- what a transaction leaves on disk

  /** A disk in order: its addresses and its bitmap agree. */
  ghost predicate InOrder(g: Super, d: Disk) {
    exists own :: Addresses(g, d, own) && Bits(g, d.blocks, own)
  }

  /**
   The disk that a transaction leaves: all that it changed is logged, but for the
   block of a fault, which the disk keeps as it was.
   */
  ghost function LeftOnDisk(d: Disk, d': Disk, used: set<nat>, torn: nat): Disk {
    if AllLogged(d.blocks, d'.blocks, used) || torn >= |d.blocks| || torn >= |d'.blocks| then d'
    else Disk(d'.blocks[torn := d.blocks[torn]], d'.inodes)
  }

  /** Every block and every inode that differs is in a logged block, and the disk is in order. */
  ghost predicate Persists(g: Super, d: Disk, d': Disk, used: set<nat>) {
    && Shape(g, d) && Shape(g, d') && InOrder(g, d') && Inside(g, used)
    && AllLogged(d.blocks, d'.blocks, used)
    && forall j :: 0 <= j < g.ninodes && d'.inodes[j] != d.inodes[j] ==> IBlock(g, j) in used
  }

  /** What a fault in a block that was there already leaves, byte by byte. */
  lemma TornReverts(g: Super, d: Disk, d': Disk, own: Owners, i: nat, off: nat, src: seq<Byte>, good: nat, torn: nat)
    requires Shape(g, d) && Addresses(g, d', own) && Bits(g, d'.blocks, own) && i < g.ninodes
    requires good < |src| && off + |src| <= MAXFILE * BSIZE
    requires var tot := Counted(off, |src|, good);
             var n := (off + tot) / BSIZE;
             && WriteDone(g, d, d', i, off, src, good, tot) && Addr(g, d, i, Slot(n)) == torn != 0
    ensures torn < g.size && var k := Disk(d'.blocks[torn := d.blocks[torn]], d'.inodes);
            && Addresses(g, k, own) && Bits(g, k.blocks, own)
            && OthersSame(g, d, k, i) && (Dense(g, d, i) ==> Dense(g, k, i))
            && Contents(g, k, i) == Splice(Contents(g, d, i), off, src[..Counted(off, |src|, good)])
  {
    hide Addr, InodeOk, FileBlock, Addresses, Bits, Counted, Dense, OthersSame, Sane;
    var tot := Counted(off, |src|, good);
    var n := (off + tot) / BSIZE;
    FaultBlock(off, |src|, good);
    KeptAddr(g, d, d', own, i, n, torn);
    var k := Disk(d'.blocks[torn := d.blocks[torn]], d'.inodes);
    RevertBlock(g, d, d', k, own, i, n, torn);
    RevertOthers(g, d, d', k, i, n);
    RevertBytes(g, d, d', k, i, off, src, good, tot, n);
  }

  lemma RevertBlock(g: Super, d: Disk, d': Disk, k: Disk, own: Owners, i: nat, n: nat, torn: nat)
    requires Shape(g, d) && Addresses(g, d', own) && Bits(g, d'.blocks, own) && i < g.ninodes && n < MAXFILE
    requires Addr(g, d, i, Slot(n)) == Addr(g, d', i, Slot(n)) == torn && 0 < torn < g.size
    requires k == Disk(d'.blocks[torn := d.blocks[torn]], d'.inodes)
    ensures Addresses(g, k, own) && Bits(g, k.blocks, own) && FileBlock(g, k, i, n) == FileBlock(g, d, i, n)
    ensures forall j, m :: 0 <= j < g.ninodes && 0 <= m < MAXFILE && (j, m) != (i, n) ==>
              FileBlock(g, k, j, m) == FileBlock(g, d', j, m)
    ensures forall j, s :: 0 <= j < g.ninodes && 0 <= s < SLOTS ==> Addr(g, k, j, s) == Addr(g, d', j, s)
  {
    DataWrite(g, d', k, own, i, n, d.blocks[torn]);
    KeptMeta(g, d', own, i, n, torn);
    BitsKept(g, d'.blocks, k.blocks, own);
  }

  lemma KeptMeta(g: Super, d: Disk, own: Owners, i: nat, n: nat, b: nat)
    requires Addresses(g, d, own) && i < g.ninodes && n < MAXFILE && Addr(g, d, i, Slot(n)) == b != 0
    ensures g.meta <= b < g.size
  {
    hide Addr;
    assert PointsRight(g, d, own, i, Slot(n));
  }

  lemma KeptAddr(g: Super, d: Disk, d': Disk, own: Owners, i: nat, n: nat, torn: nat)
    requires Shape(g, d) && Addresses(g, d', own) && i < g.ninodes && n < MAXFILE && Keeps(g, d, d')
    requires Addr(g, d, i, Slot(n)) == torn != 0
    ensures Addr(g, d', i, Slot(n)) == torn && g.meta <= torn < g.size
  {
    hide Addr;
    assert PointsRight(g, d', own, i, Slot(n));
  }

  lemma RevertOthers(g: Super, d: Disk, d': Disk, k: Disk, i: nat, n: nat)
    requires Shape(g, d) && Shape(g, d') && Shape(g, k) && i < g.ninodes && k.inodes == d'.inodes
    requires OthersSame(g, d, d', i) && (Dense(g, d, i) ==> Dense(g, d', i))
    requires forall j, m :: 0 <= j < g.ninodes && 0 <= m < MAXFILE && (j, m) != (i, n) ==>
               FileBlock(g, k, j, m) == FileBlock(g, d', j, m)
    requires forall j, s :: 0 <= j < g.ninodes && 0 <= s < SLOTS ==> Addr(g, k, j, s) == Addr(g, d', j, s)
    ensures OthersSame(g, d, k, i) && (Dense(g, d, i) ==> Dense(g, k, i))
  {
    hide Addr, InodeOk, FileBlock;
    forall j | 0 <= j < g.ninodes && j != i ensures SameFile(g, d, k, j) {
      assert SameFile(g, d, d', j);
    }
  }

  lemma RevertBytes(g: Super, d: Disk, d': Disk, k: Disk, i: nat, off: nat, src: seq<Byte>, good: nat, tot: nat, n: nat)
    requires Shape(g, d) && Shape(g, d') && Shape(g, k) && i < g.ninodes && k.inodes == d'.inodes && n < MAXFILE
    requires tot <= good < |src| && off <= d.inodes[i].size && off + |src| <= MAXFILE * BSIZE
    requires Contents(g, d', i) == After(Contents(g, d, i), off, src, good, tot)
    requires FileBlock(g, k, i, n) == FileBlock(g, d, i, n)
    requires forall m :: 0 <= m < MAXFILE && m != n ==> FileBlock(g, k, i, m) == FileBlock(g, d', i, m)
    requires var base := n * BSIZE; base <= off + tot && off + good < base + BSIZE && (tot > 0 ==> base == off + tot)
    ensures Contents(g, k, i) == Splice(Contents(g, d, i), off, src[..tot])
  {
    hide Addr, InodeOk, FileBlock;
    var c, c', r := Contents(g, d, i), Contents(g, d', i), Contents(g, k, i);
    var want := Splice(c, off, src[..tot]);
    assert |r| == |c'| == |want|;
    forall y | 0 <= y < |r| ensures r[y] == want[y] {
      assert ByteAt(g, k, i, y) == if y / BSIZE == n then ByteAt(g, d, i, y) else ByteAt(g, d', i, y);
      assert y / BSIZE == n <==> n * BSIZE <= y < n * BSIZE + BSIZE;
    }
  }

  /** What a write has left on disk, if its file has no missing block: the bytes it counts, and no others. */
  lemma LeavesCounted(g: Super, d: Disk, d': Disk, own: Owners, i: nat, off: nat, src: seq<Byte>, good: nat,
                      used: set<nat>, torn: nat)
    requires Addresses(g, d', own) && Bits(g, d'.blocks, own) && Shape(g, d) && i < g.ninodes && Dense(g, d, i)
    requires good <= |src| && off + |src| <= MAXFILE * BSIZE && Inside(g, used) && IBlock(g, i) in used
    requires var tot := Counted(off, |src|, good);
             && WriteDone(g, d, d', i, off, src, good, tot)
             && AllLogged(d.blocks, d'.blocks, if tot < |src| then used + {torn} else used)
             && (tot < |src| ==> torn == Addr(g, d', i, FaultPlace(off, |src|, good)))
             && (AllLogged(d.blocks, d'.blocks, used) <==> Covered(g, d, {}, i, off, src, good))
    ensures var left := LeftOnDisk(d, d', used, torn);
            && Persists(g, d, left, used) && OthersSame(g, d, left, i) && Dense(g, left, i)
            && Contents(g, left, i) == Splice(Contents(g, d, i), off, src[..Counted(off, |src|, good)])
            && (good == |src| ==> left == d')
  {
    hide Addr, InodeOk, FileBlock, Addresses, Bits, Counted, Contents, After, Splice;
    var tot := Counted(off, |src|, good);
    if Covered(g, d, {}, i, off, src, good) {
      CoveredCounts(g, d, i, off, src, good);
    } else {
      hide Dense;
      TornReverts(g, d, d', own, i, off, src, good, torn);
    }
  }

  lemma CoveredCounts(g: Super, d: Disk, i: nat, off: nat, src: seq<Byte>, good: nat)
    requires Shape(g, d) && i < g.ninodes && Dense(g, d, i) && good <= |src| && off + |src| <= MAXFILE * BSIZE
    requires off <= d.inodes[i].size && Covered(g, d, {}, i, off, src, good)
    ensures var tot := Counted(off, |src|, good);
            After(Contents(g, d, i), off, src, good, tot) == Splice(Contents(g, d, i), off, src[..tot])
  {
    var c, tot := Contents(g, d, i), Counted(off, |src|, good);
    TornShows(c, off, src, good);
    hide Addr, InodeOk, FileBlock;
    if good < |src| {
      FaultBlock(off, |src|, good);
      var n := (off + tot) / BSIZE;
      forall y | tot <= y < good && off + y < |c| ensures src[y] == c[off + y] {
        assert n * BSIZE < d.inodes[i].size;
        assert c[off + y] == ByteAt(g, d, i, off + y);
      }
    }
  }

  /** File i holds what it held with some first part of src written at off, and the other files are as they were. */
  ghost predicate HoldsPart(g: Super, d: Disk, d': Disk, i: nat, off: nat, src: seq<Byte>)
    requires Shape(g, d) && Shape(g, d') && i < g.ninodes
  {
    && OthersSame(g, d, d', i) && Dense(g, d', i)
    && exists p :: 0 <= p <= |src| && Contents(g, d', i) == PartWritten(Contents(g, d, i), off, src, p)
  }

  function PartWritten(c: seq<Byte>, off: nat, src: seq<Byte>, p: nat): seq<Byte>
    requires p <= |src|
  {
    if off <= |c| then Splice(c, off, src[..p]) else c
  }

  /** What one transaction of a write leaves on disk is a part of the whole write. */
  lemma PartMoreWritten(g: Super, d: Disk, d1: Disk, left: Disk, i: nat, off: nat, src: seq<Byte>, done: nat, n: nat,
                        count: nat)
    requires Shape(g, d) && Shape(g, d1) && Shape(g, left) && i < g.ninodes && Dense(g, left, i)
    requires Midway(g, d, d1, i, off, src, done, off + done) && done + n <= |src| && count <= n
    requires off <= d.inodes[i].size && OthersSame(g, d1, left, i)
    requires off + done <= d1.inodes[i].size
    requires Contents(g, left, i) == Splice(Contents(g, d1, i), off + done, src[done..done + n][..count])
    ensures HoldsPart(g, d, left, i, off, src)
  {
    hide Addr, InodeOk, Contents, Dense, FileBlock;
    OthersTwice(g, d, d1, left, i);
    var c := Contents(g, d, i);
    assert After(c, off, src, done, done) == Splice(c, off, src[..done]);
    SpliceTwice(c, off, src[..done], src[done..done + n][..count]);
    assert src[..done] + src[done..done + n][..count] == src[..done + count];
    assert Contents(g, left, i) == PartWritten(c, off, src, done + count);
  }

  /** A transaction that was refused leaves what was there. */
  lemma PartStays(g: Super, d: Disk, d1: Disk, i: nat, off: nat, src: seq<Byte>, done: nat)
    requires Shape(g, d) && Shape(g, d1) && i < g.ninodes && Dense(g, d, i) && done <= |src|
    requires Midway(g, d, d1, i, off, src, done, off + done)
    ensures HoldsPart(g, d, d1, i, off, src)
  {
    hide Addr, InodeOk, Contents, FileBlock;
    var c := Contents(g, d, i);
    if off <= |c| {
      assert After(c, off, src, done, done) == Splice(c, off, src[..done]);
    }
    assert Contents(g, d1, i) == PartWritten(c, off, src, done);
  }

  lemma PersistsNothing(g: Super, d: Disk, own: Owners)
    requires Addresses(g, d, own) && Bits(g, d.blocks, own)
    ensures Persists(g, d, d, {}) && InOrder(g, d)
  {
  }

  predicate Affordable(g: Super, used: set<nat>) {
    |used| <= MAXOPBLOCKS && (g.size <= BPB ==> |used| <= 7)
  }

  /** The bytes in the whole chunks among the first x. */
  function WholeChunks(x: nat): (w: nat)
    ensures w <= x < w + CHUNK
  {
    x - x % CHUNK
  }

  /** How many bytes of a write reach the file, and how many the offset moves by. */
  datatype Reach = Reach(got: nat, count: nat)

  const LIMIT: nat := MAXFILE * BSIZE

  /**
   What a write of n bytes at off does to a file of this size: all of it, or the whole
   chunks below the fault and the largest file, and then of the chunk after them
   nothing if it is refused, else the bytes before the fault.
   */
  function Reaches(size: nat, off: nat, n: nat, good: nat): (r: Reach)
    requires good <= n && size <= LIMIT
  {
    hide WholeChunks, Counted;
    if off > size then Reach(0, 0)
    else if good == n && off + n <= LIMIT then Reach(n, n)
    else
      var whole := WholeChunks(Min(good, LIMIT - off));
      var last := Min(n - whole, CHUNK);
      if off + whole + last > LIMIT then Reach(whole, whole)
      else Reach(good, whole + Counted(off + whole, last, Min(good - whole, last)))
  }

  /** What one transaction adds: the n1 bytes after the first i. */
  function OpReach(size: nat, off: nat, i: nat, n1: nat, good: nat): Reach
    requires i <= good
  {
    if off > size || off + i + n1 > LIMIT then Reach(i, i)
    else Reach(i + Min(good - i, n1), i + Counted(off + i, n1, Min(good - i, n1)))
  }

  lemma OpReaches(c: seq<Byte>, off: nat, i: nat, n1: nat, good: nat)
    requires i <= good
    ensures OpReach(|c|, off, i, n1, good)
         == if Refused(c, off, i + n1) then Reach(i, i)
            else Reach(i + Min(good - i, n1), i + Counted(off + i, n1, Min(good - i, n1)))
    ensures !Refused(c, off, i + n1) ==> OpReach(|c|, off, i, n1, good).count <= i + n1
  {
  }

  lemma ReachesAll(size: nat, off: nat, n: nat)
    requires size <= LIMIT && (n > 0 ==> off <= size && off + n <= LIMIT)
    ensures Reaches(size, off, n, n) == Reach(n, n)
  {
  }

  /** The chunk at which the loop stops is the one that Reaches names. */
  lemma ReachesStop(size: nat, off: nat, n: nat, good: nat, i: nat)
    requires good <= n && size <= LIMIT && i % CHUNK == 0 && i < n && i <= good
    requires i > 0 ==> off <= size && off + i <= LIMIT
    requires off > size || off + i + Min(n - i, CHUNK) > LIMIT || i + Min(n - i, CHUNK) > good
    ensures Reaches(size, off, n, good) == OpReach(size, off, i, Min(n - i, CHUNK), good)
  {
    hide Counted, WholeChunks;
    if off <= size {
      assert WholeChunks(Min(good, LIMIT - off)) == i by { SameChunk(i, Min(good, LIMIT - off)); }
    }
  }

  lemma SameChunk(i: nat, x: nat)
    requires i % CHUNK == 0 && i <= x < i + CHUNK
    ensures WholeChunks(x) == i
  {
    assert CHUNK == 3072;
  }

  /** One transaction of a write: the n1 bytes after the first i. */
  method WriteOp(fs: Fs, f: OpenFile, src: seq<Byte>, i: nat, n1: nat, good: nat, ghost d: Disk, ghost off: nat)
    returns (panic: bool, r: int, ghost used: set<nat>, ghost got: nat, ghost left: Disk)
    requires fs.Valid() && f.inum < fs.g.ninodes && |fs.dinodes| == fs.g.ninodes && f.off < UINT && Shape(fs.g, d)
    requires i <= good <= |src| < UINT && i + n1 <= |src| && n1 <= CHUNK && f.off == off + i
    requires Midway(fs.g, d, Disk(fs.blocks, fs.inodes), f.inum, off, src, i, f.off)
    modifies fs, f`off
    ensures panic ==> Full(fs.g, fs.blocks)
    ensures !panic ==> fs.Valid() && |fs.dinodes| == fs.g.ninodes && i <= got <= good && f.off < UINT
    ensures !panic ==> Midway(fs.g, d, Disk(fs.blocks, fs.inodes), f.inum, off, src, got, f.off)
    ensures !panic ==> (r == n1 <==> i + n1 <= good && !Refused(Contents(fs.g, d, f.inum), off, i + n1))
    ensures !panic ==>
              var reach := OpReach(d.inodes[f.inum].size, off, i, n1, good);
              got == reach.got && f.off == off + reach.count
    ensures !panic && r == n1 ==> got == i + n1 && f.off == off + got
    ensures !panic && Dense(fs.g, d, f.inum) ==> Affordable(fs.g, used)
    ensures !panic && old(fs.dinodes == fs.inodes) ==> fs.dinodes == fs.inodes
    ensures !panic && r == n1 ==> left == Disk(fs.blocks, fs.inodes)
    ensures !panic && Dense(fs.g, d, f.inum) ==>
              && Persists(fs.g, old(Disk(fs.blocks, fs.inodes)), left, used)
              && HoldsPart(fs.g, d, left, f.inum, off, src)
  {
    hide Addr, Addresses, Bits, InodeOk, Contents, AllLogged, Dense, Full, Midway, Most, Spans, OthersSame, Keeps,
        Refused, OpReach, Counted, WriteDone, Covered, FaultPlace, Persists, HoldsPart, Inside, LeftOnDisk, InOrder;
    OpReaches(Contents(fs.g, d, f.inum), off, i, n1, good);
    ghost var d1 := Disk(fs.blocks, fs.inodes);
    MidwayRefused(fs.g, d, d1, f.inum, off, src, i, n1);
    MidwayFacts(fs.g, d, d1, f.inum, off, src, i, f.off);
    ChunkFits(f.off, n1);
    ghost var torn;
    fs.logged := {};
    ghost var refused := Refused(Contents(fs.g, d1, f.inum), off + i, n1);
    var took := Min(good - i, n1);
    NothingInside(fs.g);
    PersistsNothing(fs.g, d1, fs.owner);
    panic, r, used, torn := Writei(fs, f.inum, f.off, src[i..i + n1], took);
    got, left := i, Disk(fs.blocks, fs.inodes);
    if panic {
      return;
    }
    if Dense(fs.g, d, f.inum) {
      if refused {
        PartStays(fs.g, d, d1, f.inum, off, src, i);
      } else {
        left := LeftOnDisk(d1, left, used, torn);
        OpLeaves(fs.g, d, d1, Disk(fs.blocks, fs.inodes), fs.owner, f.inum, off, src, i, n1, took, used, torn);
      }
    }
    if !refused {
      Synced(fs.g, d1, Disk(fs.blocks, fs.inodes), f.inum, f.off, src[i..i + n1], took, r);
    }
    if !refused {
      NotRefused(fs.g, d, f.inum, off, i + n1);
      got := i + took;
      MidwayMore(fs.g, d, d1, Disk(fs.blocks, fs.inodes), f.inum, off, src, i, n1, took, r);
    }
    if r > 0 {
      f.off := f.off + r;
    }
  }

  lemma Synced(g: Super, d: Disk, d': Disk, i: nat, off: nat, src: seq<Byte>, good: nat, tot: nat)
    requires Shape(g, d) && Shape(g, d') && i < g.ninodes && WriteDone(g, d, d', i, off, src, good, tot)
    ensures d'.inodes == d.inodes[i := d'.inodes[i]]
  {
    hide Addr, InodeOk, FileBlock, Contents, Dense, Keeps, After;
  }

  lemma NothingInside(g: Super)
    ensures Inside(g, {})
  {
  }

  /** What a transaction that was not refused leaves on disk. */
  lemma OpLeaves(g: Super, d: Disk, d1: Disk, d2: Disk, own: Owners, i: nat, off: nat, src: seq<Byte>, done: nat,
                 n: nat, took: nat, used: set<nat>, torn: nat)
    requires Shape(g, d) && Shape(g, d1) && Addresses(g, d2, own) && Bits(g, d2.blocks, own) && i < g.ninodes
    requires Dense(g, d, i) && Midway(g, d, d1, i, off, src, done, off + done) && done + n <= |src| && took <= n
    requires !Refused(Contents(g, d1, i), off + done, n) && !Refused(Contents(g, d, i), off, done + n)
    requires Inside(g, used) && IBlock(g, i) in used
    requires var part := src[done..done + n];
             var tot := Counted(off + done, n, took);
             && WriteDone(g, d1, d2, i, off + done, part, took, tot)
             && AllLogged(d1.blocks, d2.blocks, if tot < n then used + {torn} else used)
             && (tot < n ==> torn == Addr(g, d2, i, FaultPlace(off + done, n, took)))
             && (AllLogged(d1.blocks, d2.blocks, used) <==> Covered(g, d1, {}, i, off + done, part, took))
    ensures var left := LeftOnDisk(d1, d2, used, torn);
            Persists(g, d1, left, used) && HoldsPart(g, d, left, i, off, src) && (took == n ==> left == d2)
  {
    hide Addr, InodeOk, FileBlock, Addresses, Bits, Contents, After, Splice, Midway, Dense, LeftOnDisk, HoldsPart,
        Persists, Covered, Inside, AllLogged, Counted, FaultPlace, WriteDone, OthersSame;
    MidwayFacts(g, d, d1, i, off, src, done, off + done);
    NotRefused(g, d, i, off, done + n);
    NotRefused(g, d1, i, off + done, n);
    var part, tot := src[done..done + n], Counted(off + done, n, took);
    var left := LeftOnDisk(d1, d2, used, torn);
    hide Refused;
    LeavesCounted(g, d1, d2, own, i, off + done, part, took, used, torn);
    ShapeOf(g, d1, left, used);
    PartMoreWritten(g, d, d1, left, i, off, src, done, n, tot);
  }

  lemma ShapeOf(g: Super, d: Disk, d': Disk, used: set<nat>)
    requires Persists(g, d, d', used)
    ensures Shape(g, d) && Shape(g, d')
  {
  }

  lemma MidwayFacts(g: Super, d: Disk, d': Disk, i: nat, off: nat, src: seq<Byte>, good: nat, off': nat)
    requires Shape(g, d) && Shape(g, d') && i < g.ninodes && Midway(g, d, d', i, off, src, good, off')
    ensures Dense(g, d, i) ==> Dense(g, d', i)
  {
  }

  lemma RefusedIs(g: Super, d: Disk, i: nat, off: nat, n: nat)
    requires Shape(g, d) && i < g.ninodes
    ensures Refused(Contents(g, d, i), off, n) <==> off > d.inodes[i].size || off + n > MAXFILE * BSIZE
  {
  }

  lemma NotRefused(g: Super, d: Disk, i: nat, off: nat, n: nat)
    requires Shape(g, d) && i < g.ninodes && !Refused(Contents(g, d, i), off, n)
    ensures off <= d.inodes[i].size && off + n <= MAXFILE * BSIZE < UINT
  {
  }

  /** The loop of filewrite on an inode: each chunk in a transaction of its own. */
  method FileWrite(fs: Fs, f: OpenFile, n: int, src: seq<Byte>, good: nat)
    returns (panic: bool, ret: int, ghost ops: seq<set<nat>>, ghost got: nat, ghost snaps: seq<Disk>)
    requires fs.Valid() && f.inum < fs.g.ninodes && |fs.dinodes| == fs.g.ninodes && f.off < UINT
    requires |src| == (if n < 0 then 0 else n) && n < UINT && good <= |src|
    modifies fs, f`off
    ensures panic ==> Full(fs.g, fs.blocks)
    ensures !panic ==> fs.Valid()
    ensures !panic ==>
              var reach := Reaches(old(fs.inodes[f.inum].size), old(f.off), |src|, good);
              got == reach.got && f.off == old(f.off) + reach.count
    ensures !panic ==> Midway(fs.g, old(Disk(fs.blocks, fs.inodes)), Disk(fs.blocks, fs.inodes), f.inum, old(f.off),
                              src, got, f.off)
    ensures !panic ==> var c := old(Contents(fs.g, Disk(fs.blocks, fs.inodes), f.inum));
              ret == (if n == 0 then 0 else if n > 0 && good == n && !Refused(c, old(f.off), n) then n else -1)
    ensures !panic && n > 0 ==>
              (ret == n <==> good == n && old(f.off <= fs.inodes[f.inum].size) && old(f.off) + n <= MAXFILE * BSIZE)
    ensures !panic && ret == n > 0 ==>
              && old(f.off <= fs.inodes[f.inum].size) && f.off == old(f.off) + n
              && Contents(fs.g, Disk(fs.blocks, fs.inodes), f.inum)
                   == Splice(old(Contents(fs.g, Disk(fs.blocks, fs.inodes), f.inum)), old(f.off), src)
    ensures old(Dense(fs.g, Disk(fs.blocks, fs.inodes), f.inum)) ==>
              Trail(fs.g, old(Disk(fs.blocks, fs.inodes)), snaps, ops, f.inum, old(f.off), src)
    ensures !panic && ret == n ==> |snaps| > 0 && snaps[|snaps| - 1] == Disk(fs.blocks, fs.inodes)
    ensures !panic && old(fs.dinodes == fs.inodes) ==> fs.dinodes == fs.inodes
  {
    hide Addr, Addresses, Bits, InodeOk, Contents, Dense, Full, Midway, Reaches, OpReach, Refused, Whole, Trail,
        Persists, HoldsPart, Affordable;
    assert Whole(0) by { WholeNext(0); }
    InodeSize(fs.g, Disk(fs.blocks, fs.inodes), f.inum);
    ghost var d, off := Disk(fs.blocks, fs.inodes), f.off;
    ghost var c := Contents(fs.g, d, f.inum);
    MidwayStart(fs.g, d, f.inum, off, src);
    RefusedIs(fs.g, d, f.inum, off, |src|);
    panic, ret, ops, got, snaps := false, -1, [], 0, [d];
    if Dense(fs.g, d, f.inum) {
      TrailStart(fs.g, d, fs.owner, f.inum, off, src);
    }
    var i := 0;
    while i < n
      invariant 0 <= i <= |src| && fs.Valid() && |fs.dinodes| == fs.g.ninodes && f.off < UINT
      invariant i == got <= good && f.off == off + i && (Whole(i) || i == n) && (i > 0 ==> !Refused(c, off, i))
      invariant Midway(fs.g, d, Disk(fs.blocks, fs.inodes), f.inum, off, src, i, f.off)
      invariant Dense(fs.g, d, f.inum) ==> Trail(fs.g, d, snaps, ops, f.inum, off, src)
      invariant |snaps| > 0 && snaps[|snaps| - 1] == Disk(fs.blocks, fs.inodes)
      invariant old(fs.dinodes) == d.inodes ==> fs.dinodes == fs.inodes
      decreases n - i
    {
      var n1 := Min(n - i, CHUNK);
      ghost var used, left;
      var r;
      panic, r, used, got, left := WriteOp(fs, f, src, i, n1, good, d, off);
      if panic {
        return;
      }
      if Dense(fs.g, d, f.inum) {
        TrailMore(fs.g, d, snaps, ops, f.inum, off, src, left, used);
      }
      ops, snaps := ops + [used], snaps + [left];
      if r != n1 {
        FileWriteStops(c, off, n, good, i);
        break;
      }
      WholeNext(i);
      i := i + r;
    }
    ret := if i == n then n else -1;
    if i >= n {
      FileWriteEnds(fs.g, d, Disk(fs.blocks, fs.inodes), f.inum, off, src);
    }
  }

  /**
   The disks that the transactions of a write leave one after the other: each in order,
   each from the one before by what its transaction logs, each with a part of the write.
   */
  ghost predicate Trail(g: Super, d: Disk, snaps: seq<Disk>, ops: seq<set<nat>>, i: nat, off: nat, src: seq<Byte>)
    requires Shape(g, d) && i < g.ninodes
  {
    && |snaps| == |ops| + 1 && snaps[0] == d
    && (forall k :: 0 <= k < |snaps| ==> Snap(g, d, snaps[k], i, off, src))
    && (forall k :: 0 <= k < |ops| ==> Persists(g, snaps[k], snaps[k + 1], ops[k]) && Affordable(g, ops[k]))
  }

  ghost predicate Snap(g: Super, d: Disk, d': Disk, i: nat, off: nat, src: seq<Byte>)
    requires Shape(g, d) && i < g.ninodes
  {
    Shape(g, d') && InOrder(g, d') && HoldsPart(g, d, d', i, off, src)
  }

  lemma TrailStart(g: Super, d: Disk, own: Owners, i: nat, off: nat, src: seq<Byte>)
    requires Addresses(g, d, own) && Bits(g, d.blocks, own) && i < g.ninodes && Dense(g, d, i)
    ensures Trail(g, d, [d], [], i, off, src)
  {
    PersistsNothing(g, d, own);
    MidwayStart(g, d, i, off, src);
    hide Addr, InodeOk, Addresses, Bits, Midway, InOrder, HoldsPart;
    PartStays(g, d, d, i, off, src, 0);
  }

  lemma TrailMore(g: Super, d: Disk, snaps: seq<Disk>, ops: seq<set<nat>>, i: nat, off: nat, src: seq<Byte>, left: Disk,
                  used: set<nat>)
    requires Shape(g, d) && i < g.ninodes && Trail(g, d, snaps, ops, i, off, src) && Affordable(g, used)
    requires Persists(g, snaps[|snaps| - 1], left, used) && HoldsPart(g, d, left, i, off, src)
    ensures Trail(g, d, snaps + [left], ops + [used], i, off, src)
  {
    PersistsOrder(g, snaps[|snaps| - 1], left, used);
    hide Persists, HoldsPart, InOrder, Shape;
    assert Snap(g, d, left, i, off, src);
    var snaps', ops' := snaps + [left], ops + [used];
    forall k | 0 <= k < |ops'| ensures Persists(g, snaps'[k], snaps'[k + 1], ops'[k]) && Affordable(g, ops'[k]) {
      if k < |ops| {
        assert Persists(g, snaps[k], snaps[k + 1], ops[k]);
      }
    }
  }

  lemma PersistsOrder(g: Super, d: Disk, d': Disk, used: set<nat>)
    requires Persists(g, d, d', used)
    ensures Shape(g, d') && InOrder(g, d')
  {
  }

  predicate Whole(i: nat) {
    i % CHUNK == 0
  }

  lemma WholeNext(i: nat)
    ensures Whole(0) && (Whole(i) ==> Whole(i + CHUNK))
  {
  }

  lemma FileWriteStops(c: seq<Byte>, off: nat, n: nat, good: nat, i: nat)
    requires |c| <= LIMIT && Whole(i) && i < n && i <= good <= n && (i > 0 ==> !Refused(c, off, i))
    requires !(i + Min(n - i, CHUNK) <= good && !Refused(c, off, i + Min(n - i, CHUNK)))
    ensures Reaches(|c|, off, n, good) == OpReach(|c|, off, i, Min(n - i, CHUNK), good)
    ensures !(good == n && !Refused(c, off, n))
  {
    hide Reaches, OpReach;
    ReachesStop(|c|, off, n, good, i);
  }

  lemma FileWriteEnds(g: Super, d: Disk, d': Disk, i: nat, off: nat, src: seq<Byte>)
    requires Shape(g, d) && Shape(g, d') && i < g.ninodes && Midway(g, d, d', i, off, src, |src|, off + |src|)
    requires |src| > 0 ==> !Refused(Contents(g, d, i), off, |src|)
    ensures Reaches(d.inodes[i].size, off, |src|, |src|) == Reach(|src|, |src|)
    ensures |src| > 0 ==>
              off <= d.inodes[i].size && Contents(g, d', i) == Splice(Contents(g, d, i), off, src)
  {
    ReachesAll(d.inodes[i].size, off, |src|);
    if |src| > 0 {
      AfterAll(Contents(g, d, i), off, src);
    }
  }
}
