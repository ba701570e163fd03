/**
 The program that makes the first file system (mkfs/mkfs.c): it lays out the disk,
 hands out blocks in order, appends files, and writes the bitmap at the end. What it
 leaves is where the invariants of the kernel's file system begin.
 */
module Mkfs {
  import opened Blocks
  import opened FsLayout
  import opened FileSystem
  import opened FileIo
  import opened Directory
  import opened Params
  import opened Paths
  import opened Sequences

  const NINODES: nat := 200

  const NINODEBLOCKS: nat := NINODES / IPB + 1
  const NBITMAP: nat := FSSIZE / BPB + 1

  /** Boot block, super block, log, inode blocks, bitmap, and then the files. */
  function Layout(): (g: Super)
    ensures Sane(g) && g.size == FSSIZE && g.ninodes == NINODES && g.meta < g.size <= BPB
    ensures g.inodestart == 32 && g.bmapstart == 45 && g.meta == 46
  {
    Super(FSSIZE, NINODES, 2 + LOGSIZE, 2 + LOGSIZE + NINODEBLOCKS, 2 + LOGSIZE + NINODEBLOCKS + NBITMAP)
  }

  const EMPTY: Inode := Inode(0, seq(NDIRECT + 1, _ => 0))

  // ---------------------------------------------------------------- blocks handed out in order

  /** The blocks below freeblock and past the metadata are the owned ones; the rest are blank. */
  ghost predicate Ordered(d: Disk, own: Owners, freeblock: nat): (r: bool)
    ensures r ==> Shape(Layout(), d)
  {
    && Addresses(Layout(), d, own) && Layout().meta <= freeblock <= FSSIZE
    && (forall b: nat :: b in own <==> Layout().meta <= b < freeblock)
    && (forall b :: freeblock <= b < FSSIZE ==> d.blocks[b] == ZERO)
  }

  /** Exactly the blocks that begin below x are allocated, and the indirect block if it lists one of them. */
  predicate TightTo(d: Disk, i: nat, x: nat)
    requires Shape(Layout(), d) && i < NINODES
  {
    && (forall n :: 0 <= n < MAXFILE ==> (Addr(Layout(), d, i, Slot(n)) != 0 <==> n * BSIZE < x))
    && (Addr(Layout(), d, i, NDIRECT) != 0 <==> NDIRECT * BSIZE < x)
  }

  /** There are only zeros from position x on. */
  predicate BlankFrom(d: Disk, i: nat, x: nat)
    requires Shape(Layout(), d) && i < NINODES
  {
    forall y :: x <= y < MAXFILE * BSIZE ==> ByteAt(Layout(), d, i, y) == 0
  }

  /** Every file has just the blocks its size calls for, with zeros after its bytes. */
  ghost predicate AllTight(d: Disk)
    requires Shape(Layout(), d)
  {
    forall i :: 0 <= i < NINODES ==> TightTo(d, i, d.inodes[i].size) && BlankFrom(d, i, d.inodes[i].size)
  }

  /** The blocks that a file of x bytes takes, with its indirect block. */
  function Uses(x: nat): nat {
    (x + BSIZE - 1) / BSIZE + if x > NDIRECT * BSIZE then 1 else 0
  }

  lemma UsesMono(x: nat, y: nat)
    requires x <= y
    ensures Uses(x) <= Uses(y)
  {
  }

  /** The blocks that mapping block n of file i hands out. */
  function Cost(d: Disk, i: nat, n: nat): nat
    requires Shape(Layout(), d) && i < NINODES && n < MAXFILE
  {
    (if Addr(Layout(), d, i, Slot(n)) == 0 then 1 else 0)
    + if n >= NDIRECT && Addr(Layout(), d, i, NDIRECT) == 0 then 1 else 0
  }

  lemma CostIsUses(d: Disk, i: nat, x: nat, m: nat)
    requires Shape(Layout(), d) && i < NINODES && x / BSIZE < MAXFILE && TightTo(d, i, x)
    requires 0 < m <= BSIZE - x % BSIZE
    ensures Cost(d, i, x / BSIZE) == Uses(x + m) - Uses(x)
  {
    hide Addr;
    assert x == x / BSIZE * BSIZE + x % BSIZE;
    assert Addr(Layout(), d, i, Slot(x / BSIZE)) != 0 <==> x % BSIZE != 0;
    assert (x + m + BSIZE - 1) / BSIZE == x / BSIZE + 1;
  }

  lemma OrderedBound(d: Disk, own: Owners, freeblock: nat)
    requires Ordered(d, own, freeblock)
    ensures freeblock <= FSSIZE
  {
  }

  lemma OrderedClaim(d: Disk, own: Owners, i: nat, k: nat, b: nat)
    requires Ordered(d, own, b) && b < FSSIZE && i < NINODES && k < SLOTS
    requires Addr(Layout(), d, i, k) == 0 && (k > NDIRECT ==> Addr(Layout(), d, i, NDIRECT) != 0)
    ensures var d' := Store(Layout(), d, i, k, b);
            && Ordered(d', own[b := Place(i, k)], b + 1) && SameFiles(Layout(), d, d')
            && forall j, m :: 0 <= j < NINODES && 0 <= m < SLOTS ==>
                 Addr(Layout(), d', j, m) == if (j, m) == (i, k) then b else Addr(Layout(), d, j, m)
  {
    var g := Layout();
    Claimed(g, d, own, i, k, b);
    StoredAddrs(g, d, own, i, k, b);
    assert PointsRight(g, d, own, i, NDIRECT);
    hide PutWord, WordAt, InodeOk, Addresses, SameFiles;
    var d' := Store(g, d, i, k, b);
    assert forall c :: b + 1 <= c < FSSIZE ==> d'.blocks[c] == d.blocks[c];
  }

  class Image {
    var blocks: seq<Block>
    var inodes: seq<Inode>
    var freeblock: nat
    var freeinode: nat
    ghost var owner: Owners

    ghost predicate Valid()
      reads this
    {
      Ordered(Disk(blocks, inodes), owner, freeblock)
    }

    /** A disk of blank blocks and free inodes. */
    constructor ()
      ensures Valid() && AllTight(Disk(blocks, inodes)) && freeinode == 1 && freeblock == Layout().meta
      ensures forall j :: 0 <= j < NINODES ==> inodes[j] == EMPTY && Contents(Layout(), Disk(blocks, inodes), j) == []
    {
      blocks := seq(FSSIZE, _ => ZERO);
      inodes := seq(NINODES, _ => EMPTY);
      freeblock := Layout().meta;
      freeinode := 1;
      owner := map[];
      new;
      BlankDisk(Disk(blocks, inodes));
    }

    /** The address at a place, after handing it the next block if it had none. */
    method Need(i: nat, k: nat) returns (ok: bool, addr: nat)
      requires Valid() && i < NINODES && k < SLOTS
      requires k > NDIRECT ==> Addr(Layout(), Disk(blocks, inodes), i, NDIRECT) != 0
      modifies this`blocks, this`inodes, this`freeblock, this`owner
      ensures var cost := if old(Addr(Layout(), Disk(blocks, inodes), i, k)) == 0 then 1 else 0;
              ok == (old(freeblock) + cost <= FSSIZE) && freeblock == old(freeblock) + cost
      ensures ok ==> Valid() && Layout().meta <= addr < FSSIZE
      ensures ok ==> var d, d' := old(Disk(blocks, inodes)), Disk(blocks, inodes);
                && SameFiles(Layout(), d, d') && Addr(Layout(), d', i, k) == addr && SameSizes(d.inodes, d'.inodes, i)
                && (forall j, m :: 0 <= j < NINODES && 0 <= m < SLOTS && (j, m) != (i, k) ==>
                      Addr(Layout(), d', j, m) == Addr(Layout(), d, j, m))
      ensures ok && old(Addr(Layout(), Disk(blocks, inodes), i, k)) != 0 ==>
                addr == old(Addr(Layout(), Disk(blocks, inodes), i, k))
    {
      hide InodeOk, Addresses, SameFiles, WordAt, PutWord;
      ghost var d := Disk(blocks, inodes);
      Owned(Layout(), d, owner, i, k);
      Owned(Layout(), d, owner, i, NDIRECT);
      SameSelf(Layout(), d);
      addr := if k <= NDIRECT then inodes[i].addrs[k]
              else WordAt(blocks[inodes[i].addrs[NDIRECT]], k - NDIRECT - 1);
      ok := true;
      if addr == 0 {
        addr := freeblock;
        freeblock := freeblock + 1;
        if addr >= FSSIZE {
          return false, addr;
        }
        OrderedClaim(d, owner, i, k, addr);
        if k <= NDIRECT {
          inodes := inodes[i := Inode(inodes[i].size, inodes[i].addrs[k := addr])];
        } else {
          var ind := inodes[i].addrs[NDIRECT];
          blocks := blocks[ind := PutWord(blocks[ind], k - NDIRECT - 1, addr)];
        }
        owner := owner[addr := Place(i, k)];
        assert Disk(blocks, inodes) == Store(Layout(), d, i, k, addr);
      }
    }

    /** The disk block of block n of file i, handed out if there was none. */
    method MapBlock(i: nat, n: nat) returns (ok: bool, addr: nat)
      requires Valid() && i < NINODES && n < MAXFILE
      modifies this`blocks, this`inodes, this`freeblock, this`owner
      ensures ok == (old(freeblock) + old(Cost(Disk(blocks, inodes), i, n)) <= FSSIZE)
      ensures ok ==> freeblock == old(freeblock) + old(Cost(Disk(blocks, inodes), i, n))
      ensures ok ==> Valid() && Layout().meta <= addr < FSSIZE
      ensures ok ==> Mapped(old(Disk(blocks, inodes)), Disk(blocks, inodes), i, n)
                     && Addr(Layout(), Disk(blocks, inodes), i, Slot(n)) == addr
    {
      hide InodeOk, Ordered, SameFiles;
      if n < NDIRECT {
        ok, addr := Need(i, n);
      } else {
        ghost var d := Disk(blocks, inodes);
        ok, addr := Need(i, NDIRECT);
        if ok {
          ghost var d1 := Disk(blocks, inodes);
          assert Addr(Layout(), d, i, NDIRECT) == 0 ==> Addr(Layout(), d, i, n + 1) == 0;
          hide Addr;
          ok, addr := Need(i, n + 1);
          if ok {
            SameTwice(Layout(), d, d1, Disk(blocks, inodes));
          }
        }
      }
    }

    /** Puts s at position x of file i, within one block. */
    method AppendChunk(i: nat, x: nat, s: seq<Byte>) returns (ok: bool)
      requires Valid() && i < NINODES && x / BSIZE < MAXFILE && 0 < |s| && x % BSIZE + |s| <= BSIZE
      modifies this`blocks, this`inodes, this`freeblock, this`owner
      ensures ok == (old(freeblock) + old(Cost(Disk(blocks, inodes), i, x / BSIZE)) <= FSSIZE)
      ensures ok ==> freeblock == old(freeblock) + old(Cost(Disk(blocks, inodes), i, x / BSIZE))
      ensures ok ==> Valid() && Appended(old(Disk(blocks, inodes)), Disk(blocks, inodes), i, x, s)
    {
      hide InodeOk, SameFiles, Mapped, Addr, Patch, Appended, Cost;
      ghost var d := Disk(blocks, inodes);
      var addr;
      ok, addr := MapBlock(i, x / BSIZE);
      if ok {
        ghost var d1 := Disk(blocks, inodes);
        blocks := blocks[addr := Patch(blocks[addr], x % BSIZE, s)];
        PatchWrites(Layout(), d1, Disk(blocks, inodes), owner, i, x, s, addr);
        PatchOrdered(d1, owner, freeblock, i, x / BSIZE, addr);
        MapThenPatch(d, d1, Disk(blocks, inodes), i, x, s);
      }
    }

    /** Whether m more bytes fit, in the file and on the disk. */
    predicate Room(i: nat, m: nat)
      requires i < |inodes|
      reads this
    {
      var size := inodes[i].size;
      size + m <= MAXFILE * BSIZE && freeblock + Uses(size + m) - Uses(size) <= FSSIZE
    }

    /** Appends src to file i; false if the file or the disk is too small. */
    method IAppend(i: nat, src: seq<Byte>) returns (ok: bool)
      requires Valid() && AllTight(Disk(blocks, inodes)) && i < NINODES
      modifies this`blocks, this`inodes, this`freeblock, this`owner
      ensures ok == old(Room(i, |src|))
      ensures ok ==> freeblock == old(freeblock) + Uses(old(inodes[i].size) + |src|) - Uses(old(inodes[i].size))
      ensures ok ==>
          Valid() && AllTight(Disk(blocks, inodes))
          && OthersSame(Layout(), old(Disk(blocks, inodes)), Disk(blocks, inodes), i)
      ensures ok ==>
                Contents(Layout(), Disk(blocks, inodes), i) == old(Contents(Layout(), Disk(blocks, inodes), i)) + src
    {
      hide InodeOk, Ordered, Addr, AllTight, Contents, OthersSame, Uses, Growing;
      ghost var d := Disk(blocks, inodes);
      var off, n := inodes[i].size, 0;
      AppendStart(d, owner, freeblock, i, src);
      while n < |src|
        invariant n <= |src| && off == d.inodes[i].size + n && off <= MAXFILE * BSIZE
        invariant Valid() && Growing(d, Disk(blocks, inodes), i, src, n, old(freeblock), freeblock)
      {
        if off / BSIZE >= MAXFILE {
          return false;
        }
        var n1;
        ok, n1 := AppendRound(i, off, src, n, d, old(freeblock));
        if !ok {
          return;
        }
        n, off := n + n1, off + n1;
      }
      ghost var d1 := Disk(blocks, inodes);
      AppendedAll(d, d1, i, src, old(freeblock), freeblock);
      inodes := inodes[i := Inode(off, inodes[i].addrs)];
      AppendEnd(d, d1, Disk(blocks, inodes), owner, freeblock, i, src);
      ok := true;
    }

    /** One round of an append: the bytes that go into the block at position off. */
    method AppendRound(i: nat, off: nat, src: seq<Byte>, n: nat, ghost d: Disk, ghost first: nat)
      returns (ok: bool, n1: nat)
      requires Valid() && n < |src| && off / BSIZE < MAXFILE && i < NINODES
      requires i < |d.inodes| && off == d.inodes[i].size + n
      requires Growing(d, Disk(blocks, inodes), i, src, n, first, freeblock)
      modifies this`blocks, this`inodes, this`freeblock, this`owner
      ensures !ok ==> first + Uses(d.inodes[i].size + |src|) - Uses(d.inodes[i].size) > FSSIZE
      ensures ok ==> 0 < n1 <= |src| - n && off + n1 <= MAXFILE * BSIZE
      ensures ok ==> Valid() && Growing(d, Disk(blocks, inodes), i, src, n + n1, first, freeblock)
    {
      hide InodeOk, Ordered, Addr, TightTo, Wrote, Extended, Cost, Uses, Appended;
      n1 := Min(|src| - n, BSIZE - off % BSIZE);
      ghost var d1, size := Disk(blocks, inodes), d.inodes[i].size;
      ExtendedCost(d, d1, i, off, n1);
      UsesMono(off + n1, size + |src|);
      var s := src[n..n + n1];
      ok := AppendChunk(i, off, s);
      if ok {
        OrderedBound(Disk(blocks, inodes), owner, freeblock);
        AppendStep(d, d1, Disk(blocks, inodes), i, size, src[..n], s);
        assert src[..n] + s == src[..n + n1];
        InsideFile(off, n1);
      }
    }

    /** The next block to hand out once the root directory has m more bytes. */
    ghost function After(m: nat): int
      requires ROOTINO < |inodes|
      reads this
    {
      freeblock + Uses(inodes[ROOTINO].size + m) - Uses(inodes[ROOTINO].size)
    }

    /** Adds a file: the next inode, its entry in the root directory, its bytes block by block. */
    method AddFile(entry: seq<Byte>, data: seq<Byte>) returns (ok: bool)
      requires Ready() && ROOTINO < freeinode < NINODES && |entry| == ENTRY
      modifies this
      ensures ok == (old(Room(ROOTINO, ENTRY)) && |data| <= MAXFILE * BSIZE
                     && old(After(ENTRY)) + Uses(|data|) <= FSSIZE)
      ensures ok ==> Ready() && freeinode == old(freeinode) + 1 && freeblock == old(After(ENTRY)) + Uses(|data|)
      ensures ok ==>
                Contents(Layout(), Disk(blocks, inodes), ROOTINO)
                  == old(Contents(Layout(), Disk(blocks, inodes), ROOTINO)) + entry
      ensures ok ==> Contents(Layout(), Disk(blocks, inodes), old(freeinode)) == data
      ensures ok ==> forall j :: 2 <= j < old(freeinode) ==>
                Contents(Layout(), Disk(blocks, inodes), j) == old(Contents(Layout(), Disk(blocks, inodes), j))
    {
      hide Ordered, Addresses, InodeOk, Addr, AllTight, Contents, OthersSame, Uses;
      ghost var d := Disk(blocks, inodes);
      var inum := freeinode;
      freeinode := freeinode + 1;
      EmptyFile(d, inum);
      ok := IAppend(ROOTINO, entry);
      if !ok {
        return;
      }
      ghost var d1 := Disk(blocks, inodes);
      OthersContents(d, d1, ROOTINO);
      ok := CopyFile(inum, data);
      if ok {
        OthersContents(d1, Disk(blocks, inodes), inum);
      }
    }

    /** The loop that reads a host file a block at a time and appends what it read. */
    method CopyFile(inum: nat, data: seq<Byte>) returns (ok: bool)
      requires Valid() && AllTight(Disk(blocks, inodes)) && inum < NINODES
      requires Contents(Layout(), Disk(blocks, inodes), inum) == []
      modifies this`blocks, this`inodes, this`freeblock, this`owner
      ensures ok == (|data| <= MAXFILE * BSIZE && old(freeblock) + Uses(|data|) <= FSSIZE)
      ensures ok ==> freeblock == old(freeblock) + Uses(|data|)
      ensures ok ==>
          Valid() && AllTight(Disk(blocks, inodes))
          && OthersSame(Layout(), old(Disk(blocks, inodes)), Disk(blocks, inodes), inum)
      ensures ok ==> Contents(Layout(), Disk(blocks, inodes), inum) == data
    {
      ghost var d := Disk(blocks, inodes);
      CopyStart(d, owner, freeblock, inum, data);
      hide Ordered, InodeOk, AllTight, Copying, Uses;
      ok := true;
      var at := 0;
      while at < |data|
        invariant ok && at <= |data| && Valid() && AllTight(Disk(blocks, inodes))
        invariant Copying(d, Disk(blocks, inodes), inum, data, at, old(freeblock), freeblock)
      {
        var cc := Min(|data| - at, BSIZE);
        ok := CopyRound(inum, data, at, cc, d, old(freeblock));
        if !ok {
          return;
        }
        at := at + cc;
      }
      CopyEnd(d, Disk(blocks, inodes), inum, data, old(freeblock), freeblock);
    }

    /** One round of the copy: the next cc bytes. */
    method CopyRound(inum: nat, data: seq<Byte>, at: nat, cc: nat, ghost d: Disk, ghost first: nat) returns (ok: bool)
      requires Valid() && AllTight(Disk(blocks, inodes)) && inum < NINODES && at + cc <= |data|
      requires Copying(d, Disk(blocks, inodes), inum, data, at, first, freeblock)
      modifies this`blocks, this`inodes, this`freeblock, this`owner
      ensures !ok ==> |data| > MAXFILE * BSIZE || first + Uses(|data|) > FSSIZE
      ensures ok ==> Valid() && AllTight(Disk(blocks, inodes))
      ensures ok ==> Copying(d, Disk(blocks, inodes), inum, data, at + cc, first, freeblock)
    {
      hide Addresses, InodeOk, Addr, AllTight, Contents, OthersSame, Uses;
      UsesMono(at + cc, |data|);
      ghost var d1 := Disk(blocks, inodes);
      assert inodes[inum].size == at;
      ok := IAppend(inum, data[at..at + cc]);
      if ok {
        OthersTwice(Layout(), d, d1, Disk(blocks, inodes), inum);
        assert data[..at] + data[at..at + cc] == data[..at + cc];
      }
    }

    lemma Bounded()
      requires Valid()
      ensures freeblock <= FSSIZE
    {
    }

    /** The blocks handed out are the owned ones. */
    lemma OwnedCount()
      requires Valid()
      ensures |owner| == freeblock - Layout().meta
    {
      hide Addresses;
      assert |owner| == |owner.Keys|;
      Between(Layout().meta, freeblock, owner.Keys);
    }

    ghost predicate Ready()
      reads this
    {
      && Valid() && AllTight(Disk(blocks, inodes)) && freeinode <= NINODES
      && forall j :: freeinode <= j < NINODES ==> inodes[j] == EMPTY
    }

    /** Marks the blocks handed out, and everything before them, in the bitmap. */
    method WriteBitmap()
      requires Valid()
      modifies this`blocks
      ensures Addresses(Layout(), Disk(blocks, inodes), owner) && Bits(Layout(), blocks, owner)
      ensures SameFiles(Layout(), old(Disk(blocks, inodes)), Disk(blocks, inodes))
      ensures forall i, k :: 0 <= i < NINODES && 0 <= k < SLOTS ==>
                Addr(Layout(), Disk(blocks, inodes), i, k) == old(Addr(Layout(), Disk(blocks, inodes), i, k))
    {
      hide Addr, InodeOk, BitAt;
      ghost var d := Disk(blocks, inodes);
      var buf: Block := ZERO;
      NoBits();
      for i := 0 to freeblock
        invariant forall j :: 0 <= j < BPB ==> BitAt(buf, j) == (j < i)
      {
        buf := PutBit(buf, i, true);
      }
      blocks := blocks[Layout().bmapstart := buf];
      FreeBlocksChange(Layout(), d, Disk(blocks, inodes), owner);
      BitmapRight(blocks, owner, freeblock);
    }

    /** Rounds up the size of the root directory, then writes the bitmap. */
    method Finish()
      requires Valid() && AllTight(Disk(blocks, inodes)) && inodes[ROOTINO].size < MAXFILE * BSIZE
      modifies this`blocks, this`inodes
      ensures Addresses(Layout(), Disk(blocks, inodes), owner) && Bits(Layout(), blocks, owner)
      ensures forall j :: 0 <= j < NINODES && j != ROOTINO ==>
                && Contents(Layout(), Disk(blocks, inodes), j) == old(Contents(Layout(), Disk(blocks, inodes), j))
                && Dense(Layout(), Disk(blocks, inodes), j)
      ensures Contents(Layout(), Disk(blocks, inodes), ROOTINO)
           == old(Contents(Layout(), Disk(blocks, inodes), ROOTINO)) + Padding(old(inodes[ROOTINO].size))
      ensures Dense(Layout(), Disk(blocks, inodes), ROOTINO) <==> old(inodes[ROOTINO].size) % BSIZE != 0
    {
      hide Addr, InodeOk, Addresses, Bits, Contents, Dense, AllTight;
      ghost var d := Disk(blocks, inodes);
      var off := inodes[ROOTINO].size;
      off := (off / BSIZE + 1) * BSIZE;
      OrderedResize(d, owner, freeblock, off);
      inodes := inodes[ROOTINO := Inode(off, inodes[ROOTINO].addrs)];
      ghost var d1 := Disk(blocks, inodes);
      WriteBitmap();
      Finished(d, d1, Disk(blocks, inodes));
    }
  }

  // ---------------------------------------------------------------- the root directory

  /** The names in the root directory, and the inode numbers that go with them. */
  function RootKeys(names: seq<seq<Byte>>): (keys: seq<Name>)
    ensures |keys| == |names| + 2 && keys[0] == DOT && keys[1] == DOT + DOT
    ensures forall k :: 0 <= k < |keys| ==> |keys[k]| <= DIRSIZ && 0 !in keys[k]
  {
    var keys := [DOT, DOT + DOT] + seq(|names|, k requires 0 <= k < |names| => Key(names[k], DIRSIZ));
    assert forall k :: 0 <= k < |keys| ==> |keys[k]| <= DIRSIZ && 0 !in keys[k] by {
      forall k | 2 <= k < |keys| ensures |keys[k]| <= DIRSIZ && 0 !in keys[k] {
        KeyShort(names[k - 2], DIRSIZ);
      }
    }
    keys
  }

  function RootInum(k: nat): nat {
    if k == 0 then ROOTINO else k
  }

  /** The entries of the root directory one after the other. */
  function Rows(keys: seq<Name>): (c: seq<Byte>)
    requires forall k :: 0 <= k < |keys| ==> |keys[k]| <= DIRSIZ
    ensures |c| == ENTRY * |keys|
  {
    if keys == [] then [] else Rows(keys[..|keys| - 1]) + Entry(RootInum(|keys| - 1), keys[|keys| - 1])
  }

  lemma {:induction false} RowAt(keys: seq<Name>, k: nat)
    requires (forall j :: 0 <= j < |keys| ==> |keys[j]| <= DIRSIZ) && k < |keys|
    ensures Rows(keys)[ENTRY * k..ENTRY * k + ENTRY] == Entry(RootInum(k), keys[k])
  {
    hide Entry;
    var n := |keys| - 1;
    var front, last := Rows(keys[..n]), Entry(RootInum(n), keys[n]);
    assert Rows(keys) == front + last && |front| == ENTRY * n;
    if k < n {
      RowAt(keys[..n], k);
      assert (front + last)[ENTRY * k..ENTRY * k + ENTRY] == front[ENTRY * k..ENTRY * k + ENTRY];
    } else {
      assert (front + last)[ENTRY * k..ENTRY * k + ENTRY] == last;
    }
  }

  /** The root directory as a file: the rows, then zeros. */
  ghost predicate RootFile(c: seq<Byte>, keys: seq<Name>) {
    && (forall k :: 0 <= k < |keys| ==> |keys[k]| <= DIRSIZ && 0 !in keys[k])
    && c == Rows(keys) + Padding(ENTRY * |keys|)
  }

  lemma RootRow(c: seq<Byte>, keys: seq<Name>, k: nat)
    requires RootFile(c, keys) && k < |keys| <= NINODES
    ensures k < Count(c) && Live(c, k) && Inum(EntryAt(c, k)) == RootInum(k) && NameOf(EntryAt(c, k)) == keys[k]
  {
    RowAt(keys, k);
    EntryRound(RootInum(k), keys[k]);
    hide Padding, Rows, Inum, NameOf, Entry;
    var rows := Rows(keys);
    RowInside(|keys|, k, |c|);
    assert c[ENTRY * k..ENTRY * k + ENTRY] == rows[ENTRY * k..ENTRY * k + ENTRY];
  }

  lemma RowInside(n: nat, k: nat, size: nat)
    requires k < n && ENTRY * n <= size
    ensures ENTRY * k + ENTRY <= ENTRY * n && k < size / ENTRY
  {
  }

  lemma RootBlank(c: seq<Byte>, keys: seq<Name>, k: nat)
    requires RootFile(c, keys) && |keys| <= k < Count(c)
    ensures !Live(c, k)
  {
    hide Rows;
    assert ENTRY * |keys| <= ENTRY * k && ENTRY * k + ENTRY <= |c|;
    assert EntryAt(c, k)[0] == c[ENTRY * k] == 0 && EntryAt(c, k)[1] == c[ENTRY * k + 1] == 0;
  }

  lemma RootEntries(c: seq<Byte>, keys: seq<Name>)
    requires RootFile(c, keys) && |keys| <= NINODES
    ensures Dir(c) && Begins(c, keys)
  {
    PaddingWhole(|keys|);
    forall k | 0 <= k < |keys|
      ensures k < Count(c) && Live(c, k) && Inum(EntryAt(c, k)) == RootInum(k) && NameOf(EntryAt(c, k)) == keys[k]
    {
      RootRow(c, keys, k);
    }
    forall k | |keys| <= k < Count(c) ensures !Live(c, k) {
      RootBlank(c, keys, k);
    }
    hide Live, Inum, NameOf, Rows, Padding;
    if |keys| > 0 {
      assert |keys| - 1 < Count(c);
    }
  }

  lemma PaddingWhole(n: nat)
    ensures var size := ENTRY * n;
            ((size / BSIZE + 1) * BSIZE) % ENTRY == 0 && (size / BSIZE + 1) * BSIZE >= size + ENTRY
  {
    var q := ENTRY * n / BSIZE;
    assert (q + 1) * BSIZE == ENTRY * ((q + 1) * 64);
    assert n < (q + 1) * 64;
  }

  /** The map that the root directory stands for. */
  ghost predicate Listed(m: map<Name, nat>, keys: seq<Name>) {
    && m.Keys == (set k | 0 <= k < |keys| :: keys[k])
    && forall k :: 0 <= k < |keys| ==> keys[k] in m && m[keys[k]] == RootInum(k)
  }

  /** The root is a directory in order just when no two names are the same once they are cut. */
  lemma RootInOrder(c: seq<Byte>, keys: seq<Name>)
    requires RootFile(c, keys) && |keys| <= NINODES
    ensures Dir(c) && (Unique(c) <==> NoRepeats(keys))
    ensures NoRepeats(keys) ==> Listed(DirMap(c), keys)
  {
    RootEntries(c, keys);
    RootUnique(c, keys);
    hide NameOf, Inum, EntryAt, DirMap, RootFile, Unique, NoRepeats;
    if NoRepeats(keys) {
      RootMap(c, keys);
    }
  }

  /** The first entries of c, and no others, are in use, and have these names and their numbers. */
  ghost predicate Begins(c: seq<Byte>, keys: seq<Name>) {
    && |keys| <= Count(c) && (forall k :: 0 <= k < Count(c) ==> (Live(c, k) <==> k < |keys|))
    && forall k :: 0 <= k < |keys| ==> Inum(EntryAt(c, k)) == RootInum(k) && NameOf(EntryAt(c, k)) == keys[k]
  }

  lemma RootUnique(c: seq<Byte>, keys: seq<Name>)
    requires Begins(c, keys)
    ensures Unique(c) <==> NoRepeats(keys)
  {
    hide NameOf, Inum, EntryAt, Live;
    if Unique(c) {
      forall j, k | 0 <= j < k < |keys| ensures keys[j] != keys[k] {
        assert Live(c, j) && Live(c, k);
      }
    }
  }

  lemma RootMap(c: seq<Byte>, keys: seq<Name>)
    requires Begins(c, keys) && Unique(c)
    ensures Listed(DirMap(c), keys)
  {
    hide NameOf, Inum, EntryAt, DirMap, Unique, Live;
    forall k | 0 <= k < |keys| ensures keys[k] in Names(c) && DirMap(c)[keys[k]] == RootInum(k) {
      UniqueFirst(c, k);
    }
    forall x | x in Names(c) ensures x in (set k | 0 <= k < |keys| :: keys[k]) {
      var j :| 0 <= j < Count(c) && Live(c, j) && NameOf(EntryAt(c, j)) == x;
      assert x == keys[j];
    }
  }

  lemma RootIsDir(d: Disk, keys: seq<Name>)
    requires Shape(Layout(), d) && RootFile(Contents(Layout(), d, ROOTINO), keys) && |keys| <= NINODES
    ensures IsDir(Layout(), d, ROOTINO) <==> NoRepeats(keys)
    ensures NoRepeats(keys) ==>
              Listed(DirMap(Contents(Layout(), d, ROOTINO)), keys) && AreDirs(Layout(), d, {ROOTINO})
  {
    hide Contents, DirMap, Unique, NoRepeats, RootFile;
    var c := Contents(Layout(), d, ROOTINO);
    RootInOrder(c, keys);
    if NoRepeats(keys) {
      forall x | x in DirMap(c) ensures DirMap(c)[x] < NINODES {
        var k :| 0 <= k < |keys| && x == keys[k];
      }
    }
  }

  // ---------------------------------------------------------------- the whole image

  /** The blocks that files take together. */
  function Total(files: seq<seq<Byte>>): nat {
    if files == [] then 0 else Total(files[..|files| - 1]) + Uses(|files[|files| - 1]|)
  }

  lemma {:induction false} TotalPrefix(files: seq<seq<Byte>>, k: nat)
    requires k <= |files|
    ensures Total(files[..k]) <= Total(files)
  {
    if k == |files| {
      assert files[..k] == files;
    } else {
      TotalPrefix(files[..|files| - 1], k);
      assert files[..|files| - 1][..k] == files[..k];
    }
  }

  /** The next block to hand out once these files are in the image. */
  function Handed(files: seq<seq<Byte>>): nat {
    Layout().meta + Uses(ENTRY * (2 + |files|)) + Total(files)
  }

  /** No file is longer than a file can be, and together they fit on the disk. */
  predicate Fits(files: seq<seq<Byte>>) {
    (forall k :: 0 <= k < |files| ==> |files[k]| <= MAXFILE * BSIZE) && Handed(files) <= FSSIZE
  }

  lemma HandedMore(files: seq<seq<Byte>>, k: nat)
    requires k < |files|
    ensures Handed(files[..k + 1])
         == Handed(files[..k]) - Uses(ENTRY * (2 + k)) + Uses(ENTRY * (2 + k) + ENTRY) + Uses(|files[k]|)
    ensures Handed(files[..k + 1]) <= Handed(files)
  {
    hide Uses;
    assert files[..k + 1][..k] == files[..k];
    TotalPrefix(files, k + 1);
    assert ENTRY * (3 + k) == ENTRY * (2 + k) + ENTRY <= ENTRY * (2 + |files|);
    UsesMono(ENTRY * (3 + k), ENTRY * (2 + |files|));
  }

  /** The image holds the first k files, and its root directory the first k + 2 names. */
  ghost predicate Holding(d: Disk, freeblock: nat, keys: seq<Name>, files: seq<seq<Byte>>, k: nat) {
    && Shape(Layout(), d) && k <= |files| && |keys| == |files| + 2 && |files| <= NINODES - 2
    && (forall j :: 0 <= j < |keys| ==> |keys[j]| <= DIRSIZ)
    && Contents(Layout(), d, ROOTINO) == Rows(keys[..k + 2])
    && (forall j :: 0 <= j < k ==> Contents(Layout(), d, j + 2) == files[j] && |files[j]| <= MAXFILE * BSIZE)
    && freeblock == Handed(files[..k])
  }

  /** One file more: its name in the root directory, and its bytes. */
  method MakeFile(img: Image, name: seq<Byte>, ghost keys: seq<Name>, files: seq<seq<Byte>>, k: nat) returns (ok: bool)
    requires img.Ready() && img.freeinode == k + 2 && k < |files| && Readable(name)
    requires Holding(Disk(img.blocks, img.inodes), img.freeblock, keys, files, k) && keys[k + 2] == Key(name, DIRSIZ)
    modifies img
    ensures !ok ==> !Fits(files)
    ensures ok ==> img.Ready() && img.freeinode == k + 3
    ensures ok ==> Holding(Disk(img.blocks, img.inodes), img.freeblock, keys, files, k + 1)
  {
    hide Ordered, Addresses, InodeOk, Addr, AllTight, Contents, Uses, Handed, Padded;
    var field := StrNCpy(name);
    var inum := img.freeinode;
    ghost var d := Disk(img.blocks, img.inodes);
    HandedMore(files, k);
    assert keys[..k + 3][..k + 2] == keys[..k + 2];
    ok := img.AddFile([inum % 0x100, inum / 0x100 % 0x100] + field, files[k]);
    if ok {
      forall j | 0 <= j < k ensures Contents(Layout(), Disk(img.blocks, img.inodes), j + 2) == files[j] {
        assert Contents(Layout(), d, j + 2) == files[j];
      }
    }
  }

  /** The root directory maps this name to inode i. */
  ghost predicate Leads(d: Disk, name: Name, i: nat) {
    Shape(Layout(), d)
    && var m := DirMap(Contents(Layout(), d, ROOTINO));
    name in m && m[name] == i
  }

  lemma ListedLeads(d: Disk, names: seq<seq<Byte>>)
    requires Shape(Layout(), d) && Listed(DirMap(Contents(Layout(), d, ROOTINO)), RootKeys(names))
    ensures Leads(d, DOT, ROOTINO) && Leads(d, DOT + DOT, ROOTINO)
    ensures forall k :: 0 <= k < |names| ==> Leads(d, Key(names[k], DIRSIZ), k + 2)
  {
    hide Contents, DirMap;
    var keys := RootKeys(names);
    assert keys[0] == DOT && keys[1] == DOT + DOT;
    forall k | 0 <= k < |names| ensures Leads(d, Key(names[k], DIRSIZ), k + 2) {
      RootKeyAt(names, k);
    }
  }

  /** All of mkfs: an image holding the given files under the given names. */
  method Make(names: seq<seq<Byte>>, files: seq<seq<Byte>>) returns (ok: bool, img: Image)
    requires |names| == |files| <= NINODES - 2 && forall k :: 0 <= k < |names| ==> Readable(names[k])
    ensures fresh(img) && ok == Fits(files)
    ensures ok ==> Addresses(Layout(), Disk(img.blocks, img.inodes), img.owner) && Bits(Layout(), img.blocks, img.owner)
    ensures ok ==> forall k :: 0 <= k < |files| ==>
              && Contents(Layout(), Disk(img.blocks, img.inodes), k + 2) == files[k]
              && Dense(Layout(), Disk(img.blocks, img.inodes), k + 2)
    ensures ok ==> RootFile(Contents(Layout(), Disk(img.blocks, img.inodes), ROOTINO), RootKeys(names))
    ensures ok ==> (IsDir(Layout(), Disk(img.blocks, img.inodes), ROOTINO) <==> NoRepeats(RootKeys(names)))
    ensures ok && NoRepeats(RootKeys(names)) ==>
              && Listed(DirMap(Contents(Layout(), Disk(img.blocks, img.inodes), ROOTINO)), RootKeys(names))
              && AreDirs(Layout(), Disk(img.blocks, img.inodes), {ROOTINO})
    ensures ok && NoRepeats(RootKeys(names)) ==>
              && Leads(Disk(img.blocks, img.inodes), DOT, ROOTINO)
              && Leads(Disk(img.blocks, img.inodes), DOT + DOT, ROOTINO)
    ensures ok && NoRepeats(RootKeys(names)) ==> forall k :: 0 <= k < |files| ==>
              exists i :: 0 <= i < NINODES && Leads(Disk(img.blocks, img.inodes), Key(names[k], DIRSIZ), i)
                          && Contents(Layout(), Disk(img.blocks, img.inodes), i) == files[k]
    ensures ok ==> (Dense(Layout(), Disk(img.blocks, img.inodes), ROOTINO) <==> (2 + |files|) % 64 != 0)
    ensures ok ==> |img.owner| == Handed(files) - Layout().meta
  {
    hide Ordered, Addresses, InodeOk, Addr, AllTight, Contents, Dense, Bits, Handed, Rows, RootKeys, Padding, Holding,
        Fits, IsDir, AreDirs, RootFile, Listed, NoRepeats, Leads;
    ghost var keys := RootKeys(names);
    img := new Image();
    ok := Root(img, keys, files);
    if !ok {
      return;
    }
    var k := 0;
    while k < |files|
      invariant k <= |files| && img.Ready() && img.freeinode == k + 2 && ok
      invariant Holding(Disk(img.blocks, img.inodes), img.freeblock, keys, files, k)
    {
      RootKeyAt(names, k);
      ok := MakeFile(img, names[k], keys, files, k);
      if !ok {
        return;
      }
      k := k + 1;
    }
    ghost var d := Disk(img.blocks, img.inodes);
    img.Bounded();
    img.OwnedCount();
    HoldsAll(d, img.freeblock, keys, files);
    img.Finish();
    FinishedRoot(d, Disk(img.blocks, img.inodes), keys);
    RootIsDir(Disk(img.blocks, img.inodes), keys);
    forall j | 0 <= j < |files|
      ensures Contents(Layout(), Disk(img.blocks, img.inodes), j + 2) == files[j]
              && Dense(Layout(), Disk(img.blocks, img.inodes), j + 2)
    {
      assert Contents(Layout(), d, j + 2) == files[j];
    }
    if NoRepeats(keys) {
      ListedLeads(Disk(img.blocks, img.inodes), names);
    }
  }

  lemma HoldsAll(d: Disk, freeblock: nat, keys: seq<Name>, files: seq<seq<Byte>>)
    requires Holding(d, freeblock, keys, files, |files|) && freeblock <= FSSIZE
    ensures Fits(files) && freeblock == Handed(files) && Contents(Layout(), d, ROOTINO) == Rows(keys)
    ensures d.inodes[ROOTINO].size == ENTRY * |keys| < MAXFILE * BSIZE
    ensures d.inodes[ROOTINO].size % BSIZE != 0 <==> (2 + |files|) % 64 != 0
    ensures forall j :: 0 <= j < |files| ==> Contents(Layout(), d, j + 2) == files[j]
  {
    HoldsFiles(d, freeblock, keys, files);
    hide Holding, Handed, Contents, InodeOk, Rows;
    RootSize(d, |files|);
  }

  lemma HoldsFiles(d: Disk, freeblock: nat, keys: seq<Name>, files: seq<seq<Byte>>)
    requires Holding(d, freeblock, keys, files, |files|) && freeblock <= FSSIZE
    ensures Fits(files) && freeblock == Handed(files) && Contents(Layout(), d, ROOTINO) == Rows(keys)
    ensures Shape(Layout(), d) && |keys| == |files| + 2 && |files| <= NINODES && |Rows(keys)| == ENTRY * (2 + |files|)
    ensures forall j :: 0 <= j < |files| ==> Contents(Layout(), d, j + 2) == files[j]
  {
    hide Handed, Contents, InodeOk, Shape;
    assert files[..|files|] == files && keys[..|keys|] == keys;
  }

  lemma FinishedRoot(d: Disk, d': Disk, keys: seq<Name>)
    requires Shape(Layout(), d) && Shape(Layout(), d') && d.inodes[ROOTINO].size == ENTRY * |keys|
    requires forall k :: 0 <= k < |keys| ==> |keys[k]| <= DIRSIZ && 0 !in keys[k]
    requires Contents(Layout(), d, ROOTINO) == Rows(keys)
    requires Contents(Layout(), d', ROOTINO) == Contents(Layout(), d, ROOTINO) + Padding(d.inodes[ROOTINO].size)
    ensures RootFile(Contents(Layout(), d', ROOTINO), keys)
  {
  }

  lemma RootKeyAt(names: seq<seq<Byte>>, k: nat)
    requires k < |names|
    ensures RootKeys(names)[k + 2] == Key(names[k], DIRSIZ)
  {
  }

  /** With 62 empty files the root directory has a block that was never allocated: the second of two. */
  method RootHole(names: seq<seq<Byte>>) returns (img: Image)
    requires |names| == 62 && forall k :: 0 <= k < |names| ==> Readable(names[k])
    ensures fresh(img)
    ensures Addresses(Layout(), Disk(img.blocks, img.inodes), img.owner) && Bits(Layout(), img.blocks, img.owner)
    ensures !Dense(Layout(), Disk(img.blocks, img.inodes), ROOTINO)
    ensures img.inodes[ROOTINO].size == 2 * BSIZE && |img.owner| == 1
    ensures Addr(Layout(), Disk(img.blocks, img.inodes), ROOTINO, 1) == 0
  {
    var files: seq<seq<Byte>> := seq(62, _ => []);
    NoBytes(files);
    assert Uses(ENTRY * 64) == 1;
    hide Addresses, Bits, Dense, Uses, Total, RootFile, Addr;
    var ok;
    ok, img := Make(names, files);
    SecondHole(Disk(img.blocks, img.inodes), RootKeys(names));
  }

  lemma SecondHole(d: Disk, keys: seq<Name>)
    requires Shape(Layout(), d) && RootFile(Contents(Layout(), d, ROOTINO), keys) && |keys| == 64
    requires !Dense(Layout(), d, ROOTINO)
    ensures d.inodes[ROOTINO].size == 2 * BSIZE && Addr(Layout(), d, ROOTINO, 1) == 0
  {
    hide InodeOk, Addr, Rows, Padding;
    var c := Contents(Layout(), d, ROOTINO);
    RootRow(c, keys, 0);
    FirstByte(c);
    assert ByteAt(Layout(), d, ROOTINO, 0) == c[0];
    var n :| 0 <= n < MAXFILE && n * BSIZE < d.inodes[ROOTINO].size && Addr(Layout(), d, ROOTINO, Slot(n)) == 0;
    assert n != 0;
  }

  lemma FirstByte(c: seq<Byte>)
    requires |c| >= ENTRY && Count(c) > 0 && Inum(EntryAt(c, 0)) == ROOTINO
    ensures c[0] == ROOTINO
  {
  }

  /**
   Reading that root as ls does, an entry at a time and outside any operation: the
   entry after the 64th panics in log_write, on a disk with room. Inside an operation
   it is read, and the disk is left with a block in use that no inode on it has.
   */
  method ReadRootHole(names: seq<seq<Byte>>, outstanding: nat) returns (img: Image, fs: Fs, panic: bool)
    requires |names| == 62 && forall k :: 0 <= k < |names| ==> Readable(names[k])
    ensures !Full(Layout(), img.blocks) && (panic <==> outstanding == 0)
    ensures !panic ==> fs.dinodes == img.inodes && !InOrder(Layout(), Disk(fs.blocks, fs.dinodes))
  {
    hide Addresses, Bits, Dense, Addr, InOrder, Used;
    img := RootHole(names);
    ghost var d := Disk(img.blocks, img.inodes);
    FullCount(Layout(), d, img.owner);
    OneHole(d);
    fs := Mount(img);
    var r, data;
    panic, r, data := Readi(fs, ROOTINO, BSIZE, ENTRY, ENTRY, outstanding);
  }

  lemma OneHole(d: Disk)
    requires Shape(Layout(), d) && d.inodes[ROOTINO].size == 2 * BSIZE && Addr(Layout(), d, ROOTINO, 1) == 0
    ensures ReadEnd(2 * BSIZE, BSIZE, ENTRY, ENTRY) == 2
    ensures ReadCost(Layout(), d, ROOTINO, 1, 2) == 1 && ReadLeaks(Layout(), d, ROOTINO, 1, 2)
  {
    hide Addr, InodeOk;
    assert Holes(Layout(), d, ROOTINO, 1, 1) == 0;
    assert MapsInInode(Layout(), d, ROOTINO, 1);
  }

  lemma {:induction false} NoBytes(files: seq<seq<Byte>>)
    requires forall k :: 0 <= k < |files| ==> files[k] == []
    ensures Total(files) == 0
  {
    if files != [] {
      NoBytes(files[..|files| - 1]);
    }
  }

  /** The kernel's file system starts on what mkfs made. */
  method Mount(img: Image) returns (fs: Fs)
    requires Addresses(Layout(), Disk(img.blocks, img.inodes), img.owner) && Bits(Layout(), img.blocks, img.owner)
    ensures fresh(fs) && fs.Valid() && fs.g == Layout() && fs.dinodes == fs.inodes
    ensures fs.blocks == img.blocks && fs.inodes == img.inodes && fs.owner == img.owner
  {
    fs := new Fs(Layout(), img.blocks, img.inodes, img.owner);
  }

  /** The root directory with its first two entries. */
  method Root(img: Image, ghost keys: seq<Name>, ghost files: seq<seq<Byte>>) returns (ok: bool)
    requires img.Ready() && img.freeinode == ROOTINO && img.freeblock == Layout().meta
    requires |keys| == |files| + 2 && |files| <= NINODES - 2 && keys[0] == DOT && keys[1] == DOT + DOT
    requires forall j :: 0 <= j < |keys| ==> |keys[j]| <= DIRSIZ
    requires Contents(Layout(), Disk(img.blocks, img.inodes), ROOTINO) == []
    modifies img
    ensures ok && img.Ready() && img.freeinode == 2
    ensures Holding(Disk(img.blocks, img.inodes), img.freeblock, keys, files, 0)
  {
    TwoRows(keys, files);
    hide Ordered, Addresses, InodeOk, Addr, AllTight, Contents, OthersSame, Rows, Uses, Handed, Padded;
    ghost var d := Disk(img.blocks, img.inodes);
    img.freeinode := img.freeinode + 1;
    ok := img.IAppend(ROOTINO, [ROOTINO, 0] + Padded(DOT));
    if !ok {
      return;
    }
    ghost var d1 := Disk(img.blocks, img.inodes);
    OthersContents(d, d1, ROOTINO);
    ok := img.IAppend(ROOTINO, [ROOTINO, 0] + Padded(DOT + DOT));
    if ok {
      OthersContents(d1, Disk(img.blocks, img.inodes), ROOTINO);
    }
  }

  lemma TwoRows(keys: seq<Name>, files: seq<seq<Byte>>)
    requires |keys| >= 2 && keys[0] == DOT && keys[1] == DOT + DOT
    requires forall j :: 0 <= j < |keys| ==> |keys[j]| <= DIRSIZ
    ensures Rows(keys[..2]) == [ROOTINO, 0] + Padded(DOT) + ([ROOTINO, 0] + Padded(DOT + DOT))
    ensures Uses(0) == 0 && Uses(ENTRY) == Uses(2 * ENTRY) == 1 && Handed(files[..0]) == Layout().meta + 1
  {
    assert keys[..2][..1] == keys[..1] && keys[..1][..0] == [];
    assert Rows(keys[..1]) == Rows(keys[..1][..0]) + Entry(ROOTINO, DOT);
    assert Rows(keys[..2]) == Rows(keys[..1]) + Entry(ROOTINO, DOT + DOT);
  }

  lemma RootSize(d: Disk, n: nat)
    requires Shape(Layout(), d) && |Contents(Layout(), d, ROOTINO)| == ENTRY * (2 + n) && n <= NINODES
    ensures d.inodes[ROOTINO].size == ENTRY * (2 + n) < MAXFILE * BSIZE
    ensures d.inodes[ROOTINO].size % BSIZE != 0 <==> (2 + n) % 64 != 0
  {
    Sixteens(2 + n);
  }

  lemma Sixteens(m: nat)
    ensures ENTRY * m % BSIZE == ENTRY * (m % 64)
  {
    assert m == 64 * (m / 64) + m % 64;
    assert ENTRY * m == BSIZE * (m / 64) + ENTRY * (m % 64);
  }

  // ---------------------------------------------------------------- appending, as values

  /** Mapping block n of file i has changed no file, no size, and no address but its own. */
  ghost predicate Mapped(d: Disk, d': Disk, i: nat, n: nat) {
    && Shape(Layout(), d) && Shape(Layout(), d') && i < NINODES && n < MAXFILE
    && SameFiles(Layout(), d, d') && SameSizes(d.inodes, d'.inodes, i)
    && (forall j, m :: 0 <= j < NINODES && 0 <= m < SLOTS && !(j == i && (m == Slot(n) || m == NDIRECT)) ==>
          Addr(Layout(), d', j, m) == Addr(Layout(), d, j, m))
    && (n < NDIRECT ==> Addr(Layout(), d', i, NDIRECT) == Addr(Layout(), d, i, NDIRECT))
  }

  /** Sizes and the other files are as they were, and so are all file addresses but that of block n of file i. */
  ghost predicate Near(d: Disk, d': Disk, i: nat, n: nat) {
    && Shape(Layout(), d) && Shape(Layout(), d') && i < NINODES && n < MAXFILE
    && OthersSame(Layout(), d, d', i) && SameSizes(d.inodes, d'.inodes, i)
    && Addr(Layout(), d', i, Slot(n)) != 0
    && (forall j, m :: 0 <= j < NINODES && 0 <= m < MAXFILE && (j, m) != (i, n) ==>
          Addr(Layout(), d', j, Slot(m)) == Addr(Layout(), d, j, Slot(m)))
    && (forall j :: 0 <= j < NINODES && (j != i || n < NDIRECT) ==>
          Addr(Layout(), d', j, NDIRECT) == Addr(Layout(), d, j, NDIRECT))
    && (n >= NDIRECT ==> Addr(Layout(), d', i, NDIRECT) != 0)
  }

  ghost predicate Appended(d: Disk, d': Disk, i: nat, x: nat, s: seq<Byte>) {
    Near(d, d', i, x / BSIZE) && Wrote(Layout(), d, d', i, x, s)
  }

  lemma PatchOrdered(d: Disk, own: Owners, freeblock: nat, i: nat, n: nat, addr: nat)
    requires Ordered(d, own, freeblock) && i < NINODES && n < MAXFILE && addr == Addr(Layout(), d, i, Slot(n))
    requires addr != 0
    ensures Layout().meta <= addr < freeblock
  {
    hide Addr;
    assert PointsRight(Layout(), d, own, i, Slot(n));
  }

  lemma MapThenPatch(d: Disk, d1: Disk, d2: Disk, i: nat, x: nat, s: seq<Byte>)
    requires Mapped(d, d1, i, x / BSIZE) && Shape(Layout(), d2) && Addr(Layout(), d1, i, Slot(x / BSIZE)) != 0
    requires GrewOnly(Layout(), d1, d2, i) && Wrote(Layout(), d1, d2, i, x, s)
    requires forall j, k :: 0 <= j < NINODES && 0 <= k < SLOTS ==> Addr(Layout(), d2, j, k) == Addr(Layout(), d1, j, k)
    ensures Appended(d, d2, i, x, s)
  {
    assert x / BSIZE >= NDIRECT ==> Addr(Layout(), d1, i, NDIRECT) != 0;
    hide Addr, InodeOk, FileBlock;
    assert SameFile(Layout(), d, d1, i);
    forall j | 0 <= j < NINODES && j != i ensures SameFile(Layout(), d, d2, j) && d2.inodes[j] == d.inodes[j] {
      assert SameFile(Layout(), d, d1, j) && SameFile(Layout(), d1, d2, j);
    }
  }

  /** File i has grown its blocks up to position x; everything else is as it was. */
  ghost predicate Extended(d: Disk, d': Disk, i: nat, x: nat) {
    && Shape(Layout(), d) && Shape(Layout(), d') && i < NINODES
    && OthersSame(Layout(), d, d', i) && SameSizes(d.inodes, d'.inodes, i) && TightTo(d', i, x)
    && (forall j, m :: 0 <= j < NINODES && 0 <= m < SLOTS && j != i ==>
          Addr(Layout(), d', j, m) == Addr(Layout(), d, j, m))
  }

  lemma ExtendedCost(d: Disk, d': Disk, i: nat, x: nat, m: nat)
    requires Extended(d, d', i, x) && x / BSIZE < MAXFILE && 0 < m <= BSIZE - x % BSIZE
    ensures Cost(d', i, x / BSIZE) == Uses(x + m) - Uses(x)
  {
    CostIsUses(d', i, x, m);
  }

  /** A copy of data into file i of disk d has got as far as `at` bytes. */
  ghost predicate Copying(d: Disk, d': Disk, i: nat, data: seq<Byte>, at: nat, first: nat, freeblock: nat) {
    && Shape(Layout(), d) && Shape(Layout(), d') && i < NINODES && at <= |data| && at <= MAXFILE * BSIZE
    && OthersSame(Layout(), d, d', i) && Contents(Layout(), d', i) == data[..at]
    && freeblock == first + Uses(at) && freeblock <= FSSIZE
  }

  lemma CopyStart(d: Disk, own: Owners, freeblock: nat, i: nat, data: seq<Byte>)
    requires Ordered(d, own, freeblock) && i < NINODES && Contents(Layout(), d, i) == []
    ensures Copying(d, d, i, data, 0, freeblock, freeblock)
  {
    hide Addr;
    OthersSelf(Layout(), d, i);
  }

  lemma CopyEnd(d: Disk, d': Disk, i: nat, data: seq<Byte>, first: nat, freeblock: nat)
    requires Copying(d, d', i, data, |data|, first, freeblock)
    ensures |data| <= MAXFILE * BSIZE && freeblock == first + Uses(|data|) && freeblock <= FSSIZE
    ensures OthersSame(Layout(), d, d', i) && Contents(Layout(), d', i) == data
  {
    assert data[..|data|] == data;
  }

  /** An append of src to file i of disk d has got as far as n bytes. */
  ghost predicate Growing(d: Disk, d': Disk, i: nat, src: seq<Byte>, n: nat, first: nat, freeblock: nat) {
    && Shape(Layout(), d) && Shape(Layout(), d') && i < NINODES && n <= |src|
    && var size := d.inodes[i].size;
    && Extended(d, d', i, size + n) && Wrote(Layout(), d, d', i, size, src[..n])
    && freeblock == first + Uses(size + n) - Uses(size) && freeblock <= FSSIZE
  }

  lemma AppendStart(d: Disk, own: Owners, freeblock: nat, i: nat, src: seq<Byte>)
    requires Ordered(d, own, freeblock) && AllTight(d) && i < NINODES
    ensures Growing(d, d, i, src, 0, freeblock, freeblock) && d.inodes[i].size <= MAXFILE * BSIZE
  {
    hide Addr;
    InodeSize(Layout(), d, i);
    WroteNothing(Layout(), d, i, d.inodes[i].size);
    assert src[..0] == [];
  }

  lemma AppendedAll(d: Disk, d': Disk, i: nat, src: seq<Byte>, first: nat, freeblock: nat)
    requires Growing(d, d', i, src, |src|, first, freeblock)
    ensures Extended(d, d', i, d.inodes[i].size + |src|) && Wrote(Layout(), d, d', i, d.inodes[i].size, src)
    ensures freeblock == first + Uses(d.inodes[i].size + |src|) - Uses(d.inodes[i].size) && freeblock <= FSSIZE
  {
    assert src[..|src|] == src;
  }

  lemma InsideFile(off: nat, n1: nat)
    requires off / BSIZE < MAXFILE && n1 <= BSIZE - off % BSIZE
    ensures off + n1 <= MAXFILE * BSIZE
  {
    assert off == off / BSIZE * BSIZE + off % BSIZE;
  }

  lemma AppendStep(d: Disk, d1: Disk, d2: Disk, i: nat, size: nat, t: seq<Byte>, s: seq<Byte>)
    requires var x := size + |t|;
             Extended(d, d1, i, x) && Appended(d1, d2, i, x, s) && 0 < |s| && x % BSIZE + |s| <= BSIZE
    requires Wrote(Layout(), d, d1, i, size, t)
    ensures Extended(d, d2, i, size + |t| + |s|) && Wrote(Layout(), d, d2, i, size, t + s)
  {
    hide Addr, InodeOk, ByteAt;
    var x := size + |t|;
    OthersTwice(Layout(), d, d1, d2, i);
    forall n | 0 <= n < MAXFILE ensures Addr(Layout(), d2, i, Slot(n)) != 0 <==> n * BSIZE < x + |s| {
      BlockBelow(n, x, |s|);
    }
    BlockBelow(NDIRECT, x, |s|);
    forall j, m | 0 <= j < NINODES && 0 <= m < SLOTS && j != i
      ensures Addr(Layout(), d2, j, m) == Addr(Layout(), d, j, m)
    {
      if m != NDIRECT {
        assert m == Slot(if m < NDIRECT then m else m - 1);
      }
    }
    forall y | 0 <= y < MAXFILE * BSIZE
      ensures ByteAt(Layout(), d2, i, y)
           == if size <= y < size + |t + s| then (t + s)[y - size] else ByteAt(Layout(), d, i, y)
    {
    }
  }

  lemma BlockBelow(n: nat, x: nat, m: nat)
    requires 0 < m && x % BSIZE + m <= BSIZE
    ensures n * BSIZE < x + m <==> n * BSIZE < x || n == x / BSIZE
  {
    assert x == x / BSIZE * BSIZE + x % BSIZE;
  }

  lemma StillBlank(d: Disk, d': Disk, j: nat)
    requires Shape(Layout(), d) && Shape(Layout(), d') && j < NINODES && SameFile(Layout(), d, d', j)
    requires BlankFrom(d, j, d.inodes[j].size) && d'.inodes[j] == d.inodes[j]
    ensures BlankFrom(d', j, d'.inodes[j].size)
  {
    hide FileBlock;
    forall y | d.inodes[j].size <= y < MAXFILE * BSIZE ensures ByteAt(Layout(), d', j, y) == 0 {
      assert ByteAt(Layout(), d', j, y) == ByteAt(Layout(), d, j, y);
    }
  }

  lemma AppendEnd(d: Disk, d1: Disk, d2: Disk, own: Owners, freeblock: nat, i: nat, src: seq<Byte>)
    requires Shape(Layout(), d) && AllTight(d) && i < NINODES && Ordered(d1, own, freeblock)
    requires var size := d.inodes[i].size;
             && Extended(d, d1, i, size + |src|) && Wrote(Layout(), d, d1, i, size, src)
                 && size + |src| <= MAXFILE * BSIZE
             && d2 == Disk(d1.blocks, d1.inodes[i := Inode(size + |src|, d1.inodes[i].addrs)])
    ensures Ordered(d2, own, freeblock) && AllTight(d2) && OthersSame(Layout(), d, d2, i)
    ensures Contents(Layout(), d2, i) == Contents(Layout(), d, i) + src
  {
    hide Addr, InodeOk, Addresses, FileBlock;
    var g, size := Layout(), d.inodes[i].size;
    Shrunk(g, d, d1, own, i, size + |src|);
    assert src[..|src|] == src;
    assert SameFile(g, d1, d2, i);
    forall j | 0 <= j < NINODES ensures TightTo(d2, j, d2.inodes[j].size) && BlankFrom(d2, j, d2.inodes[j].size) {
      assert TightTo(d, j, d.inodes[j].size) && BlankFrom(d, j, d.inodes[j].size);
      if j == i {
        forall y | size + |src| <= y < MAXFILE * BSIZE ensures ByteAt(g, d2, i, y) == 0 {
          assert ByteAt(g, d2, i, y) == ByteAt(g, d1, i, y) == ByteAt(g, d, i, y);
        }
      } else {
        StillBlank(d, d2, j);
      }
    }
    hide AllTight, TightTo;
    WrittenContents(g, d, d1, d2, i, size, src, |src|, |src|);
    AfterAll(Contents(g, d, i), size, src);
  }

  // ---------------------------------------------------------------- the beginning and the end, as values

  lemma BlankDisk(d: Disk)
    requires |d.blocks| == FSSIZE && |d.inodes| == NINODES
    requires forall b :: 0 <= b < FSSIZE ==> d.blocks[b] == ZERO
    requires forall j :: 0 <= j < NINODES ==> d.inodes[j] == EMPTY
    ensures Ordered(d, map[], Layout().meta) && AllTight(d)
    ensures forall j :: 0 <= j < NINODES ==> Contents(Layout(), d, j) == []
  {
    assert forall j :: 0 <= j < NINODES ==> InodeOk(Layout(), d.inodes[j]);
    assert forall i, k :: 0 <= i < NINODES && 0 <= k < SLOTS ==> Addr(Layout(), d, i, k) == 0;
    hide Addr;
  }

  lemma EmptyFile(d: Disk, i: nat)
    requires Shape(Layout(), d) && i < NINODES && d.inodes[i] == EMPTY
    ensures Contents(Layout(), d, i) == []
  {
  }

  lemma OthersContents(d: Disk, d': Disk, i: nat)
    requires Shape(Layout(), d) && Shape(Layout(), d') && OthersSame(Layout(), d, d', i)
    ensures forall j :: 0 <= j < NINODES && j != i ==>
              d'.inodes[j] == d.inodes[j] && Contents(Layout(), d', j) == Contents(Layout(), d, j)
  {
    hide Addr, InodeOk;
    forall j | 0 <= j < NINODES && j != i ensures Contents(Layout(), d', j) == Contents(Layout(), d, j) {
      SameContents(d, d', j);
    }
  }

  lemma SameContents(d: Disk, d': Disk, j: nat)
    requires Shape(Layout(), d) && Shape(Layout(), d') && j < NINODES && SameFile(Layout(), d, d', j)
    requires d.inodes[j].size <= d'.inodes[j].size
    ensures Contents(Layout(), d, j) <= Contents(Layout(), d', j)
    ensures d.inodes[j].size == d'.inodes[j].size ==> Contents(Layout(), d', j) == Contents(Layout(), d, j)
  {
    hide Addr, InodeOk, FileBlock;
    var c, c' := Contents(Layout(), d, j), Contents(Layout(), d', j);
    assert forall x :: 0 <= x < |c| ==> c'[x] == c[x];
  }

  lemma {:induction false} ZeroBits(k: nat)
    ensures !BitOf(0, k)
  {
    if k > 0 {
      ZeroBits(k - 1);
    }
  }

  lemma NoBits()
    ensures forall j :: 0 <= j < BPB ==> !BitAt(ZERO, j)
  {
    forall j | 0 <= j < BPB ensures !BitAt(ZERO, j) {
      ZeroBits(j % 8);
    }
  }

  lemma BitmapRight(blocks: seq<Block>, own: Owners, freeblock: nat)
    requires |blocks| == FSSIZE && Layout().meta <= freeblock <= FSSIZE
    requires forall b: nat :: b in own <==> Layout().meta <= b < freeblock
    requires forall j :: 0 <= j < BPB ==> BitAt(blocks[Layout().bmapstart], j) == (j < freeblock)
    ensures Bits(Layout(), blocks, own)
  {
    hide BitAt;
    forall b | 0 <= b < FSSIZE ensures BitRight(Layout(), blocks, own, b) {
    }
  }

  lemma OrderedResize(d: Disk, own: Owners, freeblock: nat, size: nat)
    requires Ordered(d, own, freeblock) && size <= MAXFILE * BSIZE
    ensures Ordered(Disk(d.blocks, d.inodes[ROOTINO := Inode(size, d.inodes[ROOTINO].addrs)]), own, freeblock)
    ensures var d' := Disk(d.blocks, d.inodes[ROOTINO := Inode(size, d.inodes[ROOTINO].addrs)]);
            SameFiles(Layout(), d, d')
            && forall i, k :: 0 <= i < NINODES && 0 <= k < SLOTS ==> Addr(Layout(), d', i, k) == Addr(Layout(), d, i, k)
  {
    hide Addr, InodeOk, Addresses, SameFiles;
    OthersSelf(Layout(), d, ROOTINO);
    Shrunk(Layout(), d, d, own, ROOTINO, size);
  }

  lemma Finished(d: Disk, d1: Disk, d2: Disk)
    requires Shape(Layout(), d) && Shape(Layout(), d1) && Shape(Layout(), d2) && AllTight(d)
    requires SameFiles(Layout(), d, d1) && SameFiles(Layout(), d1, d2)
    requires forall i, k :: 0 <= i < NINODES && 0 <= k < SLOTS ==> Addr(Layout(), d2, i, k) == Addr(Layout(), d, i, k)
    requires d2.inodes
          == d.inodes[ROOTINO := Inode((d.inodes[ROOTINO].size / BSIZE + 1) * BSIZE, d.inodes[ROOTINO].addrs)]
    requires d.inodes[ROOTINO].size < MAXFILE * BSIZE
    ensures forall j :: 0 <= j < NINODES && j != ROOTINO ==>
              Contents(Layout(), d2, j) == Contents(Layout(), d, j) && Dense(Layout(), d2, j)
    ensures Contents(Layout(), d2, ROOTINO) == Contents(Layout(), d, ROOTINO) + Padding(d.inodes[ROOTINO].size)
    ensures Dense(Layout(), d2, ROOTINO) <==> d.inodes[ROOTINO].size % BSIZE != 0
  {
    SameTwice(Layout(), d, d1, d2);
    hide Addr, InodeOk, FileBlock;
    forall j | 0 <= j < NINODES && j != ROOTINO
      ensures Contents(Layout(), d2, j) == Contents(Layout(), d, j) && Dense(Layout(), d2, j)
    {
      assert SameFile(Layout(), d, d2, j) && TightTo(d, j, d.inodes[j].size);
      SameContents(d, d2, j);
    }
    assert SameFile(Layout(), d, d2, ROOTINO) && TightTo(d, ROOTINO, d.inodes[ROOTINO].size);
    PaddedContents(d, d2);
    RoundedDense(d, d2);
  }

  /** The zeros that rounding up a size adds. */
  function Padding(size: nat): (z: seq<Byte>)
    ensures |z| == (size / BSIZE + 1) * BSIZE - size
  {
    seq((size / BSIZE + 1) * BSIZE - size, _ => 0)
  }

  lemma PaddedContents(d: Disk, d': Disk)
    requires Shape(Layout(), d) && Shape(Layout(), d') && AllTight(d) && SameFile(Layout(), d, d', ROOTINO)
    requires d'.inodes[ROOTINO].size == (d.inodes[ROOTINO].size / BSIZE + 1) * BSIZE
    ensures Contents(Layout(), d', ROOTINO) == Contents(Layout(), d, ROOTINO) + Padding(d.inodes[ROOTINO].size)
  {
    hide Addr, InodeOk, FileBlock;
    var c, c', size := Contents(Layout(), d, ROOTINO), Contents(Layout(), d', ROOTINO), d.inodes[ROOTINO].size;
    assert BlankFrom(d, ROOTINO, size);
    forall y | 0 <= y < |c'| ensures c'[y] == (c + Padding(size))[y] {
      assert ByteAt(Layout(), d', ROOTINO, y) == ByteAt(Layout(), d, ROOTINO, y);
    }
  }

  /** Rounding past the last block adds a block to the size that was never allocated, just when the size was whole. */
  lemma RoundedDense(d: Disk, d': Disk)
    requires Shape(Layout(), d) && Shape(Layout(), d') && TightTo(d, ROOTINO, d.inodes[ROOTINO].size)
    requires forall k :: 0 <= k < SLOTS ==> Addr(Layout(), d', ROOTINO, k) == Addr(Layout(), d, ROOTINO, k)
    requires d.inodes[ROOTINO].size < MAXFILE * BSIZE
    requires d'.inodes[ROOTINO].size == (d.inodes[ROOTINO].size / BSIZE + 1) * BSIZE
    ensures Dense(Layout(), d', ROOTINO) <==> d.inodes[ROOTINO].size % BSIZE != 0
  {
    hide Addr, InodeOk;
    var size := d.inodes[ROOTINO].size;
    var q := size / BSIZE;
    assert size == q * BSIZE + size % BSIZE;
    if size % BSIZE != 0 {
      forall n | 0 <= n < MAXFILE && n * BSIZE < d'.inodes[ROOTINO].size
        ensures Addr(Layout(), d', ROOTINO, Slot(n)) != 0
      {
        assert n <= q;
      }
    } else {
      assert q < MAXFILE && Addr(Layout(), d, ROOTINO, Slot(q)) == 0;
    }
  }
}
