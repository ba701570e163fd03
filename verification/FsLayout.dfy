/**
 The file system's structures on disk, as values: the free bitmap, inodes with
 direct and indirect block addresses, who owns each block, and the bytes of a file
 (kernel/fs.h, kernel/fs.c).
 */
module FsLayout {
  import opened Blocks

  const NDIRECT: nat := 12
  const NINDIRECT: nat := 256
  const MAXFILE: nat := NDIRECT + NINDIRECT
  const BPB: nat := 8 * BSIZE
  const IPB: nat := 16
  const ROOTINO: nat := 1

  // ---------------------------------------------------------------- bits

  function Pow(k: nat): (p: nat)
    ensures p > 0
  {
    if k == 0 then 1 else 2 * Pow(k - 1)
  }

  /** Bit k of x: what x & (1 << k) asks. */
  predicate BitOf(x: nat, k: nat) {
    if k == 0 then x % 2 == 1 else BitOf(x / 2, k - 1)
  }

  /** x with bit k on or off: x | (1 << k) and x & ~(1 << k). */
  function PutBitOf(x: nat, k: nat, on: bool): (r: nat)
    ensures r == if BitOf(x, k) == on then x else if on then x + Pow(k) else x - Pow(k)
  {
    if k == 0 then x / 2 * 2 + (if on then 1 else 0)
    else 2 * PutBitOf(x / 2, k - 1, on) + x % 2
  }

  lemma {:induction false} PutBitOfBits(x: nat, k: nat, on: bool, j: nat)
    ensures BitOf(PutBitOf(x, k, on), j) == if j == k then on else BitOf(x, j)
  {
    if k > 0 && j > 0 {
      PutBitOfBits(x / 2, k - 1, on, j - 1);
    }
  }

  lemma {:induction false} PutBitOfBound(x: nat, k: nat, on: bool, n: nat)
    requires k < n && x < Pow(n)
    ensures PutBitOf(x, k, on) < Pow(n)
  {
    if k > 0 {
      PutBitOfBound(x / 2, k - 1, on, n - 1);
    }
  }

  predicate BitAt(b: Block, i: nat)
    requires i < BPB
  {
    BitOf(b.at[i / 8], i % 8)
  }

  function PutBit(b: Block, i: nat, on: bool): (r: Block)
    requires i < BPB
    ensures forall j :: 0 <= j < BPB ==> BitAt(r, j) == if j == i then on else BitAt(b, j)
  {
    hide BitOf, PutBitOf;
    var x := PutBitOf(b.at[i / 8], i % 8, on);
    assert x < 256 by { PutBitOfBound(b.at[i / 8], i % 8, on, 8); assert Pow(8) == 256 by { PowEight(); } }
    var r: Block := Bytes(b.at[i / 8 := x]);
    assert forall j :: 0 <= j < BPB ==> BitAt(r, j) == if j == i then on else BitAt(b, j) by {
      forall j | 0 <= j < BPB ensures BitAt(r, j) == if j == i then on else BitAt(b, j) {
        PutBitOfBits(b.at[i / 8], i % 8, on, j % 8);
      }
    }
    r
  }

  lemma PowEight()
    ensures Pow(8) == 256
  {
    assert Pow(4) == 16;
    assert Pow(6) == 64;
  }

  // ---------------------------------------------------------------- the layout

  /** The super block: sizes in blocks; blocks from meta on hold files. */
  datatype Super = Super(size: nat, ninodes: nat, inodestart: nat, bmapstart: nat, meta: nat)

  predicate Sane(g: Super) {
    && 0 < g.size < 0x1_0000_0000
    && g.bmapstart + (g.size - 1) / BPB < g.meta <= g.size
    && g.inodestart + g.ninodes / IPB < g.bmapstart
  }

  /** The bitmap block for block b, and the inode block for inode i. */
  function BBlock(g: Super, b: nat): nat {
    b / BPB + g.bmapstart
  }

  function IBlock(g: Super, i: nat): nat {
    i / IPB + g.inodestart
  }

  datatype Inode = Inode(size: nat, addrs: seq<nat>)

  predicate InodeOk(g: Super, ino: Inode) {
    && |ino.addrs| == NDIRECT + 1 && ino.size <= MAXFILE * BSIZE
    && forall k :: 0 <= k <= NDIRECT ==> ino.addrs[k] < g.size
  }

  datatype Disk = Disk(blocks: seq<Block>, inodes: seq<Inode>)

  predicate Shape(g: Super, d: Disk) {
    && Sane(g) && |d.blocks| == g.size && |d.inodes| == g.ninodes
    && forall i :: 0 <= i < g.ninodes ==> InodeOk(g, d.inodes[i])
  }

  // ---------------------------------------------------------------- the bitmap

  predicate Used(g: Super, blocks: seq<Block>, b: nat)
    requires Sane(g) && |blocks| == g.size && b < g.size
  {
    BitAt(blocks[BBlock(g, b)], b % BPB)
  }

  function Mark(g: Super, blocks: seq<Block>, b: nat, on: bool): (r: seq<Block>)
    requires Sane(g) && |blocks| == g.size && b < g.size
    ensures |r| == g.size
    ensures forall c :: 0 <= c < g.size && c != BBlock(g, b) ==> r[c] == blocks[c]
  {
    blocks[BBlock(g, b) := PutBit(blocks[BBlock(g, b)], b % BPB, on)]
  }

  lemma Marked(g: Super, blocks: seq<Block>, b: nat, on: bool)
    requires Sane(g) && |blocks| == g.size && b < g.size
    ensures forall c :: 0 <= c < g.size ==>
              Used(g, Mark(g, blocks, b, on), c) == if c == b then on else Used(g, blocks, c)
  {
    hide BitAt;
    var r := Mark(g, blocks, b, on);
    forall c | 0 <= c < g.size ensures Used(g, r, c) == if c == b then on else Used(g, blocks, c) {
      if c != b {
        OtherBit(b, c);
      }
    }
  }

  lemma OtherBit(b: nat, c: nat)
    requires b != c
    ensures c / BPB != b / BPB || c % BPB != b % BPB
  {
    assert b == BPB * (b / BPB) + b % BPB;
    assert c == BPB * (c / BPB) + c % BPB;
  }

  // ---------------------------------------------------------------- block addresses

  /**
   The places an inode keeps block addresses: slots below NDIRECT are direct, slot
   NDIRECT is the indirect block, and the later ones are the words in that block.
   */
  const SLOTS: nat := NDIRECT + 1 + NINDIRECT

  function Slot(n: nat): nat {
    if n < NDIRECT then n else n + 1
  }

  datatype Place = Place(inum: nat, slot: nat)

  function Addr(g: Super, d: Disk, i: nat, k: nat): nat
    requires Shape(g, d) && i < g.ninodes && k < SLOTS
  {
    var ino := d.inodes[i];
    if k <= NDIRECT then ino.addrs[k]
    else if ino.addrs[NDIRECT] == 0 then 0
    else WordAt(d.blocks[ino.addrs[NDIRECT]], k - NDIRECT - 1)
  }

  /** Storing an address at a place. */
  function Store(g: Super, d: Disk, i: nat, k: nat, b: nat): (r: Disk)
    requires Shape(g, d) && i < g.ninodes && k < SLOTS && b < g.size
    requires k > NDIRECT ==> Addr(g, d, i, NDIRECT) != 0
    ensures Shape(g, r)
  {
    hide WordAt, PutWord;
    var ino := d.inodes[i];
    if k <= NDIRECT then Disk(d.blocks, d.inodes[i := Inode(ino.size, ino.addrs[k := b])])
    else
      var ind := ino.addrs[NDIRECT];
      Disk(d.blocks[ind := PutWord(d.blocks[ind], k - NDIRECT - 1, b)], d.inodes)
  }

  // ---------------------------------------------------------------- ownership

  type Owners = map<nat, Place>

  /** An address in use is a file block, and this place owns it. */
  predicate PointsRight(g: Super, d: Disk, own: Owners, i: nat, k: nat)
    requires Shape(g, d) && i < g.ninodes && k < SLOTS
  {
    var b := Addr(g, d, i, k);
    b != 0 ==> g.meta <= b < g.size && b in own && own[b] == Place(i, k)
  }

  /** A block that is owned is found at its owner's place. */
  predicate OwnedRight(g: Super, d: Disk, own: Owners, b: nat)
    requires Shape(g, d)
  {
    b in own ==>
      && g.meta <= b < g.size && own[b].inum < g.ninodes && own[b].slot < SLOTS
      && Addr(g, d, own[b].inum, own[b].slot) == b
  }

  /** The places holding addresses and the owned blocks correspond one to one. */
  ghost predicate Addresses(g: Super, d: Disk, own: Owners): (r: bool)
    ensures r ==> Shape(g, d)
  {
    && Shape(g, d)
    && (forall i, k :: 0 <= i < g.ninodes && 0 <= k < SLOTS ==> PointsRight(g, d, own, i, k))
    && (forall b :: OwnedRight(g, d, own, b))
  }

  predicate BitRight(g: Super, blocks: seq<Block>, own: Owners, b: nat)
    requires Sane(g) && |blocks| == g.size && b < g.size
  {
    Used(g, blocks, b) <==> b < g.meta || b in own
  }

  /** The bitmap marks exactly the metadata and the owned blocks. */
  predicate Bits(g: Super, blocks: seq<Block>, own: Owners) {
    && Sane(g) && |blocks| == g.size
    && forall b :: 0 <= b < g.size ==> BitRight(g, blocks, own, b)
  }

  // ---------------------------------------------------------------- the bytes of a file

  function BlockAt(blocks: seq<Block>, b: nat): Block {
    if b == 0 || b >= |blocks| then ZERO else blocks[b]
  }

  /** Block n of file i; a block never allocated reads as zeros. */
  function FileBlock(g: Super, d: Disk, i: nat, n: nat): Block
    requires Shape(g, d) && i < g.ninodes && n < MAXFILE
  {
    BlockAt(d.blocks, Addr(g, d, i, Slot(n)))
  }

  predicate SameFile(g: Super, d: Disk, d': Disk, i: nat)
    requires Shape(g, d) && Shape(g, d') && i < g.ninodes
  {
    forall n :: 0 <= n < MAXFILE ==> FileBlock(g, d', i, n) == FileBlock(g, d, i, n)
  }

  ghost predicate SameFiles(g: Super, d: Disk, d': Disk)
    requires Shape(g, d) && Shape(g, d')
  {
    forall i :: 0 <= i < g.ninodes ==> SameFile(g, d, d', i)
  }

  lemma SameTwice(g: Super, d: Disk, d1: Disk, d2: Disk)
    requires Shape(g, d) && Shape(g, d1) && Shape(g, d2) && SameFiles(g, d, d1) && SameFiles(g, d1, d2)
    ensures SameFiles(g, d, d2)
  {
    hide FileBlock, Shape;
    forall i | 0 <= i < g.ninodes ensures SameFile(g, d, d2, i) {
      assert SameFile(g, d, d1, i) && SameFile(g, d1, d2, i);
    }
  }

  function ByteAt(g: Super, d: Disk, i: nat, off: nat): Byte
    requires Shape(g, d) && i < g.ninodes && off < MAXFILE * BSIZE
  {
    FileBlock(g, d, i, off / BSIZE).at[off % BSIZE]
  }

  function Contents(g: Super, d: Disk, i: nat): (c: seq<Byte>)
    requires Shape(g, d) && i < g.ninodes
    ensures |c| == d.inodes[i].size <= MAXFILE * BSIZE
    ensures forall x :: 0 <= x < |c| ==> c[x] == ByteAt(g, d, i, x)
  {
    seq(d.inodes[i].size, x requires 0 <= x < d.inodes[i].size => ByteAt(g, d, i, x))
  }

  /** Every block below the size is allocated. */
  predicate Dense(g: Super, d: Disk, i: nat)
    requires Shape(g, d) && i < g.ninodes
  {
    forall n :: 0 <= n < MAXFILE && n * BSIZE < d.inodes[i].size ==> Addr(g, d, i, Slot(n)) != 0
  }

  // ---------------------------------------------------------------- what the steps keep

  /** Changing blocks that nobody owns, or that are no indirect block, moves no address. */
  lemma AddrsKept(g: Super, d: Disk, d': Disk, own: Owners)
    requires Addresses(g, d, own) && d'.inodes == d.inodes && |d'.blocks| == g.size
    requires forall b :: b in own && b < g.size && own[b].slot == NDIRECT ==> d'.blocks[b] == d.blocks[b]
    ensures Addresses(g, d', own)
    ensures forall i, k :: 0 <= i < g.ninodes && 0 <= k < SLOTS ==> Addr(g, d', i, k) == Addr(g, d, i, k)
  {
    hide WordAt;
    assert Shape(g, d');
    forall i, k | 0 <= i < g.ninodes && 0 <= k < SLOTS ensures Addr(g, d', i, k) == Addr(g, d, i, k) {
      assert PointsRight(g, d, own, i, NDIRECT);
    }
    forall i, k | 0 <= i < g.ninodes && 0 <= k < SLOTS ensures PointsRight(g, d', own, i, k) {
      assert PointsRight(g, d, own, i, k);
    }
    forall b ensures OwnedRight(g, d', own, b) {
      assert OwnedRight(g, d, own, b);
    }
  }

  /** Blocks that nobody owns can change freely. */
  lemma FreeBlocksChange(g: Super, d: Disk, d': Disk, own: Owners)
    requires Addresses(g, d, own) && d'.inodes == d.inodes && |d'.blocks| == g.size
    requires forall b :: b in own && b < g.size ==> d'.blocks[b] == d.blocks[b]
    ensures Addresses(g, d', own) && SameFiles(g, d, d')
    ensures forall i, k :: 0 <= i < g.ninodes && 0 <= k < SLOTS ==> Addr(g, d', i, k) == Addr(g, d, i, k)
  {
    hide Addr, InodeOk;
    forall b | b in own ensures b < g.size {
      assert OwnedRight(g, d, own, b);
    }
    AddrsKept(g, d, d', own);
    forall i, n | 0 <= i < g.ninodes && 0 <= n < MAXFILE ensures FileBlock(g, d', i, n) == FileBlock(g, d, i, n) {
      assert PointsRight(g, d, own, i, Slot(n));
    }
  }

  /** Writing block n of file i changes that block of that file and nothing else. */
  lemma DataWrite(g: Super, d: Disk, d': Disk, own: Owners, i: nat, n: nat, blk: Block)
    requires Addresses(g, d, own) && i < g.ninodes && n < MAXFILE
    requires var b := Addr(g, d, i, Slot(n)); 0 < b < g.size && d' == Disk(d.blocks[b := blk], d.inodes)
    ensures Addresses(g, d', own) && FileBlock(g, d', i, n) == blk
    ensures forall j, m :: 0 <= j < g.ninodes && 0 <= m < MAXFILE && (j, m) != (i, n) ==>
              FileBlock(g, d', j, m) == FileBlock(g, d, j, m)
    ensures forall j, k :: 0 <= j < g.ninodes && 0 <= k < SLOTS ==> Addr(g, d', j, k) == Addr(g, d, j, k)
  {
    hide Addr, InodeOk;
    var b := Addr(g, d, i, Slot(n));
    assert PointsRight(g, d, own, i, Slot(n));
    AddrsKept(g, d, d', own);
    forall j, m | 0 <= j < g.ninodes && 0 <= m < MAXFILE && (j, m) != (i, n)
      ensures FileBlock(g, d', j, m) == FileBlock(g, d, j, m)
    {
      assert PointsRight(g, d, own, j, Slot(m));
    }
  }

  /** Storing the address of a zeroed free block where there was none. */
  lemma StoredAddrs(g: Super, d: Disk, own: Owners, i: nat, k: nat, b: nat)
    requires Addresses(g, d, own) && i < g.ninodes && k < SLOTS
    requires Addr(g, d, i, k) == 0 && (k > NDIRECT ==> Addr(g, d, i, NDIRECT) != 0)
    requires g.meta <= b < g.size && b !in own && d.blocks[b] == ZERO
    ensures forall j, m :: 0 <= j < g.ninodes && 0 <= m < SLOTS ==>
              Addr(g, Store(g, d, i, k, b), j, m) == if (j, m) == (i, k) then b else Addr(g, d, j, m)
  {
    hide WordAt, PutWord;
    var d' := Store(g, d, i, k, b);
    assert InodeOk(g, d.inodes[i]) && InodeOk(g, d'.inodes[i]);
    assert PointsRight(g, d, own, i, NDIRECT);
    ZeroWords();
    forall j, m | 0 <= j < g.ninodes && 0 <= m < SLOTS
      ensures Addr(g, d', j, m) == if (j, m) == (i, k) then b else Addr(g, d, j, m)
    {
      assert PointsRight(g, d, own, j, NDIRECT);
    }
  }

  lemma ZeroWords()
    ensures forall j :: 0 <= j < WORDS ==> WordAt(ZERO, j) == 0
  {
    forall j | 0 <= j < WORDS ensures WordAt(ZERO, j) == 0 {
      var z: seq<Byte> := ZERO.at[4 * j..4 * j + 4];
      assert z[0] == 0 && z[1] == 0 && z[2] == 0 && z[3] == 0;
    }
  }

  lemma Claimed(g: Super, d: Disk, own: Owners, i: nat, k: nat, b: nat)
    requires Addresses(g, d, own) && i < g.ninodes && k < SLOTS
    requires Addr(g, d, i, k) == 0 && (k > NDIRECT ==> Addr(g, d, i, NDIRECT) != 0)
    requires g.meta <= b < g.size && b !in own && d.blocks[b] == ZERO
    ensures var d' := Store(g, d, i, k, b);
            Addresses(g, d', own[b := Place(i, k)]) && SameFiles(g, d, d')
  {
    StoredAddrs(g, d, own, i, k, b);
    ClaimedFiles(g, d, own, i, k, b);
    hide Addr, InodeOk, Store, SameFiles;
    ClaimedOwners(g, d, Store(g, d, i, k, b), own, i, k, b);
  }

  lemma ClaimedOwners(g: Super, d: Disk, d': Disk, own: Owners, i: nat, k: nat, b: nat)
    requires Addresses(g, d, own) && Shape(g, d') && i < g.ninodes && k < SLOTS && g.meta <= b < g.size && b !in own
    requires Addr(g, d, i, k) == 0
    requires forall j, m :: 0 <= j < g.ninodes && 0 <= m < SLOTS ==>
               Addr(g, d', j, m) == if (j, m) == (i, k) then b else Addr(g, d, j, m)
    ensures Addresses(g, d', own[b := Place(i, k)])
  {
    hide Addr, InodeOk;
    var own' := own[b := Place(i, k)];
    forall j, m | 0 <= j < g.ninodes && 0 <= m < SLOTS ensures PointsRight(g, d', own', j, m) {
      assert PointsRight(g, d, own, j, m);
    }
    forall c ensures OwnedRight(g, d', own', c) {
      assert OwnedRight(g, d, own, c);
    }
  }

  lemma ClaimedFiles(g: Super, d: Disk, own: Owners, i: nat, k: nat, b: nat)
    requires Addresses(g, d, own) && i < g.ninodes && k < SLOTS
    requires Addr(g, d, i, k) == 0 && (k > NDIRECT ==> Addr(g, d, i, NDIRECT) != 0)
    requires g.meta <= b < g.size && b !in own && d.blocks[b] == ZERO
    ensures SameFiles(g, d, Store(g, d, i, k, b))
  {
    StoredAddrs(g, d, own, i, k, b);
    var d' := Store(g, d, i, k, b);
    assert PointsRight(g, d, own, i, NDIRECT);
    assert forall c :: 0 <= c < g.size && c != Addr(g, d, i, NDIRECT) ==> d'.blocks[c] == d.blocks[c];
    hide Addr, InodeOk, Store;
    forall j, n | 0 <= j < g.ninodes && 0 <= n < MAXFILE ensures FileBlock(g, d', j, n) == FileBlock(g, d, j, n) {
      assert PointsRight(g, d, own, j, Slot(n));
    }
  }

  /** Owners but for the places of inode i that a truncation has dealt with. */
  function Without(own: Owners, i: nat, lo: nat, hi: nat): Owners {
    map b | b in own && !(own[b].inum == i && lo <= own[b].slot < hi) :: own[b]
  }

  /** Clearing a direct address gives up just the block that was there. */
  lemma DropDirect(g: Super, d: Disk, own: Owners, i: nat, k: nat)
    requires Addresses(g, d, own) && i < g.ninodes && k < NDIRECT
    ensures Addresses(g, Store(g, d, i, k, 0), Without(own, i, k, k + 1))
    ensures forall j :: 0 <= j < g.ninodes && j != i ==> SameFile(g, d, Store(g, d, i, k, 0), j)
  {
    hide WordAt;
    var d', own' := Store(g, d, i, k, 0), Without(own, i, k, k + 1);
    forall j, m | 0 <= j < g.ninodes && 0 <= m < SLOTS
      ensures Addr(g, d', j, m) == if (j, m) == (i, k) then 0 else Addr(g, d, j, m)
    {
    }
    hide Addr, InodeOk;
    forall j, m | 0 <= j < g.ninodes && 0 <= m < SLOTS ensures PointsRight(g, d', own', j, m) {
      assert PointsRight(g, d, own, j, m);
    }
    forall c ensures OwnedRight(g, d', own', c) {
      assert OwnedRight(g, d, own, c);
    }
  }

  /** Clearing the address of the indirect block gives up it and every block it lists. */
  lemma DropIndirect(g: Super, d: Disk, own: Owners, i: nat)
    requires Addresses(g, d, own) && i < g.ninodes
    ensures Addresses(g, Store(g, d, i, NDIRECT, 0), Without(own, i, NDIRECT, SLOTS))
    ensures forall j :: 0 <= j < g.ninodes && j != i ==> SameFile(g, d, Store(g, d, i, NDIRECT, 0), j)
  {
    hide WordAt;
    var d', own' := Store(g, d, i, NDIRECT, 0), Without(own, i, NDIRECT, SLOTS);
    forall j, m | 0 <= j < g.ninodes && 0 <= m < SLOTS
      ensures Addr(g, d', j, m) == if j == i && m >= NDIRECT then 0 else Addr(g, d, j, m)
    {
    }
    hide Addr, InodeOk;
    forall j, m | 0 <= j < g.ninodes && 0 <= m < SLOTS ensures PointsRight(g, d', own', j, m) {
      assert PointsRight(g, d, own, j, m);
    }
    forall c ensures OwnedRight(g, d', own', c) {
      assert OwnedRight(g, d, own, c);
    }
  }

  /** Giving a block to a place, or taking it back, in the bitmap. */
  lemma BitsMarked(g: Super, blocks: seq<Block>, blocks': seq<Block>, own: Owners, own': Owners, b: nat, on: bool)
    requires Bits(g, blocks, own) && g.meta <= b < g.size && |blocks'| == g.size
    requires forall c :: 0 <= c < g.size ==> Used(g, blocks', c) == if c == b then on else Used(g, blocks, c)
    requires (b in own') == on && forall c :: c != b ==> (c in own' <==> c in own)
    ensures Bits(g, blocks', own')
  {
    hide Used;
    forall c | 0 <= c < g.size ensures BitRight(g, blocks', own', c) {
      assert BitRight(g, blocks, own, c);
    }
  }

  /** The bitmap is in the metadata, so file blocks do not hold it. */
  lemma BitsKept(g: Super, blocks: seq<Block>, blocks': seq<Block>, own: Owners)
    requires Bits(g, blocks, own) && |blocks'| == g.size
    requires forall c :: 0 <= c < g.meta ==> blocks'[c] == blocks[c]
    ensures Bits(g, blocks', own)
  {
    hide BitAt;
    forall c | 0 <= c < g.size ensures BitRight(g, blocks', own, c) {
      assert BitRight(g, blocks, own, c);
      assert BBlock(g, c) < g.meta;
    }
  }

  // ---------------------------------------------------------------- writing bytes

  /** c with the bytes of src put at off, growing as needed. */
  function Splice(c: seq<Byte>, off: nat, src: seq<Byte>): (r: seq<Byte>)
    requires off <= |c|
    ensures |r| == if off + |src| <= |c| then |c| else off + |src|
    ensures forall x :: 0 <= x < |r| ==> r[x] == if off <= x < off + |src| then src[x - off] else c[x]
  {
    c[..off] + src + if off + |src| <= |c| then c[off + |src|..] else []
  }

  /** A block with some bytes put at an offset within it. */
  function Patch(b: Block, at: nat, src: seq<Byte>): (r: Block)
    requires at + |src| <= BSIZE
    ensures forall x :: 0 <= x < BSIZE ==> r.at[x] == if at <= x < at + |src| then src[x - at] else b.at[x]
  {
    Bytes(b.at[..at] + src + b.at[at + |src|..])
  }
}
