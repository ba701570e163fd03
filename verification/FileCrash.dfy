/**
 A write to a file and a crash in the middle of it: what is on disk once the log has
 been replayed. The file layer keeps inodes and blocks apart; here they are put into
 one sequence of blocks, as kernel/fs.h lays them out, and handed to the redo log.
 */
module FileCrash {
  import opened Blocks
  import opened FsLayout
  import opened FileSystem
  import opened FileIo
  import opened Params
  import opened Sequences
  import Log = RedoLog

  // ---------------------------------------------------------------- inodes in their blocks

  /** An inode takes 16 words: two for its type and its links, then its size, then its addresses. */
  const INODE: nat := 16

  function NumberAt(b: Block, at: nat): nat
    requires at < WORDS
  {
    WordAt(b, at)
  }

  function InodeAt(b: Block, j: nat): (ino: Inode)
    requires j < IPB
    ensures |ino.addrs| == NDIRECT + 1 && ino.size == NumberAt(b, INODE * j + 2)
    ensures forall k :: 0 <= k <= NDIRECT ==> ino.addrs[k] == NumberAt(b, INODE * j + 3 + k)
  {
    Inode(NumberAt(b, INODE * j + 2),
          seq<nat>(NDIRECT + 1, k requires 0 <= k <= NDIRECT => NumberAt(b, INODE * j + 3 + k)))
  }

  /** Words put at a position one after the other. */
  function PutWords(b: Block, at: nat, ws: seq<Word>): Block
    requires at + |ws| <= WORDS
  {
    if ws == [] then b else PutWord(PutWords(b, at, ws[..|ws| - 1]), at + |ws| - 1, ws[|ws| - 1])
  }

  lemma {:induction false} PutWordsAt(b: Block, at: nat, ws: seq<Word>, k: nat)
    requires at + |ws| <= WORDS && k < WORDS
    ensures WordAt(PutWords(b, at, ws), k) == if at <= k < at + |ws| then ws[k - at] else WordAt(b, k)
  {
    hide WordAt, PutWord;
    if ws != [] {
      PutWordsAt(b, at, ws[..|ws| - 1], k);
    }
  }

  predicate Fits(ino: Inode) {
    |ino.addrs| == NDIRECT + 1 && ino.size < UINT && forall k :: 0 <= k <= NDIRECT ==> ino.addrs[k] < UINT
  }

  function InodeWords(ino: Inode): (ws: seq<Word>)
    requires Fits(ino)
    ensures |ws| == NDIRECT + 2 && ws[0] == ino.size && forall k :: 0 <= k <= NDIRECT ==> ws[k + 1] == ino.addrs[k]
  {
    [ino.size] + seq(NDIRECT + 1, k requires 0 <= k <= NDIRECT => WordOf(ino.addrs[k]))
  }

  function WordOf(x: nat): Word
    requires x < UINT
  {
    x
  }

  function PutInode(b: Block, j: nat, ino: Inode): Block
    requires j < IPB && Fits(ino)
  {
    PutWords(b, INODE * j + 2, InodeWords(ino))
  }

  lemma PutInodeHere(b: Block, j: nat, ino: Inode)
    requires j < IPB && Fits(ino)
    ensures InodeAt(PutInode(b, j, ino), j) == ino
  {
    hide WordAt, PutWords, InodeWords;
    var r, ws := PutInode(b, j, ino), InodeWords(ino);
    PutWordsAt(b, INODE * j + 2, ws, INODE * j + 2);
    forall k | 0 <= k <= NDIRECT ensures InodeAt(r, j).addrs[k] == ino.addrs[k] {
      PutWordsAt(b, INODE * j + 2, ws, INODE * j + 3 + k);
    }
    assert InodeAt(r, j).addrs == ino.addrs;
  }

  lemma PutInodeThere(b: Block, j: nat, ino: Inode, i: nat)
    requires j < IPB && Fits(ino) && i < IPB && i != j
    ensures InodeAt(PutInode(b, j, ino), i) == InodeAt(b, i)
  {
    hide WordAt, PutWords, InodeWords;
    var r := PutInode(b, j, ino);
    PutWordsAt(b, INODE * j + 2, InodeWords(ino), INODE * i + 2);
    forall k | 0 <= k <= NDIRECT ensures InodeAt(r, i).addrs[k] == InodeAt(b, i).addrs[k] {
      PutWordsAt(b, INODE * j + 2, InodeWords(ino), INODE * i + 3 + k);
    }
    assert InodeAt(r, i).addrs == InodeAt(b, i).addrs;
  }

  /** The blocks with the first n inodes put into theirs. */
  function Imprint(g: Super, blocks: seq<Block>, inodes: seq<Inode>, n: nat): (r: seq<Block>)
    requires Sane(g) && |blocks| == g.size && n <= g.ninodes == |inodes|
    requires forall i :: 0 <= i < |inodes| ==> Fits(inodes[i])
    ensures |r| == g.size
    ensures forall b :: 0 <= b < g.size && !(g.inodestart <= b < g.bmapstart) ==> r[b] == blocks[b]
  {
    if n == 0 then blocks
    else
      var r := Imprint(g, blocks, inodes, n - 1);
      InodeBlock(g, n - 1);
      r[IBlock(g, n - 1) := PutInode(r[IBlock(g, n - 1)], (n - 1) % IPB, inodes[n - 1])]
  }

  lemma InodeBlock(g: Super, i: nat)
    requires Sane(g) && i < g.ninodes
    ensures g.inodestart <= IBlock(g, i) < g.bmapstart < g.size
  {
    assert i / IPB <= g.ninodes / IPB;
  }

  /** Each inode is found where it was put. */
  lemma {:induction false} ImprintReads(g: Super, blocks: seq<Block>, inodes: seq<Inode>, n: nat, i: nat)
    requires Sane(g) && |blocks| == g.size && n <= g.ninodes == |inodes| && i < n
    requires forall j :: 0 <= j < |inodes| ==> Fits(inodes[j])
    ensures IBlock(g, i) < g.size && InodeAt(Imprint(g, blocks, inodes, n)[IBlock(g, i)], i % IPB) == inodes[i]
  {
    hide PutInode, InodeAt;
    InodeBlock(g, i);
    InodeBlock(g, n - 1);
    var r := Imprint(g, blocks, inodes, n - 1);
    if i < n - 1 {
      ImprintReads(g, blocks, inodes, n - 1, i);
      OtherInode(i, n - 1);
      if i / IPB == (n - 1) / IPB {
        PutInodeThere(r[IBlock(g, n - 1)], (n - 1) % IPB, inodes[n - 1], i % IPB);
      }
    } else {
      PutInodeHere(r[IBlock(g, i)], i % IPB, inodes[i]);
    }
  }

  lemma OtherInode(i: nat, j: nat)
    requires i != j
    ensures i / IPB != j / IPB || i % IPB != j % IPB
  {
    assert i == IPB * (i / IPB) + i % IPB && j == IPB * (j / IPB) + j % IPB;
  }

  /** A block depends on what it held and on the inodes that are in it. */
  lemma {:induction false} ImprintLocal(g: Super, d: Disk, d': Disk, n: nat, b: nat)
    requires Sane(g) && |d.blocks| == |d'.blocks| == g.size && n <= g.ninodes == |d.inodes| == |d'.inodes| && b < g.size
    requires forall j :: 0 <= j < g.ninodes ==> Fits(d.inodes[j]) && Fits(d'.inodes[j])
    requires d'.blocks[b] == d.blocks[b]
    requires forall j :: 0 <= j < g.ninodes && d'.inodes[j] != d.inodes[j] ==> IBlock(g, j) != b
    ensures Imprint(g, d'.blocks, d'.inodes, n)[b] == Imprint(g, d.blocks, d.inodes, n)[b]
  {
    hide PutInode;
    if n > 0 {
      ImprintLocal(g, d, d', n - 1, b);
      InodeBlock(g, n - 1);
    }
  }

  // ---------------------------------------------------------------- a file system as a disk

  lemma InodesFit(g: Super, d: Disk)
    requires Shape(g, d)
    ensures forall j :: 0 <= j < g.ninodes ==> Fits(d.inodes[j])
  {
    assert forall j :: 0 <= j < g.ninodes ==> InodeOk(g, d.inodes[j]);
  }

  /** The home blocks of a disk that holds a file system. */
  ghost function OnDisk(g: Super, l: Log.Layout, d: Disk): (h: seq<Block>)
    requires Shape(g, d)
    ensures |h| == g.size
  {
    InodesFit(g, d);
    Log.Home(l, Imprint(g, d.blocks, d.inodes, g.ninodes))
  }

  /** The file system that home blocks hold. */
  ghost function ReadDisk(g: Super, h: seq<Block>): Disk
    requires Sane(g) && |h| == g.size
  {
    Disk(h, seq(g.ninodes, i requires 0 <= i < g.ninodes => (InodeBlock(g, i); InodeAt(h[IBlock(g, i)], i % IPB))))
  }

  /** The log comes before the inodes, as mkfs lays them out. */
  predicate Before(g: Super, l: Log.Layout) {
    l.start + l.size <= g.inodestart
  }

  /** What is read back has the same inodes, bitmap and files. */
  lemma ReadBackDisk(g: Super, l: Log.Layout, d: Disk)
    requires Shape(g, d) && Before(g, l)
    ensures var r := ReadDisk(g, OnDisk(g, l, d));
            r.inodes == d.inodes && forall b :: g.bmapstart <= b < g.size ==> r.blocks[b] == d.blocks[b]
  {
    InodesFit(g, d);
    hide InodeAt, Imprint;
    var r := ReadDisk(g, OnDisk(g, l, d));
    assert forall b :: g.bmapstart <= b < g.size ==> r.blocks[b] == d.blocks[b];
    forall i | 0 <= i < g.ninodes ensures r.inodes[i] == d.inodes[i] {
      ReadInode(g, l, d, i);
    }
    assert r.inodes == d.inodes;
  }

  lemma ReadInode(g: Super, l: Log.Layout, d: Disk, i: nat)
    requires Shape(g, d) && Before(g, l) && i < g.ninodes
    ensures IBlock(g, i) < g.size && InodeAt(OnDisk(g, l, d)[IBlock(g, i)], i % IPB) == d.inodes[i]
  {
    InodesFit(g, d);
    hide InodeAt, Imprint;
    InodeBlock(g, i);
    ImprintReads(g, d.blocks, d.inodes, g.ninodes, i);
  }

  lemma BitsFromMap(g: Super, blocks: seq<Block>, blocks': seq<Block>, own: Owners)
    requires Bits(g, blocks, own) && |blocks'| == g.size
    requires forall b :: g.bmapstart <= b < g.size ==> blocks'[b] == blocks[b]
    ensures Bits(g, blocks', own)
  {
    hide BitAt;
    forall c | 0 <= c < g.size ensures BitRight(g, blocks', own, c) {
      assert BitRight(g, blocks, own, c);
      MapInside(g, c);
    }
  }

  /** A file system in order is in order when it is read back, with the same files. */
  lemma ReadsInOrder(g: Super, l: Log.Layout, d: Disk)
    requires Shape(g, d) && InOrder(g, d) && Before(g, l)
    ensures var r := ReadDisk(g, OnDisk(g, l, d));
            InOrder(g, r) && Shape(g, r) && r.inodes == d.inodes && SameFiles(g, d, r)
            && forall i :: 0 <= i < g.ninodes ==> (Dense(g, r, i) <==> Dense(g, d, i))
  {
    var own :| Addresses(g, d, own) && Bits(g, d.blocks, own);
    var r := ReadDisk(g, OnDisk(g, l, d));
    ReadBackDisk(g, l, d);
    hide ReadDisk, OnDisk;
    OwnedSame(g, d, r, own);
    hide Addr, InodeOk, Bits;
    FreeBlocksChange(g, d, r, own);
    BitsFromMap(g, d.blocks, r.blocks, own);
    hide Addresses, SameFiles;
    DenseSame(g, d, r);
  }

  lemma OwnedSame(g: Super, d: Disk, r: Disk, own: Owners)
    requires Addresses(g, d, own) && |r.blocks| == g.size
    requires forall b :: g.bmapstart <= b < g.size ==> r.blocks[b] == d.blocks[b]
    ensures forall b :: b in own && b < g.size ==> r.blocks[b] == d.blocks[b]
  {
    hide Addr, InodeOk;
    forall b | b in own && b < g.size ensures r.blocks[b] == d.blocks[b] {
      assert OwnedRight(g, d, own, b);
    }
  }

  lemma DenseSame(g: Super, d: Disk, r: Disk)
    requires Shape(g, d) && Shape(g, r) && r.inodes == d.inodes
    requires forall i, k :: 0 <= i < g.ninodes && 0 <= k < SLOTS ==> Addr(g, r, i, k) == Addr(g, d, i, k)
    ensures forall i :: 0 <= i < g.ninodes ==> (Dense(g, r, i) <==> Dense(g, d, i))
  {
    hide Addr, InodeOk;
  }

  // ---------------------------------------------------------------- transactions of a write

  /** The blocks of a set, one after the other. */
  ghost function Listed(s: set<nat>): (q: seq<nat>)
    ensures NoRepeats(q) && |q| == |s| && forall b :: b in q <==> b in s
  {
    if s == {} then []
    else
      var b :| b in s;
      var rest := Listed(s - {b});
      assert forall x :: x in [b] + rest <==> x == b || x in rest;
      [b] + rest
  }

  ghost function Words(g: Super, s: set<nat>): (ws: seq<Word>)
    requires Sane(g) && Inside(g, s)
    ensures |ws| == |s| && NoRepeats(ws) && forall b :: b in ws <==> b in s
  {
    var q := Listed(s);
    assert forall k :: 0 <= k < |q| ==> q[k] in s;
    var ws := seq<Word>(|q|, k requires 0 <= k < |q| => (assert q[k] in s; q[k]));
    assert forall k :: 0 <= k < |q| ==> ws[k] == q[k];
    assert forall b :: b in ws <==> b in q;
    ws
  }

  /** The transaction that takes one disk to another by the blocks it logs. */
  ghost function TxnOf(g: Super, l: Log.Layout, d': Disk, used: set<nat>): (t: Log.Txn)
    requires Shape(g, d') && Inside(g, used)
    ensures |t.blocks| == |t.data| == |used|
  {
    var bs, h := Words(g, used), OnDisk(g, l, d');
    Log.Txn(bs, seq<Block>(|bs|, k requires 0 <= k < |bs| => (assert bs[k] in bs; h[bs[k]])))
  }

  /** Installing blocks gives each of them its data and leaves the rest. */
  lemma {:induction false} Installed(a: seq<Block>, bs: seq<Word>, data: seq<Block>, h: seq<Block>, b: nat)
    requires |bs| == |data| && |a| == |h| && b < |a|
    requires forall k :: 0 <= k < |bs| ==> bs[k] < |h| && data[k] == h[bs[k]]
    ensures Log.Apply(a, Log.Installs(bs, data))[b] == if b in bs then h[b] else a[b]
  {
    if bs != [] {
      var n := |bs| - 1;
      var ws := Log.Installs(bs, data);
      Installed(a, bs[..n], data[..n], h, b);
      assert ws[..n] == Log.Installs(bs[..n], data[..n]);
      assert bs == bs[..n] + [bs[n]];
    }
  }

  /** Its effect on what is on disk is the new disk. */
  lemma TxnTakes(g: Super, l: Log.Layout, d: Disk, d': Disk, used: set<nat>)
    requires Persists(g, d, d', used) && Before(g, l)
    ensures Shape(g, d) && Shape(g, d') && Log.Effect(OnDisk(g, l, d), TxnOf(g, l, d', used)) == OnDisk(g, l, d')
  {
    var h, h', t := OnDisk(g, l, d), OnDisk(g, l, d'), TxnOf(g, l, d', used);
    hide OnDisk, TxnOf, InOrder, InodeOk, Imprint;
    TxnData(g, l, d', used);
    var r := Log.Effect(h, t);
    forall b | 0 <= b < g.size ensures r[b] == h'[b] {
      Installed(h, t.blocks, t.data, h', b);
      if b !in used {
        NotLogged(g, l, d, d', used, b);
      }
    }
    assert r == h';
  }

  lemma TxnData(g: Super, l: Log.Layout, d': Disk, used: set<nat>)
    requires Shape(g, d') && Inside(g, used)
    ensures var t := TxnOf(g, l, d', used);
            && (forall b :: b in t.blocks <==> b in used)
            && forall k :: 0 <= k < |t.blocks| ==> t.blocks[k] < g.size && t.data[k] == OnDisk(g, l, d')[t.blocks[k]]
  {
    hide OnDisk, InodeOk;
    var t := TxnOf(g, l, d', used);
    forall k | 0 <= k < |t.blocks| ensures t.blocks[k] < g.size {
      assert t.blocks[k] in t.blocks;
    }
  }

  /** A block that a transaction does not log stays. */
  lemma NotLogged(g: Super, l: Log.Layout, d: Disk, d': Disk, used: set<nat>, b: nat)
    requires Persists(g, d, d', used) && b < g.size && b !in used
    ensures Shape(g, d) && Shape(g, d') && OnDisk(g, l, d')[b] == OnDisk(g, l, d)[b]
  {
    hide Imprint, InOrder;
    InodesFit(g, d);
    InodesFit(g, d');
    ImprintLocal(g, d, d', g.ninodes, b);
  }

  lemma TxnIsOk(g: Super, l: Log.Layout, d': Disk, used: set<nat>)
    requires Shape(g, d') && Inside(g, used) && Before(g, l) && |used| <= LOGSIZE && |used| < l.size
    ensures Log.TxnOk(l, g.size, TxnOf(g, l, d', used))
  {
    TxnData(g, l, d', used);
    hide TxnOf, InodeOk, OnDisk;
    var t := TxnOf(g, l, d', used);
    forall k | 0 <= k < |t.blocks| ensures t.blocks[k] < g.size && !Log.InLog(l, t.blocks[k]) {
      assert t.blocks[k] in t.blocks;
    }
  }

  // ---------------------------------------------------------------- a crash in the middle

  /** Transactions ts commit one after the other, and in the k-th the machine stops after `writes` block writes. */
  ghost function Events(ts: seq<Log.Txn>, k: nat, writes: nat, retries: seq<nat>): (es: seq<Log.Event>)
    requires k < |ts|
    ensures |es| == k + 1 && (forall j :: 0 <= j < k ==> es[j] == Log.Commit(ts[j]))
    ensures es[k] == Log.Crash(ts[k], writes, retries)
  {
    seq(k, j requires 0 <= j < k => Log.Commit(ts[j])) + [Log.Crash(ts[k], writes, retries)]
  }

  ghost predicate Leads(a: seq<Block>, t: Log.Txn, b: seq<Block>) {
    |t.blocks| == |t.data| && Log.Effect(a, t) == b
  }

  /** The home blocks of a chain of transactions: those before the last, or those after it. */
  lemma {:induction false} NetOfChain(hs: seq<seq<Block>>, ts: seq<Log.Txn>, k: nat, writes: nat, retries: seq<nat>,
                                      i: nat)
    requires |hs| == |ts| + 1 && i <= k < |ts| && forall j :: 0 <= j < |ts| ==> Leads(hs[j], ts[j], hs[j + 1])
    ensures var es := Events(ts, k, writes, retries);
            && (forall j :: 0 <= j < |es| ==> |es[j].t.blocks| == |es[j].t.data|)
            && Log.Net(hs[i], es[i..]) == hs[if Log.Commits(es[k]) then k + 1 else k]
    decreases k - i
  {
    hide Log.Effect;
    var es := Events(ts, k, writes, retries);
    assert Leads(hs[i], ts[i], hs[i + 1]);
    assert es[i..][0] == es[i] && es[i..][1..] == es[i + 1..];
    forall j | 0 <= j < |es| ensures |es[j].t.blocks| == |es[j].t.data| {
      assert es[j].t == ts[j] && Leads(hs[j], ts[j], hs[j + 1]);
    }
    if i < k {
      NetOfChain(hs, ts, k, writes, retries, i + 1);
      if ts[i].blocks == [] {
        NoEffect(hs[i], ts[i]);
      }
    } else {
      assert es[k + 1..] == [];
    }
  }

  lemma NoEffect(a: seq<Block>, t: Log.Txn)
    requires t.blocks == [] && t.data == []
    ensures Log.Effect(a, t) == a
  {
    assert Log.Installs(t.blocks, t.data) == [];
  }

  /** The home blocks that the transactions of a write leave, and the transactions themselves. */
  ghost function Homes(g: Super, l: Log.Layout, snaps: seq<Disk>): (hs: seq<seq<Block>>)
    requires forall k :: 0 <= k < |snaps| ==> Shape(g, snaps[k])
    ensures |hs| == |snaps| && forall k :: 0 <= k < |hs| ==> hs[k] == OnDisk(g, l, snaps[k])
  {
    seq(|snaps|, k requires 0 <= k < |snaps| => OnDisk(g, l, snaps[k]))
  }

  ghost function Txns(g: Super, l: Log.Layout, snaps: seq<Disk>, ops: seq<set<nat>>): (ts: seq<Log.Txn>)
    requires |snaps| == |ops| + 1 && forall k :: 0 <= k < |snaps| ==> Shape(g, snaps[k])
    requires forall k :: 0 <= k < |ops| ==> Inside(g, ops[k])
    ensures |ts| == |ops| && forall k :: 0 <= k < |ts| ==> ts[k] == TxnOf(g, l, snaps[k + 1], ops[k])
  {
    seq(|ops|, k requires 0 <= k < |ops| => TxnOf(g, l, snaps[k + 1], ops[k]))
  }

  /** What the disks of a trail are like. */
  lemma TrailFacts(g: Super, d: Disk, snaps: seq<Disk>, ops: seq<set<nat>>, i: nat, off: nat, src: seq<Byte>)
    requires Shape(g, d) && i < g.ninodes && Trail(g, d, snaps, ops, i, off, src)
    ensures |snaps| == |ops| + 1 && snaps[0] == d && forall k :: 0 <= k < |snaps| ==> Shape(g, snaps[k])
    ensures forall k :: 0 <= k < |ops| ==> Inside(g, ops[k]) && |ops[k]| <= MAXOPBLOCKS
  {
    hide HoldsPart, InOrder, InodeOk;
    forall k | 0 <= k < |ops| ensures Inside(g, ops[k]) && |ops[k]| <= MAXOPBLOCKS {
      assert Persists(g, snaps[k], snaps[k + 1], ops[k]) && Affordable(g, ops[k]);
    }
    forall k | 0 <= k < |snaps| ensures Shape(g, snaps[k]) {
      assert Snap(g, d, snaps[k], i, off, src);
    }
  }

  lemma TrailChains(g: Super, l: Log.Layout, d: Disk, snaps: seq<Disk>, ops: seq<set<nat>>, i: nat, off: nat,
                    src: seq<Byte>, j: nat)
    requires Shape(g, d) && i < g.ninodes && Trail(g, d, snaps, ops, i, off, src) && j < |ops|
    requires Before(g, l) && MAXOPBLOCKS < l.size
    ensures Shape(g, snaps[j]) && Shape(g, snaps[j + 1]) && Inside(g, ops[j])
    ensures var t := TxnOf(g, l, snaps[j + 1], ops[j]);
            Leads(OnDisk(g, l, snaps[j]), t, OnDisk(g, l, snaps[j + 1])) && Log.TxnOk(l, g.size, t)
  {
    hide HoldsPart, InOrder, TxnOf, OnDisk, InodeOk, Log.Effect;
    assert Persists(g, snaps[j], snaps[j + 1], ops[j]) && Affordable(g, ops[j]);
    TxnIsOk(g, l, snaps[j + 1], ops[j]);
    TxnTakes(g, l, snaps[j], snaps[j + 1], ops[j]);
  }

  /**
   A write is under way on a disk whose log is empty, and the machine stops anywhere in
   any of its transactions, and again in any number of recoveries. What is on disk in
   the end is a file system in order, which holds the file with some first part of
   the write, and every other file as it was.
   */
  lemma CrashDuringWrite(g: Super, l: Log.Layout, disk: seq<Block>, d: Disk, snaps: seq<Disk>, ops: seq<set<nat>>,
                         i: nat, off: nat, src: seq<Byte>, k: nat, writes: nat, retries: seq<nat>)
    requires Shape(g, d) && i < g.ninodes && Trail(g, d, snaps, ops, i, off, src) && k < |ops|
    requires Before(g, l) && MAXOPBLOCKS < l.size && Log.Empty(l, disk) && |disk| == g.size
    requires Log.Home(l, disk) == OnDisk(g, l, d)
    ensures |snaps| == |ops| + 1 && (forall j :: 0 <= j < |snaps| ==> Shape(g, snaps[j]))
    ensures forall j :: 0 <= j < |ops| ==> Inside(g, ops[j])
    ensures var es := Events(Txns(g, l, snaps, ops), k, writes, retries);
            && Log.EventsOk(l, |disk|, es)
            && var h := Log.Home(l, Log.Run(l, disk, es));
            |h| == g.size && Snap(g, d, ReadDisk(g, h), i, off, src)
  {
    hide Log.Run, Log.Empty, Log.LogOk, Log.Home, OnDisk, Persists, HoldsPart, InOrder, TxnOf, ReadDisk, Log.Net,
        InodeOk, Affordable, Leads, Trail, Shape;
    TrailFacts(g, d, snaps, ops, i, off, src);
    var hs, ts := Homes(g, l, snaps), Txns(g, l, snaps, ops);
    forall j | 0 <= j < |ops| ensures Leads(hs[j], ts[j], hs[j + 1]) && Log.TxnOk(l, g.size, ts[j]) {
      TrailChains(g, l, d, snaps, ops, i, off, src, j);
    }
    var es := Events(ts, k, writes, retries);
    assert forall j :: 0 <= j < |es| ==> es[j].t == ts[j];
    forall j | 0 <= j < |es| ensures Log.EventOk(l, |disk|, es[j]) {
    }
    Log.RunsAreAtomic(l, disk, es);
    NetOfChain(hs, ts, k, writes, retries, 0);
    assert es[0..] == es;
    var m := if Log.Commits(es[k]) then k + 1 else k;
    SnapAt(g, d, snaps, ops, i, off, src, m);
    SnapReads(g, l, d, snaps[m], i, off, src);
  }

  lemma SnapAt(g: Super, d: Disk, snaps: seq<Disk>, ops: seq<set<nat>>, i: nat, off: nat, src: seq<Byte>, m: nat)
    requires Shape(g, d) && i < g.ninodes && Trail(g, d, snaps, ops, i, off, src) && m < |snaps|
    ensures Snap(g, d, snaps[m], i, off, src)
  {
  }

  /** What a disk holds is read back from it. */
  lemma SnapReads(g: Super, l: Log.Layout, d: Disk, s: Disk, i: nat, off: nat, src: seq<Byte>)
    requires Shape(g, d) && i < g.ninodes && Before(g, l) && Snap(g, d, s, i, off, src)
    ensures Snap(g, d, ReadDisk(g, OnDisk(g, l, s)), i, off, src)
  {
    ReadsInOrder(g, l, s);
    var r := ReadDisk(g, OnDisk(g, l, s));
    hide ReadDisk, OnDisk, InOrder, Addr, InodeOk, FileBlock, Dense;
    SameContents(g, s, r, i);
    forall j | 0 <= j < g.ninodes && j != i ensures r.inodes[j] == d.inodes[j] && SameFile(g, d, r, j) {
      assert SameFile(g, d, s, j) && SameFile(g, s, r, j);
    }
  }

  lemma SameContents(g: Super, d: Disk, d': Disk, i: nat)
    requires Shape(g, d) && Shape(g, d') && i < g.ninodes && SameFiles(g, d, d') && d'.inodes == d.inodes
    ensures Contents(g, d', i) == Contents(g, d, i)
  {
    hide FileBlock;
    assert SameFile(g, d, d', i);
  }
}
