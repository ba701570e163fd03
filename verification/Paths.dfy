/**
 Directory lookup and change on files, and the resolution of path names
 (kernel/fs.c dirlookup, dirlink, skipelem, namex; the entry removal of
 kernel/sysfile.c unlink).
 */
module Paths {
  import opened Blocks
  import opened FsLayout
  import opened FileSystem
  import opened FileIo
  import opened Directory
  import opened Params

  // ---------------------------------------------------------------- directories on files

  /** Inode i is a directory in order: whole entries, and no name twice. */
  ghost predicate IsDir(g: Super, d: Disk, i: nat)
    requires Shape(g, d)
  {
    i < g.ninodes && Dir(Contents(g, d, i)) && Unique(Contents(g, d, i))
  }

  /** Every file reads as it did. A read may still have given a missing block its zeros. */
  ghost predicate Unmoved(g: Super, d: Disk, d': Disk)
    requires Shape(g, d) && Shape(g, d')
  {
    forall j :: 0 <= j < g.ninodes ==> Contents(g, d', j) == Contents(g, d, j)
  }

  /** Every file but i reads as it did. */
  ghost predicate OthersRead(g: Super, d: Disk, d': Disk, i: nat)
    requires Shape(g, d) && Shape(g, d')
  {
    forall j :: 0 <= j < g.ninodes && j != i ==> Contents(g, d', j) == Contents(g, d, j)
  }

  lemma ReadUnmoved(g: Super, d: Disk, d': Disk, i: nat)
    requires Shape(g, d) && Shape(g, d') && SameFiles(g, d, d') && SameSizes(d.inodes, d'.inodes, i)
    ensures Unmoved(g, d, d')
  {
    hide Addr, InodeOk, FileBlock;
    forall j | 0 <= j < g.ninodes ensures Contents(g, d', j) == Contents(g, d, j) {
      assert SameFile(g, d, d', j);
    }
  }

  lemma UnmovedSelf(g: Super, d: Disk)
    requires Shape(g, d)
    ensures Unmoved(g, d, d)
  {
  }

  lemma WroteOthers(g: Super, d: Disk, d': Disk, i: nat)
    requires Shape(g, d) && Shape(g, d') && OthersSame(g, d, d', i)
    ensures OthersRead(g, d, d', i)
  {
    hide Addr, InodeOk, FileBlock;
    forall j | 0 <= j < g.ninodes && j != i ensures Contents(g, d', j) == Contents(g, d, j) {
      assert SameFile(g, d, d', j);
    }
  }

  /** Nothing at all has changed. */
  twostate predicate Intact(fs: Fs)
    reads fs
  {
    && fs.blocks == old(fs.blocks) && fs.inodes == old(fs.inodes) && fs.logged == old(fs.logged)
    && fs.owner == old(fs.owner)
  }

  method ReadEntry(fs: Fs, i: nat, k: nat) returns (panic: bool, e: seq<Byte>)
    requires fs.Valid() && IsDir(fs.g, Disk(fs.blocks, fs.inodes), i)
    requires k < Count(Contents(fs.g, Disk(fs.blocks, fs.inodes), i))
    modifies fs`blocks, fs`inodes, fs`logged, fs`owner
    ensures panic ==> Full(fs.g, fs.blocks)
    ensures old(Dense(fs.g, Disk(fs.blocks, fs.inodes), i)) ==> !panic && Intact(fs)
    ensures !panic ==> fs.Valid() && Unmoved(fs.g, old(Disk(fs.blocks, fs.inodes)), Disk(fs.blocks, fs.inodes))
    ensures !panic ==> e == EntryAt(old(Contents(fs.g, Disk(fs.blocks, fs.inodes), i)), k)
  {
    hide Addresses, Bits, InodeOk, Contents, Dense, Unique, SameFiles, SameSizes, Unmoved, Full;
    ghost var d := Disk(fs.blocks, fs.inodes);
    ghost var c := Contents(fs.g, d, i);
    EntryInside(c, k);
    InodeSize(fs.g, d, i);
    var r;
    panic, r, e := Readi(fs, i, ENTRY * k, ENTRY, ENTRY, 1);
    if !panic {
      assert r == ENTRY;
      ReadUnmoved(fs.g, d, Disk(fs.blocks, fs.inodes), i);
    }
  }

  lemma EntryInside(c: seq<Byte>, k: nat)
    requires Dir(c) && k < Count(c)
    ensures ENTRY * k + ENTRY <= |c|
    ensures |c| < UINT - ENTRY ==> Wanted(c, ENTRY * k, ENTRY) == EntryAt(c, k)
  {
    assert |c| == ENTRY * Count(c);
  }

  /** Where a scan of directory dp stands: nothing reads differently, and a dense one is untouched. */
  twostate predicate Scanning(fs: Fs, dp: nat)
    requires old(fs.Valid()) && dp < fs.g.ninodes
    reads fs
  {
    && fs.Valid() && Unmoved(fs.g, old(Disk(fs.blocks, fs.inodes)), Disk(fs.blocks, fs.inodes))
    && (old(Dense(fs.g, Disk(fs.blocks, fs.inodes), dp)) ==> Intact(fs))
  }

  /** Finds a name in a directory: its inode number, and where its entry is. */
  method DirLookup(fs: Fs, dp: nat, name: seq<Byte>) returns (panic: bool, found: bool, inum: nat, off: nat)
    requires fs.Valid() && IsDir(fs.g, Disk(fs.blocks, fs.inodes), dp) && Readable(name)
    modifies fs`blocks, fs`inodes, fs`logged, fs`owner
    ensures panic ==> Full(fs.g, fs.blocks) && !old(Dense(fs.g, Disk(fs.blocks, fs.inodes), dp))
    ensures !panic ==> Scanning(fs, dp)
    ensures !panic ==>
            var c, key := old(Contents(fs.g, Disk(fs.blocks, fs.inodes), dp)), Key(name, DIRSIZ);
            && (found <==> key in DirMap(c))
            && (found ==> inum == DirMap(c)[key] && off == ENTRY * First(c, key, 0) && First(c, key, 0) < Count(c))
  {
    hide Addresses, Bits, InodeOk, Contents, Dense, Unique, Inum, Key, EntryAt, Full;
    ghost var c, key := Contents(fs.g, Disk(fs.blocks, fs.inodes), dp), Key(name, DIRSIZ);
    NamedFirst(c, key);
    panic, found, inum, off := false, false, 0, 0;
    ghost var k := 0;
    while off < fs.inodes[dp].size
      invariant !panic && Scanning(fs, dp) && Contents(fs.g, Disk(fs.blocks, fs.inodes), dp) == c
      invariant off == ENTRY * k && k <= Count(c) && First(c, key, 0) == First(c, key, k)
      decreases |c| - off
    {
      EntryInsideOff(c, k);
      var de;
      panic, de := ReadEntry(fs, dp, off / ENTRY);
      if panic {
        return;
      }
      if Inum(de) != 0 {
        NameField(de);
        var cmp := StrNCmp(name, de[2..], DIRSIZ);
        if cmp == 0 {
          assert Holds(c, k, key);
          return false, true, Inum(de), off;
        }
      }
      assert !Holds(c, k, key);
      k, off := k + 1, off + ENTRY;
    }
    EntriesEnd(c, k);
  }

  lemma EntryInsideOff(c: seq<Byte>, k: nat)
    requires Dir(c) && ENTRY * k < |c|
    ensures k < Count(c) && ENTRY * k / ENTRY == k
  {
    assert |c| == ENTRY * Count(c);
  }

  lemma EntriesEnd(c: seq<Byte>, k: nat)
    requires Dir(c) && ENTRY * k >= |c| && k <= Count(c)
    ensures k == Count(c) && ENTRY * k == |c|
  {
    assert |c| == ENTRY * Count(c);
  }

  lemma NameField(e: seq<Byte>)
    requires |e| == ENTRY
    ensures |e[2..]| == DIRSIZ
  {
  }

  /** The first dead entry, or the end of the directory. */
  method FindRoom(fs: Fs, dp: nat) returns (panic: bool, k: nat)
    requires fs.Valid() && IsDir(fs.g, Disk(fs.blocks, fs.inodes), dp)
    modifies fs`blocks, fs`inodes, fs`logged, fs`owner
    ensures panic ==> Full(fs.g, fs.blocks)
    ensures !panic ==> Scanning(fs, dp)
    ensures !panic ==>
            var c := old(Contents(fs.g, Disk(fs.blocks, fs.inodes), dp));
            k <= Count(c) && (k < Count(c) ==> !Live(c, k)) && forall j :: 0 <= j < k ==> Live(c, j)
  {
    hide Addresses, Bits, InodeOk, Contents, Dense, Unique, Inum, EntryAt, Full;
    ghost var c := Contents(fs.g, Disk(fs.blocks, fs.inodes), dp);
    panic, k := false, 0;
    while ENTRY * k < fs.inodes[dp].size
      invariant !panic && Scanning(fs, dp) && Contents(fs.g, Disk(fs.blocks, fs.inodes), dp) == c
      invariant k <= Count(c) && forall j :: 0 <= j < k ==> Live(c, j)
      decreases Count(c) - k
    {
      EntryInsideOff(c, k);
      var de;
      panic, de := ReadEntry(fs, dp, k);
      if panic || Inum(de) == 0 {
        return;
      }
      k := k + 1;
    }
    EntriesEnd(c, k);
  }

  /** No entry after the first two is in use. */
  predicate Bare(c: seq<Byte>) {
    forall k :: 2 <= k < Count(c) ==> !Live(c, k)
  }

  /** In a directory that begins with its two dots, that means it maps nothing else. */
  lemma BareMap(c: seq<Byte>)
    requires Dir(c) && Unique(c) && Count(c) >= 2 && Holds(c, 0, DOT) && Holds(c, 1, DOT + DOT)
    ensures Bare(c) <==> DirMap(c).Keys == {DOT, DOT + DOT}
  {
    hide NameOf, Inum, EntryAt, First;
    assert DOT in Names(c) && DOT + DOT in Names(c);
    if !Bare(c) {
      var k :| 2 <= k < Count(c) && Live(c, k);
      assert NameOf(EntryAt(c, k)) in Names(c);
    }
  }

  method IsDirEmpty(fs: Fs, dp: nat) returns (panic: bool, empty: bool)
    requires fs.Valid() && IsDir(fs.g, Disk(fs.blocks, fs.inodes), dp)
    modifies fs`blocks, fs`inodes, fs`logged, fs`owner
    ensures panic ==> Full(fs.g, fs.blocks)
    ensures !panic ==> Scanning(fs, dp)
    ensures !panic ==> empty == Bare(old(Contents(fs.g, Disk(fs.blocks, fs.inodes), dp)))
  {
    hide Addresses, Bits, InodeOk, Contents, Dense, Unique, Inum, EntryAt, Full;
    ghost var c := Contents(fs.g, Disk(fs.blocks, fs.inodes), dp);
    panic, empty := false, false;
    var k := 2;
    while ENTRY * k < fs.inodes[dp].size
      invariant !panic && Scanning(fs, dp) && Contents(fs.g, Disk(fs.blocks, fs.inodes), dp) == c
      invariant (k == 2 || k <= Count(c)) && forall j :: 2 <= j < k ==> j < Count(c) && !Live(c, j)
      decreases |c| - ENTRY * k
    {
      EntryInsideOff(c, k);
      var de;
      panic, de := ReadEntry(fs, dp, k);
      if panic {
        return;
      }
      assert Live(c, k) <==> Inum(de) != 0;
      if Inum(de) != 0 {
        return;
      }
      k := k + 1;
    }
    PastEnd(c, k);
    empty := true;
  }

  lemma PastEnd(c: seq<Byte>, k: nat)
    requires Dir(c) && ENTRY * k >= |c|
    ensures k >= Count(c)
  {
    assert |c| == ENTRY * Count(c);
  }

  /** Writes an entry over entry k of a directory, or after its last. */
  method WriteEntry(fs: Fs, dp: nat, k: nat, e: seq<Byte>) returns (panic: bool)
    requires fs.Valid() && IsDir(fs.g, Disk(fs.blocks, fs.inodes), dp) && |fs.dinodes| == fs.g.ninodes
    requires |e| == ENTRY && k <= Count(Contents(fs.g, Disk(fs.blocks, fs.inodes), dp))
    modifies fs
    ensures panic ==> Full(fs.g, fs.blocks) || ENTRY * (k + 1) > MAXFILE * BSIZE
    ensures !panic ==> fs.Valid() && |fs.dinodes| == fs.g.ninodes
    ensures !panic ==> var d, d' := old(Disk(fs.blocks, fs.inodes)), Disk(fs.blocks, fs.inodes);
              && OthersRead(fs.g, d, d', dp) && (Dense(fs.g, d, dp) ==> Dense(fs.g, d', dp))
              && ENTRY * k <= |Contents(fs.g, d, dp)|
                  && Contents(fs.g, d', dp) == Splice(Contents(fs.g, d, dp), ENTRY * k, e)
  {
    hide Addresses, Bits, InodeOk, Contents, Dense, Unique, Keeps, OthersSame, AllLogged, Full, Most, Covered,
        OthersRead, FaultPlace;
    ghost var d := Disk(fs.blocks, fs.inodes);
    ghost var c := Contents(fs.g, Disk(fs.blocks, fs.inodes), dp);
    SpliceEntry(c, k, e);
    InodeSize(fs.g, Disk(fs.blocks, fs.inodes), dp);
    assert ENTRY * (k + 1) == ENTRY * k + ENTRY;
    var r;
    ghost var used, torn;
    panic, r, used, torn := Writei(fs, dp, ENTRY * k, e, ENTRY);
    if !panic {
      panic := r != ENTRY;
      AfterAll(c, ENTRY * k, e);
      if !panic {
        WroteOthers(fs.g, d, Disk(fs.blocks, fs.inodes), dp);
      }
    }
  }

  /** Adds a name, if the directory does not have it. */
  method DirLink(fs: Fs, dp: nat, name: seq<Byte>, inum: nat) returns (panic: bool, r: int)
    requires fs.Valid() && IsDir(fs.g, Disk(fs.blocks, fs.inodes), dp) && |fs.dinodes| == fs.g.ninodes && Readable(name)
    modifies fs
    ensures panic ==>
        Full(fs.g, fs.blocks)
        || old(|Contents(fs.g, Disk(fs.blocks, fs.inodes), dp)|) + ENTRY > MAXFILE * BSIZE
    ensures !panic ==> fs.Valid() && IsDir(fs.g, Disk(fs.blocks, fs.inodes), dp)
                       && OthersRead(fs.g, old(Disk(fs.blocks, fs.inodes)), Disk(fs.blocks, fs.inodes), dp)
    ensures !panic ==>
              var m, m', key := old(DirMap(Contents(fs.g, Disk(fs.blocks, fs.inodes), dp))),
                                DirMap(Contents(fs.g, Disk(fs.blocks, fs.inodes), dp)), Key(name, DIRSIZ);
              && (key in m ==> r == -1 && m' == m)
              && (key !in m ==> r == 0 && m' == if inum % 0x1_0000 == 0 then m else m[key := inum % 0x1_0000])
  {
    hide Addresses, Bits, InodeOk, Contents, Dense, Unique, DirMap, Names, Key, First, Full;
    ghost var c, key := Contents(fs.g, Disk(fs.blocks, fs.inodes), dp), Key(name, DIRSIZ);
    r := -1;
    var k;
    var stuck, found, _, _ := DirLookup(fs, dp, name);
    panic := stuck;
    if panic || found {
      return;
    }
    panic, k := FindRoom(fs, dp);
    if panic {
      return;
    }
    var field := StrNCpy(name);
    KeyShort(name, DIRSIZ);
    Linked(c, k, inum, key);
    RoomBound(c, k);
    panic := WriteEntry(fs, dp, k, [inum % 0x100, inum / 0x100 % 0x100] + field);
    r := 0;
  }

  lemma RoomBound(c: seq<Byte>, k: nat)
    requires Dir(c) && k <= Count(c)
    ensures ENTRY * (k + 1) <= |c| + ENTRY
  {
    assert |c| == ENTRY * Count(c);
  }

  lemma DotKeys()
    ensures Key(DOT + [0], DIRSIZ) == DOT && Key(DOT + DOT + [0], DIRSIZ) == DOT + DOT
  {
    KeyStops(DOT + [0], 1);
    KeyStops(DOT + DOT + [0], 2);
  }

  lemma FoundAt(c: seq<Byte>, key: Name, off: nat)
    requires off == ENTRY * First(c, key, 0) && First(c, key, 0) < Count(c)
    ensures off / ENTRY < Count(c) && Holds(c, off / ENTRY, key)
  {
    hide Holds, First;
    assert off / ENTRY == First(c, key, 0);
  }

  /** The directories of a disk, each with entries for inodes that exist. */
  ghost predicate AreDirs(g: Super, d: Disk, dirs: set<nat>)
    requires Shape(g, d)
  {
    forall i :: i in dirs ==> IsDir(g, d, i) && forall n :: n in DirMap(Contents(g, d, i)) ==>
        DirMap(Contents(g, d, i))[n] < g.ninodes
  }

  /** What makes unlink refuse: a dot, a name that is not there, or a directory that is not empty. */
  ghost predicate Stays(g: Super, d: Disk, dirs: set<nat>, dp: nat, key: Name)
    requires Shape(g, d) && AreDirs(g, d, dirs) && dp in dirs
  {
    var m := DirMap(Contents(g, d, dp));
    key == DOT || key == DOT + DOT || key !in m || (m[key] in dirs && !Bare(Contents(g, d, m[key])))
  }

  /** Removes a name: the entry that lookup found is written over with zeros. */
  method Unlink(fs: Fs, dirs: set<nat>, dp: nat, name: seq<Byte>) returns (panic: bool, r: int)
    requires fs.Valid() && AreDirs(fs.g, Disk(fs.blocks, fs.inodes), dirs) && dp in dirs
    requires |fs.dinodes| == fs.g.ninodes && Readable(name)
    modifies fs
    ensures panic ==> Full(fs.g, fs.blocks)
    ensures !panic ==> fs.Valid() && IsDir(fs.g, Disk(fs.blocks, fs.inodes), dp)
                       && OthersRead(fs.g, old(Disk(fs.blocks, fs.inodes)), Disk(fs.blocks, fs.inodes), dp)
    ensures !panic ==>
              var m, m', key := old(DirMap(Contents(fs.g, Disk(fs.blocks, fs.inodes), dp))),
                                DirMap(Contents(fs.g, Disk(fs.blocks, fs.inodes), dp)), Key(name, DIRSIZ);
              && r == (if old(Stays(fs.g, Disk(fs.blocks, fs.inodes), dirs, dp, key)) then -1 else 0)
              && (r == 0 <==>
                  key != DOT && key != DOT + DOT && key in m
                  && (m[key] in dirs ==> old(Bare(Contents(fs.g, Disk(fs.blocks, fs.inodes), m[key])))))
              && m' == if r == 0 then m - {key} else m
  {
    DotKeys();
    hide Addresses, Bits, InodeOk, Contents, Dense, Unique, DirMap, Names, Key, Full, First, Holds, EntryAt, Bare;
    ghost var d := Disk(fs.blocks, fs.inodes);
    ghost var c, key := Contents(fs.g, d, dp), Key(name, DIRSIZ);
    panic, r := false, -1;
    var dot := StrNCmp(name, DOT + [0], DIRSIZ);
    var dotdot := StrNCmp(name, DOT + DOT + [0], DIRSIZ);
    if dot == 0 || dotdot == 0 {
      return;
    }
    var found, inum, off;
    panic, found, inum, off := DirLookup(fs, dp, name);
    if panic || !found {
      return;
    }
    if inum in dirs {
      var empty;
      panic, empty := IsDirEmpty(fs, inum);
      if panic || !empty {
        return;
      }
    }
    FoundAt(c, key, off);
    var k := off / ENTRY;
    Unlinked(c, k, key);
    EntryInside(c, k);
    InodeSize(fs.g, d, dp);
    panic := WriteEntry(fs, dp, k, seq(ENTRY, _ => 0));
    r := 0;
  }

  // ---------------------------------------------------------------- path names

  /** The length of the element at the start of a path. */
  function ElemLen(s: seq<Byte>): (k: nat)
    ensures k <= |s| && (k < |s| ==> s[k] == SLASH) && forall i :: 0 <= i < k ==> s[i] != SLASH
  {
    if s == [] || s[0] == SLASH then 0 else 1 + ElemLen(s[1..])
  }

  function Cut(s: seq<Byte>): (r: seq<Byte>)
    ensures |r| <= DIRSIZ && r <= s && (r == s || |r| == DIRSIZ)
  {
    if |s| > DIRSIZ then s[..DIRSIZ] else s
  }

  /** A path split at its slashes, empty pieces dropped, each piece cut to the size of a name. */
  function Pieces(s: seq<Byte>): seq<Name> {
    if s == [] then []
    else if s[0] == SLASH then Pieces(s[1..])
    else [Cut(s[..ElemLen(s)])] + Pieces(s[ElemLen(s)..])
  }

  predicate Slashes(s: seq<Byte>) {
    forall i :: 0 <= i < |s| ==> s[i] == SLASH
  }

  /** Elements with slashes before, between and after them. */
  function Joined(es: seq<seq<Byte>>, gaps: seq<seq<Byte>>): seq<Byte>
    requires |gaps| == |es| + 1
  {
    if es == [] then gaps[0] else gaps[0] + (es[0] + Joined(es[1..], gaps[1..]))
  }

  predicate Parted(es: seq<seq<Byte>>, gaps: seq<seq<Byte>>) {
    && |gaps| == |es| + 1 && (forall k :: 0 <= k < |gaps| ==> Slashes(gaps[k]))
    && (forall k :: 0 <= k < |es| ==> es[k] != [] && SLASH !in es[k])
    && (forall k :: 0 < k < |es| ==> gaps[k] != [])
  }

  function Cuts(es: seq<seq<Byte>>): (ps: seq<Name>)
    ensures |ps| == |es| && forall k :: 0 <= k < |es| ==> ps[k] == Cut(es[k])
  {
    seq(|es|, k requires 0 <= k < |es| => Cut(es[k]))
  }

  lemma {:induction false} PiecesGap(gap: seq<Byte>, s: seq<Byte>)
    requires Slashes(gap)
    ensures Pieces(gap + s) == Pieces(s)
  {
    if gap == [] {
      assert gap + s == s;
    } else {
      PiecesGap(gap[1..], s);
      assert (gap + s)[0] == SLASH && (gap + s)[1..] == gap[1..] + s;
    }
  }

  lemma {:induction false} PiecesOf(es: seq<seq<Byte>>, gaps: seq<seq<Byte>>)
    requires Parted(es, gaps)
    ensures Pieces(Joined(es, gaps)) == Cuts(es)
  {
    hide Pieces, Cut;
    if es == [] {
      PiecesGap(gaps[0], []);
      assert gaps[0] + [] == gaps[0];
      NoPieces();
    } else {
      var e, more := es[0], Joined(es[1..], gaps[1..]);
      assert Slashes(gaps[0]) && Slashes(gaps[1]);
      assert more != [] ==> more[0] == SLASH;
      PiecesGap(gaps[0], e + more);
      var s := e + more;
      assert s[0..] == s && s[0..|e|] == e && s[|e|..] == more;
      FirstPiece(s, 0, |e|);
      PiecesOf(es[1..], gaps[1..]);
      assert Cuts(es) == [Cut(e)] + Cuts(es[1..]);
    }
  }

  lemma NoPieces()
    ensures Pieces([]) == []
  {
  }

  lemma {:induction false} PathParts(s: seq<Byte>) returns (es: seq<seq<Byte>>, gaps: seq<seq<Byte>>)
    ensures Parted(es, gaps) && Joined(es, gaps) == s
    decreases |s|
  {
    if s == [] {
      es, gaps := [], [[]];
    } else if s[0] == SLASH {
      es, gaps := PathParts(s[1..]);
      var wider := [[SLASH] + gaps[0]] + gaps[1..];
      assert Slashes(gaps[0]) && wider[1..] == gaps[1..];
      assert s == [SLASH] + s[1..];
      gaps := wider;
    } else {
      var k := ElemLen(s);
      es, gaps := PathParts(s[k..]);
      var e := s[..k];
      assert es != [] ==> s[k..][0] == (gaps[0] + es[0])[0];
      assert ([e] + es)[1..] == es && ([[]] + gaps)[1..] == gaps;
      assert s == e + s[k..];
      es, gaps := [e] + es, [[]] + gaps;
    }
  }

  /**
   The pieces of a path, said without taking it apart: any path is elements with
   slashes about them, at least one between two, and its pieces are those elements,
   each cut to the size of a name.
   */
  lemma PiecesIff(s: seq<Byte>, ps: seq<Name>)
    ensures Pieces(s) == ps <==> exists es, gaps :: Parted(es, gaps) && Joined(es, gaps) == s && Cuts(es) == ps
  {
    hide Pieces, Cut;
    var es, gaps := PathParts(s);
    PiecesOf(es, gaps);
    forall fs, hs | Parted(fs, hs) && Joined(fs, hs) == s
      ensures Pieces(s) == Cuts(fs)
    {
      PiecesOf(fs, hs);
    }
  }

  method SkipSlashes(path: seq<Byte>, p: nat) returns (q: nat)
    requires p <= |path|
    ensures p <= q <= |path| && Pieces(path[q..]) == Pieces(path[p..]) && (q < |path| ==> path[q] != SLASH)
  {
    q := p;
    while q < |path| && path[q] == SLASH
      invariant p <= q <= |path| && Pieces(path[q..]) == Pieces(path[p..])
    {
      assert path[q..][1..] == path[q + 1..];
      q := q + 1;
    }
  }

  lemma FirstPiece(path: seq<Byte>, s: nat, e: nat)
    requires s < e <= |path| && (forall i :: s <= i < e ==> path[i] != SLASH) && (e < |path| ==> path[e] == SLASH)
    ensures Pieces(path[s..]) == [Cut(path[s..e])] + Pieces(path[e..])
  {
    var t := path[s..];
    assert forall i :: 0 <= i < e - s ==> t[i] == path[s + i];
    assert e < |path| ==> t[e - s] == path[e];
    assert ElemLen(t) == e - s;
    assert t[..e - s] == path[s..e] && t[e - s..] == path[e..];
  }

  /**
   Takes the next element off a path: none if only slashes are left; otherwise its
   name is put into the buffer, and the path moves past it and the slashes after it.
   */
  method SkipElem(path: seq<Byte>, p: nat, name: seq<Byte>) returns (more: bool, p': nat, name': seq<Byte>)
    requires p <= |path| && 0 !in path && |name| == DIRSIZ
    ensures |name'| == DIRSIZ && p <= p' <= |path|
    ensures more <==> Pieces(path[p..]) != []
    ensures more ==>
        p < p' && Key(name', DIRSIZ) == Pieces(path[p..])[0]
        && Pieces(path[p'..]) == Pieces(path[p..])[1..]
    ensures more ==> (p' == |path| <==> Pieces(path[p'..]) == [])
  {
    hide Key, Cut;
    var s := SkipSlashes(path, p);
    if s == |path| {
      return false, s, name;
    }
    var e := s;
    while e < |path| && path[e] != SLASH
      invariant s <= e <= |path| && forall i :: s <= i < e ==> path[i] != SLASH
    {
      e := e + 1;
    }
    FirstPiece(path, s, e);
    var len := e - s;
    if len >= DIRSIZ {
      name' := path[s..s + DIRSIZ];
    } else {
      name' := path[s..e] + [0] + name[len + 1..];
    }
    ElemKey(path, s, e, name');
    p' := SkipSlashes(path, e);
    more := true;
  }

  lemma ElemKey(path: seq<Byte>, s: nat, e: nat, name: seq<Byte>)
    requires s < e <= |path| && 0 !in path && |name| == DIRSIZ
    requires e - s >= DIRSIZ ==> name == path[s..s + DIRSIZ]
    requires e - s < DIRSIZ ==> name[..e - s] == path[s..e] && name[e - s] == 0
    ensures Key(name, DIRSIZ) == Cut(path[s..e])
  {
    var n := if e - s >= DIRSIZ then DIRSIZ else e - s;
    assert name[..n] == path[s..s + n];
    KeyStops(name, n);
    assert Cut(path[s..e]) == path[s..s + n];
  }

  datatype Option<T> = None | Some(value: T)

  /** The directories of a file system, as maps. */
  type Tree = map<nat, map<Name, nat>>

  /** A path walked from ip: through each name to the last, or to the one before it. */
  function Walk(t: Tree, ip: nat, ps: seq<Name>, parent: bool): Option<nat>
    decreases |ps|
  {
    if ps == [] then (if parent then None else Some(ip))
    else if ip !in t then None
    else if parent && |ps| == 1 then Some(ip)
    else if ps[0] !in t[ip] then None
    else Walk(t, t[ip][ps[0]], ps[1..], parent)
  }

  predicate StepsTo(t: Tree, d: nat, name: Name, i: nat) {
    d in t && name in t[d] && t[d][name] == i
  }

  /** From each inode of a trail to the next, by these names. */
  predicate Trail(t: Tree, trail: seq<nat>, ps: seq<Name>) {
    |trail| == |ps| + 1 && forall k :: 0 <= k < |ps| ==> StepsTo(t, trail[k], ps[k], trail[k + 1])
  }

  /** A path leads to an inode if and only if there is a trail of directories to it, each with the next name. */
  lemma {:induction false} WalkIff(t: Tree, ip: nat, ps: seq<Name>, j: nat)
    ensures Walk(t, ip, ps, false) == Some(j) <==>
            exists trail :: Trail(t, trail, ps) && trail[0] == ip && trail[|ps|] == j
    decreases |ps|
  {
    if ps == [] {
      assert Walk(t, ip, ps, false) == Some(j) ==> Trail(t, [ip], ps);
    } else {
      if Walk(t, ip, ps, false) == Some(j) {
        var next := t[ip][ps[0]];
        WalkIff(t, next, ps[1..], j);
        var rest :| Trail(t, rest, ps[1..]) && rest[0] == next && rest[|ps| - 1] == j;
        var trail := [ip] + rest;
        assert forall k :: 0 < k < |ps| ==> ps[k] == ps[1..][k - 1] && StepsTo(t, rest[k - 1], ps[1..][k - 1], rest[k]);
        assert Trail(t, trail, ps);
      }
      if trail :| Trail(t, trail, ps) && trail[0] == ip && trail[|ps|] == j {
        assert StepsTo(t, trail[0], ps[0], trail[1]);
        forall k | 0 <= k < |ps| - 1
          ensures StepsTo(t, trail[1..][k], ps[1..][k], trail[1..][k + 1])
        {
          assert StepsTo(t, trail[k + 1], ps[k + 1], trail[k + 2]);
        }
        assert Trail(t, trail[1..], ps[1..]);
        WalkIff(t, trail[1], ps[1..], j);
      }
    }
  }

  /** Walking a path is walking its first part and then the rest from there. */
  lemma {:induction false} WalkTwice(t: Tree, ip: nat, ps: seq<Name>, qs: seq<Name>, parent: bool)
    requires parent ==> qs != []
    ensures Walk(t, ip, ps + qs, parent) == match Walk(t, ip, ps, false)
                                            case None => None
                                            case Some(d) => Walk(t, d, qs, parent)
    decreases |ps|
  {
    if ps == [] {
      assert ps + qs == qs;
    } else if ip in t && ps[0] in t[ip] {
      WalkTwice(t, t[ip][ps[0]], ps[1..], qs, parent);
      assert (ps + qs)[1..] == ps[1..] + qs;
    }
  }

  /** The parent of a path is the directory that the path without its last name leads to. */
  lemma ParentIs(t: Tree, ip: nat, ps: seq<Name>)
    requires ps != []
    ensures Walk(t, ip, ps, true) == match Walk(t, ip, ps[..|ps| - 1], false)
                                     case None => None
                                     case Some(d) => if d in t then Some(d) else None
  {
    var n := |ps| - 1;
    WalkTwice(t, ip, ps[..n], [ps[n]], true);
    assert ps[..n] + [ps[n]] == ps;
  }

  predicate AllDense(g: Super, d: Disk, dirs: set<nat>)
    requires Shape(g, d)
  {
    forall i :: i in dirs && i < g.ninodes ==> Dense(g, d, i)
  }

  ghost function TreeOf(g: Super, d: Disk, dirs: set<nat>): (t: Tree)
    requires Shape(g, d) && AreDirs(g, d, dirs)
    ensures t.Keys == dirs
  {
    map i | i in dirs :: DirMap(Contents(g, d, i))
  }

  /** One step of a walk, on a disk whose files still read as they did on d. */
  method NextDir(fs: Fs, dirs: set<nat>, ip: nat, name: seq<Byte>, ghost d: Disk)
    returns (panic: bool, hit: bool, next: nat)
    requires fs.Valid() && Shape(fs.g, d) && AreDirs(fs.g, d, dirs) && ip in dirs && |name| == DIRSIZ
    requires Unmoved(fs.g, d, Disk(fs.blocks, fs.inodes))
    modifies fs`blocks, fs`inodes, fs`logged, fs`owner
    ensures panic ==> Full(fs.g, fs.blocks)
    ensures !panic ==> fs.Valid() && Unmoved(fs.g, d, Disk(fs.blocks, fs.inodes))
    ensures AllDense(fs.g, d, dirs) && old(fs.blocks) == d.blocks && old(fs.inodes) == d.inodes ==>
              !panic && Intact(fs)
    ensures !panic ==>
              var m := TreeOf(fs.g, d, dirs)[ip];
              && (hit <==> Key(name, DIRSIZ) in m)
              && (hit ==> next == m[Key(name, DIRSIZ)] && next < fs.g.ninodes)
  {
    hide Addresses, Bits, InodeOk, Contents, Dense, Unique, DirMap, Names, Key, First, Full;
    var stuck, found, inum, _ := DirLookup(fs, ip, name);
    panic, hit, next := stuck, found, inum;
  }

  /** The inode a path leads to, or that of its parent, and its last name. */
  method Namex(fs: Fs, dirs: set<nat>, cwd: nat, path: seq<Byte>, parent: bool, name0: seq<Byte>)
    returns (panic: bool, found: bool, ip: nat, name: seq<Byte>)
    requires fs.Valid() && cwd < fs.g.ninodes && ROOTINO < fs.g.ninodes
    requires AreDirs(fs.g, Disk(fs.blocks, fs.inodes), dirs)
    requires 0 !in path && |name0| == DIRSIZ
    modifies fs`blocks, fs`inodes, fs`logged, fs`owner
    ensures panic ==> Full(fs.g, fs.blocks)
    ensures !panic ==> fs.Valid() && Unmoved(fs.g, old(Disk(fs.blocks, fs.inodes)), Disk(fs.blocks, fs.inodes))
    ensures old(AllDense(fs.g, Disk(fs.blocks, fs.inodes), dirs)) ==> !panic && Intact(fs)
    ensures !panic ==>
            var t := old(TreeOf(fs.g, Disk(fs.blocks, fs.inodes), dirs));
            Walk(t, if path != [] && path[0] == SLASH then ROOTINO else cwd, Pieces(path), parent)
              == if found then Some(ip) else None
    ensures !panic && found && parent ==>
              Pieces(path) != [] && Key(name, DIRSIZ) == Pieces(path)[|Pieces(path)| - 1]
  {
    hide Addresses, Bits, InodeOk, Contents, Dense, Unique, DirMap, Names, Key, First, Pieces, Full, Unmoved, AllDense,
        AreDirs, TreeOf;
    ghost var d := Disk(fs.blocks, fs.inodes);
    UnmovedSelf(fs.g, d);
    ghost var t := TreeOf(fs.g, d, dirs);
    ip := if path != [] && path[0] == SLASH then ROOTINO else cwd;
    ghost var start, all := ip, Pieces(path);
    assert path[0..] == path;
    var p, more := 0, true;
    panic, found, name := false, false, name0;
    more, p, name := SkipElem(path, p, name);
    ghost var left := all;
    while more
      invariant !panic && fs.Valid() && Unmoved(fs.g, d, Disk(fs.blocks, fs.inodes))
      invariant AllDense(fs.g, d, dirs) ==> Intact(fs)
      invariant |name| == DIRSIZ && p <= |path| && ip < fs.g.ninodes && (more <==> left != [])
      invariant Walk(t, start, all, parent) == Walk(t, ip, left, parent)
      invariant |left| <= |all| && left == all[|all| - |left|..]
      invariant more ==>
          Key(name, DIRSIZ) == left[0] && Pieces(path[p..]) == left[1..]
          && (p == |path| <==> left[1..] == [])
      decreases |left|
    {
      if ip !in dirs {
        return;
      }
      if parent && p == |path| {
        found := true;
        return;
      }
      var hit, next;
      panic, hit, next := NextDir(fs, dirs, ip, name, d);
      if panic || !hit {
        return;
      }
      ip := next;
      left := left[1..];
      more, p, name := SkipElem(path, p, name);
    }
    found := !parent;
  }
}
