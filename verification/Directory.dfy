/**
 Directories and path names (kernel/fs.c, with strncmp and strncpy of
 kernel/string.c): a directory is a file of fixed-size entries that stands for a
 finite map from names to inode numbers, and a path is a walk through such maps.
 */
module Directory {
  import opened Blocks
  import opened FsLayout

  const DIRSIZ: nat := 14
  const ENTRY: nat := 2 + DIRSIZ
  const SLASH: Byte := 47

  type Name = seq<Byte>

  const DOT: Name := [46]

  // ---------------------------------------------------------------- names

  /** A buffer from which a name can be read: a NUL ends it, or it fills DIRSIZ bytes. */
  predicate Readable(p: seq<Byte>) {
    |p| >= DIRSIZ || 0 in p
  }

  /** The name in a buffer: its bytes up to a NUL, at most n of them. */
  function Key(p: seq<Byte>, n: nat): Name {
    if n == 0 || p == [] || p[0] == 0 then [] else [p[0]] + Key(p[1..], n - 1)
  }

  lemma {:induction false} KeyShort(p: seq<Byte>, n: nat)
    ensures |Key(p, n)| <= n && |Key(p, n)| <= |p| && Key(p, n) == p[..|Key(p, n)|] && 0 !in Key(p, n)
  {
    if !(n == 0 || p == [] || p[0] == 0) {
      KeyShort(p[1..], n - 1);
    }
  }

  lemma {:induction false} KeyAt(p: seq<Byte>, n: nat, k: nat)
    requires k <= n && k <= |p| && 0 !in p[..k]
    ensures Key(p, n) == p[..k] + Key(p[k..], n - k)
  {
    if k == 0 {
      assert p[0..] == p;
    } else {
      assert p[0] == p[..k][0];
      assert p[1..][..k - 1] == p[1..k];
      forall x | x in p[1..k] ensures x in p[..k] {
        assert p[1..k] == p[..k][1..];
      }
      KeyAt(p[1..], n - 1, k - 1);
      assert p[1..][k - 1..] == p[k..];
      assert [p[0]] + p[1..k] == p[..k];
    }
  }

  /** Comparing two names, as strncmp does: zero just when they are the same name. */
  method StrNCmp(p: seq<Byte>, q: seq<Byte>, n: nat) returns (r: int)
    requires |p| >= n || 0 in p
    requires |q| >= n || 0 in q
    ensures r == 0 <==> Key(p, n) == Key(q, n)
  {
    hide Key;
    var i := 0;
    MoreToRead(p, n, i);
    MoreToRead(q, n, i);
    while i < n && p[i] != 0 && p[i] == q[i]
      invariant i <= n && i <= |p| && i <= |q| && p[..i] == q[..i] && 0 !in p[..i]
      invariant i < n ==> i < |p| && i < |q|
    {
      i := i + 1;
      MoreToRead(p, n, i);
      MoreToRead(q, n, i);
    }
    Common(p, q, n, i);
    r := if i == n then 0 else (p[i] as int) - (q[i] as int);
  }

  lemma MoreToRead(p: seq<Byte>, n: nat, i: nat)
    requires (|p| >= n || 0 in p) && i <= |p| && 0 !in p[..i]
    ensures i < n ==> i < |p|
  {
    assert p[..|p|] == p;
  }

  /** After a common part without a NUL, the next bytes decide. */
  lemma Common(p: seq<Byte>, q: seq<Byte>, n: nat, i: nat)
    requires i <= n && i <= |p| && i <= |q| && p[..i] == q[..i] && 0 !in p[..i]
    ensures i == n ==> Key(p, n) == Key(q, n)
    ensures i < n && i < |p| && i < |q| && (p[i] == 0 || p[i] != q[i]) ==> (Key(p, n) == Key(q, n) <==> p[i] == q[i])
  {
    KeyAt(p, n, i);
    KeyAt(q, n, i);
    if i < n && i < |p| && i < |q| {
      Heads(p, n - i, i);
      Heads(q, n - i, i);
      hide Key;
      Cancel(p[..i], Key(p[i..], n - i), Key(q[i..], n - i));
    }
  }

  lemma Heads(p: seq<Byte>, n: nat, i: nat)
    requires 0 < n && i < |p|
    ensures p[i] == 0 ==> Key(p[i..], n) == []
    ensures p[i] != 0 ==> Key(p[i..], n) != [] && Key(p[i..], n)[0] == p[i]
  {
    assert p[i..][0] == p[i];
  }

  lemma Cancel(c: seq<Byte>, a: seq<Byte>, b: seq<Byte>)
    ensures c + a == c + b ==> a == b
  {
    assert (c + a)[|c|..] == a && (c + b)[|c|..] == b;
  }

  /** A name padded with NULs to the size of an entry's field. */
  function Padded(k: Name): (r: seq<Byte>)
    requires |k| <= DIRSIZ
    ensures |r| == DIRSIZ
  {
    k + seq(DIRSIZ - |k|, _ => 0)
  }

  lemma PaddedKey(k: Name)
    requires |k| <= DIRSIZ && 0 !in k
    ensures Key(Padded(k), DIRSIZ) == k
  {
    var p := Padded(k);
    assert p[..|k|] == k;
    KeyAt(p, DIRSIZ, |k|);
    assert |k| < DIRSIZ ==> p[|k|..][0] == 0;
  }

  /** Copying a name into an entry, as strncpy does: its first bytes, then NULs. */
  method StrNCpy(t: seq<Byte>) returns (s: seq<Byte>)
    requires Readable(t)
    ensures |Key(t, DIRSIZ)| <= DIRSIZ && s == Padded(Key(t, DIRSIZ))
  {
    hide Key;
    KeyShort(t, DIRSIZ);
    s := [];
    var n := 0;
    MoreToRead(t, DIRSIZ, n);
    while n < DIRSIZ && t[n] != 0
      invariant n <= DIRSIZ && n <= |t| && s == t[..n] && 0 !in t[..n]
      invariant n < DIRSIZ ==> n < |t|
    {
      s := s + [t[n]];
      n := n + 1;
      MoreToRead(t, DIRSIZ, n);
    }
    KeyStops(t, n);
    while n < DIRSIZ
      invariant n <= DIRSIZ && |Key(t, DIRSIZ)| <= n && s == Key(t, DIRSIZ) + seq(n - |Key(t, DIRSIZ)|, _ => 0)
    {
      s := s + [0];
      n := n + 1;
    }
  }

  lemma KeyStops(t: seq<Byte>, n: nat)
    requires n <= DIRSIZ && n <= |t| && 0 !in t[..n] && (n < DIRSIZ ==> n < |t| && t[n] == 0)
    ensures Key(t, DIRSIZ) == t[..n]
  {
    KeyAt(t, DIRSIZ, n);
    assert n < DIRSIZ ==> t[n..][0] == 0;
  }

  // ---------------------------------------------------------------- directories as maps

  /** The contents of a directory are whole entries. */
  predicate Dir(c: seq<Byte>) {
    |c| % ENTRY == 0
  }

  function Count(c: seq<Byte>): nat {
    |c| / ENTRY
  }

  function EntryAt(c: seq<Byte>, k: nat): (e: seq<Byte>)
    requires k < Count(c)
    ensures |e| == ENTRY
  {
    c[ENTRY * k..ENTRY * k + ENTRY]
  }

  function Inum(e: seq<Byte>): nat
    requires |e| == ENTRY
  {
    var lo: int, hi: int := e[0], e[1];
    lo + 0x100 * hi
  }

  function NameOf(e: seq<Byte>): Name
    requires |e| == ENTRY
  {
    Key(e[2..], DIRSIZ)
  }

  /** An entry as it is stored: the number in two bytes, the low one first, and the name. */
  function Entry(inum: nat, name: Name): (e: seq<Byte>)
    requires |name| <= DIRSIZ
    ensures |e| == ENTRY
  {
    [inum % 0x100, inum / 0x100 % 0x100] + Padded(name)
  }

  lemma EntryRound(inum: nat, name: Name)
    requires |name| <= DIRSIZ && 0 !in name
    ensures Inum(Entry(inum, name)) == inum % 0x1_0000 && NameOf(Entry(inum, name)) == name
  {
    assert Entry(inum, name)[2..] == Padded(name);
    PaddedKey(name);
  }

  /** Entry k is in use. */
  predicate Live(c: seq<Byte>, k: nat)
    requires k < Count(c)
  {
    Inum(EntryAt(c, k)) != 0
  }

  predicate Holds(c: seq<Byte>, k: nat, name: Name)
    requires k < Count(c)
  {
    Live(c, k) && NameOf(EntryAt(c, k)) == name
  }

  /** The first entry from k on that holds a name, or the number of entries. */
  function First(c: seq<Byte>, name: Name, k: nat): (f: nat)
    requires k <= Count(c)
    ensures k <= f <= Count(c) && (f < Count(c) ==> Holds(c, f, name))
    ensures forall j :: k <= j < f ==> !Holds(c, j, name)
    decreases Count(c) - k
  {
    if k == Count(c) || Holds(c, k, name) then k else First(c, name, k + 1)
  }

  function Names(c: seq<Byte>): set<Name> {
    set k | 0 <= k < Count(c) && Live(c, k) :: NameOf(EntryAt(c, k))
  }

  lemma NamedFirst(c: seq<Byte>, name: Name)
    ensures name in Names(c) <==> First(c, name, 0) < Count(c)
  {
    if name in Names(c) {
      var k :| 0 <= k < Count(c) && Live(c, k) && NameOf(EntryAt(c, k)) == name;
      assert Holds(c, k, name);
    }
  }

  /** The map that a directory stands for: the first entry with a name counts. */
  function DirMap(c: seq<Byte>): (m: map<Name, nat>)
    ensures m.Keys == Names(c)
  {
    map name | name in Names(c) :: Inum(EntryAt(c, (NamedFirst(c, name); First(c, name, 0))))
  }

  predicate Unique(c: seq<Byte>) {
    forall j, k :: 0 <= j < k < Count(c) && Live(c, j) && Live(c, k) ==> NameOf(EntryAt(c, j)) != NameOf(EntryAt(c, k))
  }

  lemma UniqueFirst(c: seq<Byte>, k: nat)
    requires Unique(c) && k < Count(c) && Live(c, k)
    ensures NameOf(EntryAt(c, k)) in Names(c) && DirMap(c)[NameOf(EntryAt(c, k))] == Inum(EntryAt(c, k))
  {
    hide NameOf, Inum;
    var name := NameOf(EntryAt(c, k));
    var f := First(c, name, 0);
    assert Holds(c, k, name);
    NamedFirst(c, name);
    assert f == k;
  }

  lemma SpliceEntry(c: seq<Byte>, k: nat, e: seq<Byte>)
    requires Dir(c) && k <= Count(c) && |e| == ENTRY
    ensures ENTRY * k <= |c|
    ensures var c' := Splice(c, ENTRY * k, e);
            && Dir(c') && Count(c') == (if k == Count(c) then Count(c) + 1 else Count(c))
            && (forall j :: 0 <= j < Count(c') ==> EntryAt(c', j) == if j == k then e else EntryAt(c, j))
  {
    assert |c| == ENTRY * Count(c);
    var c' := Splice(c, ENTRY * k, e);
    assert |c'| == ENTRY * (if k == Count(c) then Count(c) + 1 else Count(c));
    forall j | 0 <= j < Count(c') ensures EntryAt(c', j) == if j == k then e else EntryAt(c, j) {
      assert j < k ==> ENTRY * j + ENTRY <= ENTRY * k;
      assert j > k ==> ENTRY * k + ENTRY <= ENTRY * j;
    }
  }

  /** Putting a new name into a dead entry, or a new one at the end, adds it to the map. */
  lemma Linked(c: seq<Byte>, k: nat, inum: nat, name: Name)
    requires Dir(c) && Unique(c) && k <= Count(c) && (k < Count(c) ==> !Live(c, k))
    requires |name| <= DIRSIZ && 0 !in name && name !in Names(c)
    ensures ENTRY * k <= |c|
    ensures var c' := Splice(c, ENTRY * k, Entry(inum, name));
            && Dir(c') && Unique(c')
            && DirMap(c') == if inum % 0x1_0000 == 0 then DirMap(c) else DirMap(c)[name := inum % 0x1_0000]
  {
    SpliceEntry(c, k, Entry(inum, name));
    EntryRound(inum, name);
    hide NameOf, Inum, EntryAt, Splice, Entry;
    var c' := Splice(c, ENTRY * k, Entry(inum, name));
    assert Unique(c') by {
      forall j | 0 <= j < Count(c') && j != k && Live(c', j) ensures NameOf(EntryAt(c', j)) in Names(c) {
        assert Live(c, j);
      }
    }
    LinkedMap(c, c', k, inum % 0x1_0000, name);
  }

  lemma LinkedMap(c: seq<Byte>, c': seq<Byte>, k: nat, inum: nat, name: Name)
    requires Unique(c) && Unique(c') && k < Count(c') && Count(c) <= Count(c') <= Count(c) + 1 && k <= Count(c)
    requires (k < Count(c) ==> !Live(c, k) && Count(c') == Count(c)) && name !in Names(c)
    requires Inum(EntryAt(c', k)) == inum && NameOf(EntryAt(c', k)) == name
    requires forall j :: 0 <= j < Count(c') && j != k ==> j < Count(c) && EntryAt(c', j) == EntryAt(c, j)
    ensures DirMap(c') == if inum == 0 then DirMap(c) else DirMap(c)[name := inum]
  {
    hide NameOf, Inum, EntryAt, First, DirMap;
    var m := if inum == 0 then DirMap(c) else DirMap(c)[name := inum];
    forall x | x in Names(c') ensures x in m && DirMap(c')[x] == m[x] {
      var j :| 0 <= j < Count(c') && Live(c', j) && NameOf(EntryAt(c', j)) == x;
      UniqueFirst(c', j);
      if j != k {
        assert Live(c, j);
        UniqueFirst(c, j);
      }
    }
    forall x | x in m ensures x in Names(c') {
      if x in Names(c) {
        var j :| 0 <= j < Count(c) && Live(c, j) && NameOf(EntryAt(c, j)) == x;
        assert Live(c', j) && NameOf(EntryAt(c', j)) == x;
      } else {
        assert Live(c', k);
      }
    }
    assert m.Keys == DirMap(c').Keys;
  }

  /** Zeroing the entry of a name removes that name and no other. */
  lemma Unlinked(c: seq<Byte>, k: nat, name: Name)
    requires Dir(c) && Unique(c) && k < Count(c) && Holds(c, k, name)
    ensures ENTRY * k <= |c|
    ensures var c' := Splice(c, ENTRY * k, seq(ENTRY, _ => 0));
            Dir(c') && Unique(c') && DirMap(c') == DirMap(c) - {name}
  {
    var e: seq<Byte> := seq(ENTRY, _ => 0);
    SpliceEntry(c, k, e);
    assert Inum(e) == 0;
    hide NameOf, Inum, EntryAt, Splice, DirMap;
    var c' := Splice(c, ENTRY * k, e);
    UnlinkedMap(c, c', k, name);
  }

  lemma UnlinkedMap(c: seq<Byte>, c': seq<Byte>, k: nat, name: Name)
    requires Unique(c) && Count(c') == Count(c) && k < Count(c) && Holds(c, k, name) && !Live(c', k)
    requires forall j :: 0 <= j < Count(c) && j != k ==> EntryAt(c', j) == EntryAt(c, j)
    ensures Unique(c') && DirMap(c') == DirMap(c) - {name}
  {
    hide NameOf, Inum, EntryAt, First, DirMap;
    var m := DirMap(c) - {name};
    assert forall j :: 0 <= j < Count(c) && j != k ==> (Live(c', j) <==> Live(c, j));
    forall x | x in Names(c') ensures x in m && DirMap(c')[x] == m[x] {
      var j :| 0 <= j < Count(c') && Live(c', j) && NameOf(EntryAt(c', j)) == x;
      UniqueFirst(c', j);
      UniqueFirst(c, j);
    }
    forall x | x in m ensures x in Names(c') {
      var j :| 0 <= j < Count(c) && Live(c, j) && NameOf(EntryAt(c, j)) == x;
      assert Live(c', j) && NameOf(EntryAt(c', j)) == x;
    }
    assert m.Keys == DirMap(c').Keys;
  }
}
