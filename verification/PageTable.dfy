/**
 Three-level page tables in a pool of physical frames (kernel/vm.c), as values:
 what each frame is used for, the tree that the tables make, and the map from
 virtual pages to frames that the tree stands for.
 */
module PageTable {
  import opened Blocks

  const PGSIZE: nat := 4096
  const ENTRIES: nat := 512
  /** Virtual pages below MAXVA. */
  const MAXVPN: nat := 0x400_0000

  // ---------------------------------------------------------------- page table entries

  datatype Perm = Perm(r: bool, w: bool, x: bool, u: bool)

  const NONE: Perm := Perm(false, false, false, false)

  /** An entry that is valid and lets something be read, written or run is a leaf. */
  predicate Leafy(p: Perm) {
    p.r || p.w || p.x
  }

  /** An entry: valid or not, its permissions, and a frame number. */
  datatype Pte = Pte(v: bool, perm: Perm, ppn: nat)

  const EMPTY: Pte := Pte(false, NONE, 0)

  /** An entry as a machine word: ten bits of flags under the frame number. */
  function Flags(e: Pte): (b: nat)
    ensures b < 32
  {
    (if e.v then 1 else 0) + (if e.perm.r then 2 else 0) + (if e.perm.w then 4 else 0)
    + (if e.perm.x then 8 else 0) + if e.perm.u then 16 else 0
  }

  function Encode(e: Pte): nat {
    e.ppn * 0x400 + Flags(e)
  }

  function Decode(w: nat): Pte {
    var w1 := w / 2;
    var w2 := w1 / 2;
    var w3 := w2 / 2;
    Pte(w % 2 == 1, Perm(w1 % 2 == 1, w2 % 2 == 1, w3 % 2 == 1, w3 / 2 % 2 == 1), w / 0x400)
  }

  /** The word gives back the entry, its frame's address and its flags. */
  lemma WordRound(e: Pte)
    ensures Encode(e) / 0x400 == e.ppn && Encode(e) / 0x400 * PGSIZE == e.ppn * PGSIZE
    ensures Encode(e) % 0x400 == Flags(e) && Decode(Encode(e)) == e
    ensures Encode(e) % 0x400 == 1 <==> e.v && e.perm == NONE
  {
    FlagBits(e);
    hide Flags;
    var b := Flags(e);
    Fields(e.ppn, b);
    Half(e.ppn * 0x200, b);
    Half(e.ppn * 0x100, b / 2);
    Half(e.ppn * 0x80, b / 2 / 2);
    Half(e.ppn * 0x40, b / 2 / 2 / 2);
    Half(e.ppn * 0x20, b / 2 / 2 / 2 / 2);
  }

  lemma Fields(n: nat, b: nat)
    requires b < 0x400
    ensures (n * 0x400 + b) / 0x400 == n && (n * 0x400 + b) % 0x400 == b
  {
  }

  lemma Half(x: nat, b: nat)
    ensures (2 * x + b) / 2 == x + b / 2 && (2 * x + b) % 2 == b % 2
  {
  }

  lemma FlagBits(e: Pte)
    ensures var b := Flags(e);
            && (b == 1 <==> e.v && e.perm == NONE) && (b % 2 == 1 <==> e.v) && (b / 2 % 2 == 1 <==> e.perm.r)
            && (b / 2 / 2 % 2 == 1 <==> e.perm.w) && (b / 2 / 2 / 2 % 2 == 1 <==> e.perm.x)
            && (b / 2 / 2 / 2 / 2 % 2 == 1 <==> e.perm.u)
  {
  }

  // ---------------------------------------------------------------- frames

  datatype Page = Table(ptes: seq<Pte>) | Data(bytes: seq<Byte>) | Run(next: nat)

  /**
   What a frame is used for: on the free list, just taken off it and referred to by no
   entry, kept by the kernel, the root of an address space, a table at level 1 or 0
   under an entry of another table, or a page of user memory under an entry of a
   level-0 table.
   */
  datatype Use = Free | Held | Kernel | Root | Node(level: nat, parent: nat, idx: nat) | User(parent: nat, idx: nat)

  function Level(u: Use): int {
    match u
    case Root => 2
    case Node(l, _, _) => l
    case _ => -1
  }

  datatype Mem = Mem(lo: nat, pages: seq<Page>, use: map<nat, Use>)

  /** Tables hold tables of entries, and pages in use hold bytes. */
  predicate PageOk(u: Use, p: Page) {
    && (Level(u) >= 0 ==> p.Table? && |p.ptes| == ENTRIES && Level(u) <= 2)
    && (u.Node? ==> u.level <= 1 && u.idx < ENTRIES)
    && (u.Held? || u.Kernel? || u.User? ==> p.Data? && |p.bytes| == PGSIZE)
  }

  ghost predicate Pool(m: Mem) {
    && 0 < m.lo <= |m.pages|
    && (forall f :: f in m.use <==> m.lo <= f < |m.pages|)
    && (forall f :: f in m.use ==> PageOk(m.use[f], m.pages[f]))
  }

  predicate IsTable(m: Mem, f: nat) {
    f in m.use && Level(m.use[f]) >= 0
  }

  function At(m: Mem, f: nat, i: nat): Pte
    requires Pool(m) && IsTable(m, f) && i < ENTRIES
  {
    m.pages[f].ptes[i]
  }

  /** A valid entry of a table leads one level down; a leaf's frame is this entry's, or nobody's. */
  predicate EntryRight(m: Mem, f: nat, i: nat)
    requires Pool(m) && IsTable(m, f) && i < ENTRIES
  {
    var e := At(m, f, i);
    e.v ==>
      if Level(m.use[f]) > 0 then
        e.perm == NONE && e.ppn in m.use && m.use[e.ppn] == Node(Level(m.use[f]) - 1, f, i)
      else
        && Leafy(e.perm)
        && (e.ppn in m.use ==> m.use[e.ppn] == User(f, i) || m.use[e.ppn] == Kernel)
        && (e.ppn !in m.use ==> !e.perm.u)
  }

  /** A table or a user page is where its use says. */
  predicate UseRight(m: Mem, f: nat)
    requires Pool(m) && f in m.use
  {
    match m.use[f]
    case Node(l, p, i) =>
      IsTable(m, p) && i < ENTRIES && Level(m.use[p]) == l + 1 && At(m, p, i) == Pte(true, NONE, f)
    case User(p, i) =>
      IsTable(m, p) && i < ENTRIES && Level(m.use[p]) == 0 && At(m, p, i).v && At(m, p, i).ppn == f
    case _ => true
  }

  ghost predicate Trees(m: Mem): (r: bool)
    ensures r ==> Pool(m)
  {
    && Pool(m)
    && (forall f, i :: IsTable(m, f) && 0 <= i < ENTRIES ==> EntryRight(m, f, i))
    && (forall f :: f in m.use ==> UseRight(m, f))
  }

  // ---------------------------------------------------------------- the map

  function I2(vpn: nat): (i: nat)
    requires vpn < MAXVPN
    ensures i < ENTRIES
  {
    vpn / (ENTRIES * ENTRIES)
  }

  function I1(vpn: nat): (i: nat)
    ensures i < ENTRIES
  {
    vpn / ENTRIES % ENTRIES
  }

  function I0(vpn: nat): (i: nat)
    ensures i < ENTRIES
  {
    vpn % ENTRIES
  }

  /** The three indices determine the page. */
  lemma Indices(a: nat, b: nat)
    requires a < MAXVPN && b < MAXVPN
    ensures I2(a) == I2(b) && I1(a) == I1(b) && I0(a) == I0(b) ==> a == b
    ensures I2(a) == I2(b) && I1(a) == I1(b) <==> a / ENTRIES == b / ENTRIES
  {
    assert a == a / ENTRIES * ENTRIES + a % ENTRIES && b == b / ENTRIES * ENTRIES + b % ENTRIES;
    assert a / ENTRIES / ENTRIES == a / (ENTRIES * ENTRIES) && b / ENTRIES / ENTRIES == b / (ENTRIES * ENTRIES);
  }

  /** The table that an entry of a table leads to, or 0. */
  function Below(m: Mem, f: nat, i: nat): (t: nat)
    requires Trees(m) && IsTable(m, f) && i < ENTRIES && Level(m.use[f]) > 0
    ensures t != 0 ==> IsTable(m, t) && m.use[t] == Node(Level(m.use[f]) - 1, f, i)
  {
    assert EntryRight(m, f, i);
    if At(m, f, i).v then At(m, f, i).ppn else 0
  }

  /** The level-0 table for a page, or 0. */
  function Low(m: Mem, root: nat, vpn: nat): (t: nat)
    requires Trees(m) && root in m.use && m.use[root] == Root && vpn < MAXVPN
    ensures t != 0 ==> IsTable(m, t) && Level(m.use[t]) == 0
  {
    var mid := Below(m, root, I2(vpn));
    if mid == 0 then 0 else Below(m, mid, I1(vpn))
  }

  /** The entry for a page; an entry that is not valid stands for no mapping. */
  function Lookup(m: Mem, root: nat, vpn: nat): Pte
    requires Trees(m) && root in m.use && m.use[root] == Root && vpn < MAXVPN
  {
    var t := Low(m, root, vpn);
    if t == 0 || !At(m, t, I0(vpn)).v then EMPTY else At(m, t, I0(vpn))
  }

  /** Level-0 tables belong to one region of one address space. */
  lemma LowUnique(m: Mem, root: nat, vpn: nat, root': nat, vpn': nat)
    requires Trees(m) && root in m.use && m.use[root] == Root && vpn < MAXVPN
    requires root' in m.use && m.use[root'] == Root && vpn' < MAXVPN
    requires Low(m, root, vpn) != 0 && Low(m, root, vpn) == Low(m, root', vpn')
    ensures root == root' && vpn / ENTRIES == vpn' / ENTRIES
  {
    hide Trees, I2, I1;
    var mid, mid' := Below(m, root, I2(vpn)), Below(m, root', I2(vpn'));
    assert mid == mid' && I1(vpn) == I1(vpn') && I2(vpn) == I2(vpn');
    Indices(vpn, vpn');
  }

  /** Distinct pages below MAXVA have distinct slots. */
  lemma SlotsDistinct(m: Mem, root: nat, vpn: nat, root': nat, vpn': nat)
    requires Trees(m) && root in m.use && m.use[root] == Root && vpn < MAXVPN
    requires root' in m.use && m.use[root'] == Root && vpn' < MAXVPN
    requires Low(m, root, vpn) != 0 && Low(m, root', vpn') != 0 && (root, vpn) != (root', vpn')
    ensures (Low(m, root, vpn), I0(vpn)) != (Low(m, root', vpn'), I0(vpn'))
  {
    if Low(m, root, vpn) == Low(m, root', vpn') {
      LowUnique(m, root, vpn, root', vpn');
    }
  }

  // ---------------------------------------------------------------- what the hardware makes of it

  /** The bytes that one entry of a table at a level maps. */
  function Span(level: nat): (n: nat)
    ensures n > 0
  {
    if level == 0 then PGSIZE else 512 * Span(level - 1)
  }

  /** The machine word in entry i of frame f, where the frame is a table. */
  function WordOf(m: Mem, f: nat, i: nat): nat
    requires Pool(m)
  {
    if IsTable(m, f) && i < ENTRIES then Encode(At(m, f, i)) else 0
  }

  datatype Found = Fault | Hit(pa: nat, flags: nat)

  /**
   Translation on machine words, as section 4.3.2 of the RISC-V Privileged Architecture
   has it for the 9-bit fields of Sv39: from the word that the field of this level
   selects, a fault if V is clear, the address if R, W or X is set, else one level down.
   */
  function Translate(m: Mem, f: nat, level: nat, va: nat): Found
    requires Pool(m)
    decreases level
  {
    var w := WordOf(m, f, va / Span(level) % 512);
    if w % 2 == 0 then Fault
    else if w / 2 % 8 != 0 then Hit(w / 0x400 * PGSIZE + va % Span(level), w % 0x400)
    else if level == 0 then Fault
    else Translate(m, w / 0x400, level - 1, va)
  }

  /** The fields of an address are the indices of its page. */
  lemma FieldsAre(va: nat)
    requires va / PGSIZE < MAXVPN
    ensures Span(0) == PGSIZE && va / Span(2) % 512 == I2(va / PGSIZE) && va / Span(1) % 512 == I1(va / PGSIZE)
    ensures va / Span(0) % 512 == I0(va / PGSIZE)
    ensures va / PGSIZE == (I2(va / PGSIZE) * 512 + I1(va / PGSIZE)) * 512 + I0(va / PGSIZE)
  {
    var v := va / PGSIZE;
    assert Span(1) == 512 * PGSIZE && Span(2) == 512 * Span(1);
    assert va / (512 * PGSIZE) == v / 512 && va / (512 * 512 * PGSIZE) == v / (512 * 512);
    assert v / (512 * 512) == v / 512 / 512;
  }

  lemma WordParts(e: Pte)
    ensures var w := Encode(e);
            && (w % 2 == 1 <==> e.v) && (w / 2 % 8 != 0 <==> Leafy(e.perm))
            && w / 0x400 == e.ppn && w % 0x400 == Flags(e)
  {
    WordRound(e);
    FlagBits(e);
    var b := Flags(e);
    Half(e.ppn * 0x200, b);
    assert Encode(e) / 2 == (e.ppn * 0x40) * 8 + b / 2;
    Eighth(e.ppn * 0x40, b / 2);
  }

  lemma Eighth(n: nat, b: nat)
    requires b < 16
    ensures (n * 8 + b) % 8 == b % 8
  {
  }

  /**
   The map that the tables stand for is the one the hardware finds in their words: it
   faults where no page is mapped, and elsewhere gives the frame, the offset and the flags.
   */
  lemma HardwareFinds(m: Mem, root: nat, va: nat)
    requires Trees(m) && root in m.use && m.use[root] == Root && va / PGSIZE < MAXVPN
    ensures var e := Lookup(m, root, va / PGSIZE);
            Translate(m, root, 2, va) == if e.v then Hit(e.ppn * PGSIZE + va % PGSIZE, Flags(e)) else Fault
  {
    FieldsAre(va);
    var v := va / PGSIZE;
    TableStep(m, root, 2, va, I2(v));
    var mid := Below(m, root, I2(v));
    if mid != 0 {
      TableStep(m, mid, 1, va, I1(v));
      var t := Below(m, mid, I1(v));
      if t != 0 {
        LeafStep(m, t, va, I0(v));
      }
    }
  }

  lemma TableStep(m: Mem, f: nat, level: nat, va: nat, i: nat)
    requires Trees(m) && IsTable(m, f) && Level(m.use[f]) == level > 0 && i < ENTRIES && va / Span(level) % 512 == i
    ensures Translate(m, f, level, va) ==
            if Below(m, f, i) == 0 then Fault else Translate(m, Below(m, f, i), level - 1, va)
  {
    assert EntryRight(m, f, i);
    WordParts(At(m, f, i));
    hide Trees, Encode;
  }

  lemma LeafStep(m: Mem, f: nat, va: nat, i: nat)
    requires Trees(m) && IsTable(m, f) && Level(m.use[f]) == 0 && i < ENTRIES && va / Span(0) % 512 == i
    ensures var e := At(m, f, i);
            Translate(m, f, 0, va) == if e.v then Hit(e.ppn * PGSIZE + va % PGSIZE, Flags(e)) else Fault
  {
    assert EntryRight(m, f, i);
    WordParts(At(m, f, i));
    hide Trees, Encode;
  }

  // ---------------------------------------------------------------- steps: pages of bytes

  /** Every table is as it was. */
  ghost predicate SameTables(m: Mem, m': Mem) {
    && Pool(m) && Pool(m') && m'.lo == m.lo && |m'.pages| == |m.pages|
    && (forall f: nat :: IsTable(m, f) ==> IsTable(m', f) && m'.use[f] == m.use[f] && m'.pages[f] == m.pages[f])
  }

  ghost predicate SameMaps(m: Mem, m': Mem) {
    && Trees(m) && Trees(m')
    && (forall r :: r in m.use && m.use[r] == Root ==> r in m'.use && m'.use[r] == Root)
    && (forall r, v :: r in m.use && m.use[r] == Root && 0 <= v < MAXVPN ==> Lookup(m', r, v) == Lookup(m, r, v))
  }

  lemma BelowSame(m: Mem, m': Mem, f: nat, i: nat)
    requires Trees(m) && Trees(m') && IsTable(m, f) && IsTable(m', f) && m'.use[f] == m.use[f]
    requires Level(m.use[f]) > 0 && i < ENTRIES
    requires At(m', f, i) == At(m, f, i)
    ensures Below(m', f, i) == Below(m, f, i)
  {
    hide Trees;
  }

  lemma TablesMaps(m: Mem, m': Mem)
    requires Trees(m) && Trees(m') && SameTables(m, m')
    ensures SameMaps(m, m')
    ensures forall r, v :: r in m.use && m.use[r] == Root && 0 <= v < MAXVPN ==> Low(m', r, v) == Low(m, r, v)
  {
    hide Trees, I2, I1, I0;
    forall r, v | r in m.use && m.use[r] == Root && 0 <= v < MAXVPN
      ensures Low(m', r, v) == Low(m, r, v) && Lookup(m', r, v) == Lookup(m, r, v)
    {
      BelowSame(m, m', r, I2(v));
      var mid := Below(m, r, I2(v));
      if mid != 0 {
        BelowSame(m, m', mid, I1(v));
      }
    }
  }

  /** The bytes of a page can change, and a page can go between the free list and the kernel. */
  lemma PageChanges(m: Mem, f: nat, p: Page, u: Use)
    requires Trees(m) && f in m.use && PageOk(u, p)
    requires (m.use[f] == u && Level(u) < 0) || (m.use[f].Free? && u.Held?) || (m.use[f].Held? && u.Free?)
    ensures var m' := Mem(m.lo, m.pages[f := p], m.use[f := u]);
            Trees(m') && SameTables(m, m')
  {
    hide Leafy;
    var m' := Mem(m.lo, m.pages[f := p], m.use[f := u]);
    assert Pool(m') && SameTables(m, m');
    forall t, i | IsTable(m', t) && 0 <= i < ENTRIES ensures EntryRight(m', t, i) {
      assert IsTable(m, t) && EntryRight(m, t, i);
    }
    forall g | g in m'.use ensures UseRight(m', g) {
      assert UseRight(m, g);
    }
  }

  // ---------------------------------------------------------------- steps: entries of level-0 tables

  /** The memory with one entry of a table replaced. */
  function Put(m: Mem, t: nat, i: nat, e: Pte, use: map<nat, Use>): Mem
    requires t < |m.pages| && m.pages[t].Table? && i < |m.pages[t].ptes|
  {
    Mem(m.lo, m.pages[t := Table(m.pages[t].ptes[i := e])], use)
  }

  /** Uses that make the same frames tables, and ask the same of their pages. */
  ghost predicate SameKinds(m: Mem, use: map<nat, Use>) {
    && use.Keys == m.use.Keys
    && forall f: nat :: f in m.use && f < |m.pages| ==> Level(use[f]) == Level(m.use[f]) && PageOk(use[f], m.pages[f])
  }

  lemma PutShape(m: Mem, t: nat, i: nat, e: Pte, use: map<nat, Use>)
    requires Pool(m) && IsTable(m, t) && i < ENTRIES && SameKinds(m, use)
    ensures var m' := Put(m, t, i, e, use);
            && Pool(m') && (forall f: nat :: IsTable(m', f) <==> IsTable(m, f))
            && (forall f: nat, j: nat :: IsTable(m, f) && j < ENTRIES ==>
                  At(m', f, j) == if f == t && j == i then e else At(m, f, j))
  {
  }

  /** An entry of a level-0 table that may be stored where none was valid. */
  ghost predicate MayMap(m: Mem, e: Pte, own: bool) {
    && e.v && Leafy(e.perm)
    && (own ==> e.ppn in m.use && m.use[e.ppn] == Held)
    && (!own ==> if e.ppn in m.use then m.use[e.ppn] == Kernel else !e.perm.u)
  }

  function Claim(m: Mem, t: nat, i: nat, e: Pte, own: bool): map<nat, Use> {
    if own then m.use[e.ppn := User(t, i)] else m.use
  }

  lemma ClaimKinds(m: Mem, t: nat, i: nat, e: Pte, own: bool)
    requires Pool(m) && MayMap(m, e, own)
    ensures SameKinds(m, Claim(m, t, i, e, own))
  {
  }

  /** m' is m with entry i of table t replaced by e, as far as tables go. */
  ghost predicate Puts(m: Mem, m': Mem, t: nat, i: nat, e: Pte) {
    && Pool(m) && Pool(m') && (forall f: nat :: IsTable(m', f) <==> IsTable(m, f))
    && (forall f: nat :: IsTable(m, f) ==> m'.use[f] == m.use[f])
    && (forall f: nat, j: nat :: IsTable(m, f) && j < ENTRIES ==>
          At(m', f, j) == if f == t && j == i then e else At(m, f, j))
  }

  lemma StoredEntries(m: Mem, m': Mem, t: nat, i: nat, e: Pte, own: bool)
    requires Trees(m) && IsTable(m, t) && Level(m.use[t]) == 0 && i < ENTRIES && !At(m, t, i).v && MayMap(m, e, own)
    requires Puts(m, m', t, i, e) && m'.use == Claim(m, t, i, e, own)
    ensures forall f, j :: IsTable(m', f) && 0 <= j < ENTRIES ==> EntryRight(m', f, j)
  {
    hide At, Pool, PageOk;
    forall f, j | IsTable(m', f) && 0 <= j < ENTRIES ensures EntryRight(m', f, j) {
      assert EntryRight(m, f, j);
    }
  }

  lemma StoredUses(m: Mem, m': Mem, t: nat, i: nat, e: Pte, own: bool)
    requires Trees(m) && IsTable(m, t) && Level(m.use[t]) == 0 && i < ENTRIES && !At(m, t, i).v && MayMap(m, e, own)
    requires Puts(m, m', t, i, e) && m'.use == Claim(m, t, i, e, own)
    ensures forall g :: g in m'.use ==> UseRight(m', g)
  {
    hide At, Pool, PageOk;
    forall g | g in m'.use ensures UseRight(m', g) {
      assert UseRight(m, g);
    }
  }

  lemma LeafStored(m: Mem, t: nat, i: nat, e: Pte, own: bool)
    requires Trees(m) && IsTable(m, t) && Level(m.use[t]) == 0 && i < ENTRIES && !At(m, t, i).v && MayMap(m, e, own)
    ensures Trees(Put(m, t, i, e, Claim(m, t, i, e, own)))
  {
    var m' := Put(m, t, i, e, Claim(m, t, i, e, own));
    ClaimKinds(m, t, i, e, own);
    PutShape(m, t, i, e, Claim(m, t, i, e, own));
    hide At, PageOk, SameKinds, EntryRight, UseRight;
    StoredEntries(m, m', t, i, e, own);
    StoredUses(m, m', t, i, e, own);
  }

  /** Owners after an entry has been cleared: its user page is nobody's. */
  function Release(m: Mem, t: nat, i: nat): map<nat, Use>
    requires t < |m.pages| && m.pages[t].Table? && i < |m.pages[t].ptes|
  {
    var f := m.pages[t].ptes[i].ppn;
    if f in m.use && m.use[f] == User(t, i) then m.use[f := Held] else m.use
  }

  lemma ReleaseKinds(m: Mem, t: nat, i: nat)
    requires Pool(m) && t < |m.pages| && m.pages[t].Table? && i < |m.pages[t].ptes|
    ensures SameKinds(m, Release(m, t, i))
  {
  }

  lemma ClearedEntries(m: Mem, m': Mem, t: nat, i: nat)
    requires Trees(m) && IsTable(m, t) && Level(m.use[t]) == 0 && i < ENTRIES && At(m, t, i).v
    requires Puts(m, m', t, i, EMPTY) && m'.use == Release(m, t, i)
    ensures forall f, j :: IsTable(m', f) && 0 <= j < ENTRIES ==> EntryRight(m', f, j)
  {
    hide Pool, PageOk, Leafy;
    forall f, j | IsTable(m', f) && 0 <= j < ENTRIES ensures EntryRight(m', f, j) {
      assert EntryRight(m, f, j);
    }
  }

  lemma ClearedUses(m: Mem, m': Mem, t: nat, i: nat)
    requires Trees(m) && IsTable(m, t) && Level(m.use[t]) == 0 && i < ENTRIES && At(m, t, i).v
    requires Puts(m, m', t, i, EMPTY) && m'.use == Release(m, t, i)
    ensures forall g :: g in m'.use ==> UseRight(m', g)
  {
    hide Pool, PageOk, Leafy;
    forall g | g in m'.use ensures UseRight(m', g) {
      assert UseRight(m, g);
    }
  }

  lemma LeafCleared(m: Mem, t: nat, i: nat)
    requires Trees(m) && IsTable(m, t) && Level(m.use[t]) == 0 && i < ENTRIES && At(m, t, i).v
    ensures Trees(Put(m, t, i, EMPTY, Release(m, t, i)))
  {
    var m' := Put(m, t, i, EMPTY, Release(m, t, i));
    ReleaseKinds(m, t, i);
    PutShape(m, t, i, EMPTY, Release(m, t, i));
    hide At, PageOk, SameKinds, EntryRight, UseRight;
    ClearedEntries(m, m', t, i);
    ClearedUses(m, m', t, i);
  }

  /** The memories differ, among tables, in entry i of level-0 table t. */
  ghost predicate OneEntry(m: Mem, m': Mem, t: nat, i: nat, e: Pte) {
    && Trees(m) && Trees(m') && IsTable(m, t) && Level(m.use[t]) == 0 && i < ENTRIES
    && (forall f: nat :: IsTable(m, f) ==>
          IsTable(m', f) && m'.use[f] == m.use[f] && (f != t ==> m'.pages[f] == m.pages[f]))
    && m'.pages[t] == Table(m.pages[t].ptes[i := e])
  }

  /** Changing the entry of a page changes the map at that page and nowhere else. */
  lemma LeafMaps(m: Mem, m': Mem, root: nat, vpn: nat, e: Pte)
    requires Trees(m) && root in m.use && m.use[root] == Root && vpn < MAXVPN && Low(m, root, vpn) != 0
    requires OneEntry(m, m', Low(m, root, vpn), I0(vpn), e) && (!e.v ==> e == EMPTY)
    ensures forall r, v :: r in m.use && m.use[r] == Root && 0 <= v < MAXVPN ==>
              && Low(m', r, v) == Low(m, r, v)
              && Lookup(m', r, v) == if (r, v) == (root, vpn) then e else Lookup(m, r, v)
  {
    hide Trees, I2, I1, Leafy;
    forall r, v | r in m.use && m.use[r] == Root && 0 <= v < MAXVPN
      ensures Low(m', r, v) == Low(m, r, v)
      ensures Lookup(m', r, v) == if (r, v) == (root, vpn) then e else Lookup(m, r, v)
    {
      BelowSame(m, m', r, I2(v));
      var mid := Below(m, r, I2(v));
      if mid != 0 {
        BelowSame(m, m', mid, I1(v));
      }
      if Low(m, r, v) == Low(m, root, vpn) {
        LowUnique(m, r, v, root, vpn);
      }
    }
  }

  // ---------------------------------------------------------------- steps: whole tables

  function BlankTable(): (p: Page)
    ensures p.Table? && |p.ptes| == ENTRIES && forall j :: 0 <= j < ENTRIES ==> p.ptes[j] == EMPTY
  {
    Table(seq(ENTRIES, _ => EMPTY))
  }

  /** Every entry of a table is clear. */
  ghost predicate Blank(m: Mem, f: nat)
    requires Pool(m) && IsTable(m, f)
  {
    forall j :: 0 <= j < ENTRIES ==> !At(m, f, j).v
  }

  /** m' is m with a blank table at t under entry i of table p. */
  ghost predicate Hangs(m: Mem, m': Mem, p: nat, i: nat, t: nat) {
    && Pool(m) && Pool(m') && IsTable(m, p) && i < ENTRIES && Level(m.use[p]) > 0 && t in m.use && m.use[t] == Held
    && m'.use == m.use[t := Node(Level(m.use[p]) - 1, p, i)]
    && (forall f: nat :: IsTable(m', f) <==> IsTable(m, f) || f == t)
    && (forall f: nat, j: nat :: IsTable(m', f) && j < ENTRIES ==>
          At(m', f, j) == if f == t then EMPTY else if f == p && j == i then Pte(true, NONE, t) else At(m, f, j))
  }

  function Hang(m: Mem, p: nat, i: nat, t: nat): Mem
    requires t < |m.pages| && p < |m.pages| && m.pages[p].Table? && i < |m.pages[p].ptes| && p in m.use
    requires Level(m.use[p]) > 0
  {
    Mem(m.lo, m.pages[t := BlankTable()][p := Table(m.pages[p].ptes[i := Pte(true, NONE, t)])],
        m.use[t := Node(Level(m.use[p]) - 1, p, i)])
  }

  lemma HangShape(m: Mem, p: nat, i: nat, t: nat)
    requires Pool(m) && IsTable(m, p) && i < ENTRIES && Level(m.use[p]) > 0 && t in m.use && m.use[t] == Held
    ensures Hangs(m, Hang(m, p, i, t), p, i, t)
  {
  }

  lemma HangTrees(m: Mem, m': Mem, p: nat, i: nat, t: nat)
    requires Trees(m) && Hangs(m, m', p, i, t) && !At(m, p, i).v
    ensures Trees(m')
  {
    hide Pool, PageOk, Leafy;
    forall f, j | IsTable(m', f) && 0 <= j < ENTRIES ensures EntryRight(m', f, j) {
      if f != t {
        assert EntryRight(m, f, j);
      }
    }
    forall g | g in m'.use ensures UseRight(m', g) {
      assert UseRight(m, g);
    }
  }

  lemma HangBelow(m: Mem, m': Mem, p: nat, i: nat, t: nat, f: nat, j: nat)
    requires Trees(m) && Trees(m') && Hangs(m, m', p, i, t) && !At(m, p, i).v
    requires IsTable(m', f) && j < ENTRIES && Level(m'.use[f]) > 0
    ensures f == t ==> Below(m', f, j) == 0
    ensures f == p && j == i ==> Below(m', f, j) == t && Below(m, f, j) == 0
    ensures f != t && !(f == p && j == i) ==> Below(m', f, j) == Below(m, f, j)
  {
    hide Trees, Pool;
  }

  /** A new table changes no map: its entries are clear. */
  lemma HangMaps(m: Mem, m': Mem, p: nat, i: nat, t: nat)
    requires Trees(m) && Trees(m') && Hangs(m, m', p, i, t) && !At(m, p, i).v
    ensures SameMaps(m, m')
    ensures forall r, v :: r in m.use && m.use[r] == Root && 0 <= v < MAXVPN && Low(m, r, v) != 0 ==>
        Low(m', r, v) == Low(m, r, v)
  {
    hide Trees, I2, I1, I0, Hangs;
    HangFacts(m, m', p, i, t);
    forall r, v | r in m.use && m.use[r] == Root && 0 <= v < MAXVPN
      ensures Lookup(m', r, v) == Lookup(m, r, v) && (Low(m, r, v) != 0 ==> Low(m', r, v) == Low(m, r, v))
    {
      HangBelow(m, m', p, i, t, r, I2(v));
      var mid' := Below(m', r, I2(v));
      if mid' != 0 {
        HangBelow(m, m', p, i, t, mid', I1(v));
      }
    }
  }

  lemma HangFacts(m: Mem, m': Mem, p: nat, i: nat, t: nat)
    requires Trees(m) && Trees(m') && Hangs(m, m', p, i, t)
    ensures t != 0 && IsTable(m', t) && Blank(m', t)
    ensures forall f: nat :: IsTable(m, f) ==>
        f != t && IsTable(m', f) && m'.use[f] == m.use[f]
        && (Level(m.use[f]) == 0 ==> forall j: nat :: j < ENTRIES ==> At(m', f, j) == At(m, f, j))
    ensures forall f: nat :: IsTable(m', f) ==> f == t || IsTable(m, f)
  {
  }

  /** m' is m without the blank table t, which hung under entry i of table p; its frame is free. */
  ghost predicate Drops(m: Mem, m': Mem, p: nat, i: nat, t: nat) {
    && Pool(m) && Pool(m') && IsTable(m, p) && i < ENTRIES && t in m.use && m.use[t].Node?
    && m.use[t].level + 1 == Level(m.use[p]) && m.use[t].parent == p && m.use[t].idx == i
    && m'.use == m.use[t := Free]
    && (forall f: nat :: IsTable(m', f) <==> IsTable(m, f) && f != t)
    && (forall f: nat, j: nat :: IsTable(m', f) && j < ENTRIES ==>
          At(m', f, j) == if f == p && j == i then EMPTY else At(m, f, j))
  }

  lemma DropTrees(m: Mem, m': Mem, p: nat, i: nat, t: nat)
    requires Trees(m) && Drops(m, m', p, i, t) && Blank(m, t)
    ensures Trees(m')
  {
    hide Pool, PageOk, Leafy;
    assert UseRight(m, t);
    forall f, j | IsTable(m', f) && 0 <= j < ENTRIES ensures EntryRight(m', f, j) {
      assert EntryRight(m, f, j);
    }
    forall g | g in m'.use ensures UseRight(m', g) {
      assert UseRight(m, g);
    }
  }

  lemma DropBelow(m: Mem, m': Mem, p: nat, i: nat, t: nat, f: nat, j: nat)
    requires Trees(m) && Trees(m') && Drops(m, m', p, i, t) && Blank(m, t)
    requires IsTable(m', f) && j < ENTRIES && Level(m'.use[f]) > 0
    ensures IsTable(m, f) && m.use[f] == m'.use[f]
    ensures f == p && j == i ==> Below(m', f, j) == 0 && Below(m, f, j) == t
    ensures !(f == p && j == i) ==> Below(m', f, j) == Below(m, f, j)
  {
    assert UseRight(m, t);
    hide Trees, Pool;
  }

  /** Removing a blank table changes no map. */
  lemma DropMaps(m: Mem, m': Mem, p: nat, i: nat, t: nat)
    requires Trees(m) && Trees(m') && Drops(m, m', p, i, t) && Blank(m, t)
    ensures SameMaps(m, m')
  {
    DropFacts(m, m', p, i, t);
    hide Trees, Drops, Blank, Lookup;
    forall r, v | r in m.use && m.use[r] == Root && 0 <= v < MAXVPN ensures Lookup(m', r, v) == Lookup(m, r, v) {
      DropLookup(m, m', p, i, t, r, v);
    }
  }

  lemma DropLookup(m: Mem, m': Mem, p: nat, i: nat, t: nat, r: nat, v: nat)
    requires Trees(m) && Trees(m') && Drops(m, m', p, i, t) && Blank(m, t) && v < MAXVPN
    requires r in m.use && m.use[r] == Root && r in m'.use && m'.use[r] == Root
    ensures Lookup(m', r, v) == Lookup(m, r, v)
  {
    DropFacts(m, m', p, i, t);
    hide Trees, I2, I1, I0, Drops, Blank;
    DropBelow(m, m', p, i, t, r, I2(v));
    var mid' := Below(m', r, I2(v));
    if mid' != 0 {
      DropBelow(m, m', p, i, t, mid', I1(v));
    } else if Below(m, r, I2(v)) != 0 {
      BlankBelow(m, t, I1(v));
    }
  }

  lemma BlankBelow(m: Mem, t: nat, j: nat)
    requires Trees(m) && IsTable(m, t) && Blank(m, t) && j < ENTRIES
    ensures Level(m.use[t]) > 0 ==> Below(m, t, j) == 0
    ensures !At(m, t, j).v
  {
  }

  lemma DropFacts(m: Mem, m': Mem, p: nat, i: nat, t: nat)
    requires Trees(m) && Trees(m') && Drops(m, m', p, i, t) && Blank(m, t)
    ensures IsTable(m, t) && forall j: nat :: j < ENTRIES ==> !At(m, t, j).v
    ensures forall f: nat :: IsTable(m, f) && f != t ==>
        IsTable(m', f) && m'.use[f] == m.use[f]
        && (Level(m.use[f]) == 0 ==> forall j: nat :: j < ENTRIES ==> At(m', f, j) == At(m, f, j))
    ensures Level(m.use[t]) < 2
  {
  }

  // ---------------------------------------------------------------- steps: roots

  /** A frame becomes the blank root of a new address space. */
  lemma RootMade(m: Mem, t: nat)
    requires Trees(m) && t in m.use && m.use[t] == Held
    ensures var m' := Mem(m.lo, m.pages[t := BlankTable()], m.use[t := Root]);
            && Trees(m') && SameMaps(m, m')
            && (forall v :: 0 <= v < MAXVPN ==> Lookup(m', t, v) == EMPTY && Low(m', t, v) == 0)
  {
    var m' := Mem(m.lo, m.pages[t := BlankTable()], m.use[t := Root]);
    assert Pool(m') && SameTables(m, m');
    assert forall j: nat :: j < ENTRIES ==> At(m', t, j) == EMPTY;
    RootTrees(m, m', t);
    TablesMaps(m, m');
    hide Trees, Pool, SameMaps;
    forall v | 0 <= v < MAXVPN ensures Lookup(m', t, v) == EMPTY && Low(m', t, v) == 0 {
      assert Below(m', t, I2(v)) == 0;
    }
  }

  lemma RootTrees(m: Mem, m': Mem, t: nat)
    requires Trees(m) && SameTables(m, m') && t in m.use && m.use[t] == Held && m'.use == m.use[t := Root]
    requires forall j: nat :: j < ENTRIES ==> At(m', t, j) == EMPTY
    ensures Trees(m')
  {
    hide Pool, PageOk, Leafy;
    forall f, j | IsTable(m', f) && 0 <= j < ENTRIES ensures EntryRight(m', f, j) {
      if f != t {
        assert EntryRight(m, f, j);
      }
    }
    forall g | g in m'.use ensures UseRight(m', g) {
      assert UseRight(m, g);
    }
  }

  /** All address spaces but one keep their maps. */
  ghost predicate OtherMaps(m: Mem, m': Mem, root: nat) {
    && Trees(m) && Trees(m')
    && (forall r :: r in m.use && m.use[r] == Root && r != root ==> r in m'.use && m'.use[r] == Root)
    && (forall r, v :: r in m.use && m.use[r] == Root && r != root && 0 <= v < MAXVPN ==>
        Lookup(m', r, v) == Lookup(m, r, v))
  }

  /** A blank root is given up. */
  lemma RootDropped(m: Mem, m': Mem, t: nat)
    requires Trees(m) && t in m.use && m.use[t] == Root && Blank(m, t)
    requires Pool(m') && m'.lo == m.lo && |m'.pages| == |m.pages| && m'.use == m.use[t := Free]
    requires forall f: nat :: IsTable(m, f) && f != t ==> m'.pages[f] == m.pages[f]
    ensures Trees(m') && OtherMaps(m, m', t)
  {
    assert forall f: nat :: IsTable(m, f) && f != t ==> IsTable(m', f);
    forall f: nat, j: nat | IsTable(m, f) && f != t && j < ENTRIES ensures At(m', f, j) == At(m, f, j) {
      assert m'.pages[f] == m.pages[f];
    }
    RootDroppedTrees(m, m', t);
    hide Pool, Trees, I2, I1, I0, Blank;
    forall r, v | r in m.use && m.use[r] == Root && r != t
        && 0 <= v < MAXVPN ensures Lookup(m', r, v) == Lookup(m, r, v) {
      BelowSame(m, m', r, I2(v));
      var mid := Below(m, r, I2(v));
      if mid != 0 {
        BelowSame(m, m', mid, I1(v));
      }
    }
  }

  lemma RootDroppedTrees(m: Mem, m': Mem, t: nat)
    requires Trees(m) && t in m.use && m.use[t] == Root && Blank(m, t) && Pool(m') && m'.use == m.use[t := Free]
    requires forall f: nat :: IsTable(m, f) && f != t ==> IsTable(m', f)
    requires forall f: nat, j: nat :: IsTable(m, f) && f != t && j < ENTRIES ==> At(m', f, j) == At(m, f, j)
    ensures Trees(m')
  {
    hide Pool, PageOk, Leafy;
    forall f, j | IsTable(m', f) && 0 <= j < ENTRIES ensures EntryRight(m', f, j) {
      assert EntryRight(m, f, j);
    }
    forall g | g in m'.use ensures UseRight(m', g) {
      assert UseRight(m, g);
    }
  }
}
