/**
 How many frames the tables of an address space take: which tables a mapping makes,
 and so exactly when memory runs out (kernel/vm.c walk, mappages).
 */
module FrameBudget {
  import opened PageTable
  import opened Sequences
  import opened VirtualMemory

  /** The level-1 table for a page, or 0. */
  function Mid(m: Mem, root: nat, v: nat): nat
    requires Trees(m) && root in m.use && m.use[root] == Root && v < MAXVPN
  {
    Below(m, root, I2(v))
  }

  /** How many tables are missing on the way to a page. */
  function Missing(m: Mem, root: nat, v: nat): nat
    requires Trees(m) && root in m.use && m.use[root] == Root && v < MAXVPN
  {
    if Mid(m, root, v) == 0 then 2 else if Low(m, root, v) == 0 then 1 else 0
  }

  /** Frames in use stay in use, and tables stay the tables they are. */
  ghost predicate TablesStay(use: map<nat, Use>, use': map<nat, Use>) {
    && use'.Keys == use.Keys
    && forall f: nat :: f in use && use[f] != Free ==>
         use'[f] != Free && (use[f].Node? || use'[f].Node? || use[f].Root? ==> use'[f] == use[f])
  }

  lemma MidByUse(m: Mem, root: nat, v: nat, f: nat)
    requires Trees(m) && root in m.use && m.use[root] == Root && v < MAXVPN
    requires f in m.use && m.use[f] == Node(1, root, I2(v))
    ensures f != 0 && Mid(m, root, v) == f
  {
    assert UseRight(m, f);
    InPool(m, f);
    hide Trees, I2;
    BelowIs(m, root, I2(v));
  }

  lemma LowByUse(m: Mem, root: nat, v: nat, f: nat)
    requires Trees(m) && root in m.use && m.use[root] == Root && v < MAXVPN
    requires f in m.use && m.use[f].Node? && m.use[f].level == 0 && m.use[f].idx == I1(v)
    requires m.use[f].parent in m.use && m.use[m.use[f].parent] == Node(1, root, I2(v))
    ensures f != 0 && Low(m, root, v) == f
  {
    assert UseRight(m, f);
    InPool(m, f);
    MidByUse(m, root, v, m.use[f].parent);
    hide Trees, I2, I1;
    BelowIs(m, m.use[f].parent, I1(v));
  }

  /** Tables that were there still are. */
  lemma StillThere(m: Mem, m': Mem, root: nat, v: nat)
    requires Trees(m) && Trees(m') && TablesStay(m.use, m'.use) && root in m.use && m.use[root] == Root && v < MAXVPN
    ensures root in m'.use && m'.use[root] == Root
    ensures Mid(m, root, v) != 0 ==> Mid(m', root, v) == Mid(m, root, v)
    ensures Low(m, root, v) != 0 ==> Low(m', root, v) == Low(m, root, v)
  {
    hide Trees;
    if Mid(m, root, v) != 0 {
      MidByUse(m', root, v, Mid(m, root, v));
      if Low(m, root, v) != 0 {
        LowByUse(m', root, v, Low(m, root, v));
      }
    }
  }

  /** A table that was not there is on the way to the page. */
  lemma NewMid(m: Mem, m': Mem, root: nat, w: nat, v: nat)
    requires Trees(m) && Trees(m') && TablesStay(m.use, m'.use) && root in m.use && m.use[root] == Root
    requires NewOnPath(m.use, m'.use, root, v, 1) && w < MAXVPN && v < MAXVPN
    ensures root in m'.use && m'.use[root] == Root
    ensures Mid(m', root, w) != 0 && Mid(m, root, w) == 0 ==>
              I2(w) == I2(v) && m.use[Mid(m', root, w)] == Free
  {
    hide Trees, I2, I1;
    var mid := Mid(m', root, w);
    if mid != 0 && Mid(m, root, w) == 0 {
      if m.use[mid] != Free {
        MidByUse(m, root, w, mid);
      }
      var x :| v <= x < v + 1 && OnPath(m'.use, mid, root, x);
    }
  }

  lemma NewLow(m: Mem, m': Mem, root: nat, r: nat, w: nat, v: nat)
    requires Trees(m) && Trees(m') && TablesStay(m.use, m'.use) && r in m.use && m.use[r] == Root
    requires NewOnPath(m.use, m'.use, root, v, 1) && w < MAXVPN && v < MAXVPN
    ensures r in m'.use && m'.use[r] == Root
    ensures Low(m', r, w) != 0 && Low(m, r, w) == 0 ==>
              r == root && I2(w) == I2(v) && I1(w) == I1(v) && m.use[Low(m', r, w)] == Free
  {
    hide I2, I1, NewOnPath;
    var t := Low(m', r, w);
    if t != 0 && Low(m, r, w) == 0 {
      var mid := Below(m', r, I2(w));
      assert m'.use[t] == Node(0, mid, I1(w)) && m'.use[mid] == Node(1, r, I2(w));
      if m.use[t] != Free {
        assert UseRight(m, t);
        hide Trees;
        LowByUse(m, r, w, t);
      }
      NewPath(m.use, m'.use, root, v, t);
    }
  }

  lemma NewPath(use: map<nat, Use>, use': map<nat, Use>, root: nat, v: nat, t: nat)
    requires NewOnPath(use, use', root, v, 1) && t in use && use[t] == Free && t in use' && use'[t].Node?
    ensures OnPath(use', t, root, v)
  {
    var x :| v <= x < v + 1 && OnPath(use', t, root, x);
  }

  /** The tables that a walk to page v has made. */
  function Fresh(m: Mem, m': Mem, root: nat, v: nat): set<nat>
    requires Trees(m) && root in m.use && m.use[root] == Root && v < MAXVPN
    requires Trees(m') && root in m'.use && m'.use[root] == Root
  {
    (if Mid(m, root, v) == 0 && Mid(m', root, v) != 0 then {Mid(m', root, v)} else {})
    + if Low(m, root, v) == 0 && Low(m', root, v) != 0 then {Low(m', root, v)} else {}
  }

  lemma FreshCount(m: Mem, m': Mem, root: nat, v: nat)
    requires Trees(m) && Trees(m') && TablesStay(m.use, m'.use) && root in m.use && m.use[root] == Root && v < MAXVPN
    ensures root in m'.use && m'.use[root] == Root
    ensures |Fresh(m, m', root, v)| == Missing(m, root, v) - Missing(m', root, v)
  {
    hide Trees;
    StillThere(m, m', root, v);
    var mid, t := Mid(m', root, v), Low(m', root, v);
    assert mid != 0 ==> m'.use[mid] == Node(1, root, I2(v));
    assert t != 0 ==> m'.use[t].level == 0;
  }

  /** A frame that a walk took has become a table on its way. */
  lemma TakenIsFresh(m: Mem, m': Mem, root: nat, v: nat, f: nat)
    requires Trees(m) && Trees(m') && TablesStay(m.use, m'.use) && root in m.use && m.use[root] == Root
    requires NewOnPath(m.use, m'.use, root, v, 1) && v < MAXVPN
    requires f in m.use && m.use[f] == Free && m'.use[f].Node?
    ensures root in m'.use && m'.use[root] == Root && f in Fresh(m, m', root, v)
  {
    hide Trees, I2, I1;
    NewPath(m.use, m'.use, root, v, f);
    StillThere(m, m', root, v);
    if m'.use[f].level == 0 {
      LowByUse(m', root, v, f);
    } else {
      MidByUse(m', root, v, f);
    }
  }

  lemma FreshIsTaken(m: Mem, m': Mem, root: nat, v: nat, f: nat)
    requires Trees(m) && Trees(m') && TablesStay(m.use, m'.use) && root in m.use && m.use[root] == Root
    requires NewOnPath(m.use, m'.use, root, v, 1) && v < MAXVPN
    requires root in m'.use && m'.use[root] == Root && f in Fresh(m, m', root, v)
    ensures f in m.use && m.use[f] == Free && m'.use[f].Node?
  {
    hide Trees, I2, I1, NewOnPath;
    NewMid(m, m', root, v, v);
    NewLow(m, m', root, root, v, v);
  }

  predicate SameRegion(v: nat, w: nat) {
    v / ENTRIES == w / ENTRIES
  }

  predicate SameSpan(v: nat, w: nat) {
    v / (ENTRIES * ENTRIES) == w / (ENTRIES * ENTRIES)
  }

  /** The tables of a space are those it had and, if `mapped`, those on the way to a page. */
  ghost predicate Grew(m: Mem, m': Mem, root: nat, vpn: nat, mapped: bool)
    requires Trees(m) && root in m.use && m.use[root] == Root
    requires Trees(m') && root in m'.use && m'.use[root] == Root
  {
    (forall v: nat :: v < MAXVPN ==> GrewAt(m, m', root, vpn, mapped, v)) && OthersTables(m, m', root)
  }

  ghost predicate GrewAt(m: Mem, m': Mem, root: nat, vpn: nat, mapped: bool, v: nat)
    requires Trees(m) && root in m.use && m.use[root] == Root
    requires Trees(m') && root in m'.use && m'.use[root] == Root && v < MAXVPN
  {
    && (Low(m', root, v) != 0 <==> Low(m, root, v) != 0 || (mapped && SameRegion(v, vpn)))
    && (mapped ==> (Mid(m', root, v) != 0 <==> Mid(m, root, v) != 0 || SameSpan(v, vpn)))
  }

  /** The tables of every other space are as they were. */
  ghost predicate OthersTables(m: Mem, m': Mem, root: nat)
    requires Trees(m) && Trees(m')
  {
    forall r: nat, v: nat :: r in m.use && m.use[r] == Root && r != root && v < MAXVPN ==> OtherTable(m, m', r, v)
  }

  ghost predicate OtherTable(m: Mem, m': Mem, r: nat, v: nat)
    requires Trees(m) && Trees(m') && r in m.use && m.use[r] == Root && v < MAXVPN
  {
    r in m'.use && m'.use[r] == Root && (Low(m', r, v) != 0 <==> Low(m, r, v) != 0)
  }

  lemma GrewBy(m: Mem, m': Mem, root: nat, vpn: nat)
    requires Trees(m) && Trees(m') && TablesStay(m.use, m'.use) && root in m.use && m.use[root] == Root
    requires NewOnPath(m.use, m'.use, root, vpn, 1) && vpn < MAXVPN
    ensures root in m'.use && m'.use[root] == Root
    ensures Low(m', root, vpn) != 0 ==> Grew(m, m', root, vpn, true)
    ensures Low(m', root, vpn) == 0 ==> Grew(m, m', root, vpn, false)
  {
    StillThere(m, m', root, vpn);
    OthersStay(m, m', root, vpn);
    hide Trees, NewOnPath, TablesStay, OthersTables, Low, GrewAt;
    var mapped := Low(m', root, vpn) != 0;
    forall v: nat | v < MAXVPN ensures GrewAt(m, m', root, vpn, mapped, v) {
      GrewOne(m, m', root, vpn, v);
    }
  }

  lemma GrewOne(m: Mem, m': Mem, root: nat, vpn: nat, v: nat)
    requires Trees(m) && Trees(m') && TablesStay(m.use, m'.use) && root in m.use && m.use[root] == Root
    requires NewOnPath(m.use, m'.use, root, vpn, 1) && vpn < MAXVPN && v < MAXVPN
    ensures root in m'.use && m'.use[root] == Root && GrewAt(m, m', root, vpn, Low(m', root, vpn) != 0, v)
  {
    hide Trees, NewOnPath, TablesStay;
    StillThere(m, m', root, v);
    NewMid(m, m', root, v, vpn);
    NewLow(m, m', root, root, v, vpn);
    Indices(v, vpn);
  }

  lemma OthersStay(m: Mem, m': Mem, root: nat, vpn: nat)
    requires Trees(m) && Trees(m') && TablesStay(m.use, m'.use)
    requires NewOnPath(m.use, m'.use, root, vpn, 1) && vpn < MAXVPN
    ensures OthersTables(m, m', root)
  {
    hide Trees, NewOnPath, TablesStay;
    forall r: nat, v: nat | r in m.use && m.use[r] == Root && r != root && v < MAXVPN
      ensures OtherTable(m, m', r, v)
    {
      StillThere(m, m', r, v);
      NewLow(m, m', root, r, v, vpn);
    }
  }

  lemma OthersTablesTwice(m: Mem, m1: Mem, m2: Mem, root: nat)
    requires Trees(m) && Trees(m1) && Trees(m2) && OthersTables(m, m1, root) && OthersTables(m1, m2, root)
    ensures OthersTables(m, m2, root)
  {
    hide Trees, Low;
    forall r: nat, v: nat | r in m.use && m.use[r] == Root && r != root && v < MAXVPN ensures OtherTable(m, m2, r, v) {
      assert OtherTable(m, m1, r, v) && OtherTable(m1, m2, r, v);
    }
  }

  /** The free list is the frames that are free, each once. */
  ghost predicate ListsFree(free: seq<nat>, use: map<nat, Use>) {
    NoRepeats(free) && forall f: nat :: f in free <==> f in use && use[f] == Free
  }

  /** The frames taken off the list are as many as the tables made. */
  lemma TablesTaken(m: Mem, m': Mem, root: nat, v: nat, free: seq<nat>, free': seq<nat>)
    requires Trees(m) && Trees(m') && TablesStay(m.use, m'.use) && root in m.use && m.use[root] == Root
    requires NewOnPath(m.use, m'.use, root, v, 1) && v < MAXVPN
    requires ListsFree(free, m.use) && ListsFree(free', m'.use) && Suffix(free, free')
    requires forall f: nat :: f in m.use && m.use[f] == Free ==> m'.use[f] == Free || m'.use[f].Node?
    ensures root in m'.use && m'.use[root] == Root
    ensures |free| - |free'| == Missing(m, root, v) - Missing(m', root, v)
  {
    FreshCount(m, m', root, v);
    var made := Fresh(m, m', root, v);
    hide Trees, NewOnPath, Fresh, Missing, Suffix;
    forall f: nat | f in free && f !in free' ensures f in made {
      TakenIsFresh(m, m', root, v, f);
    }
    forall f | f in made ensures f in free && f !in free' {
      FreshIsTaken(m, m', root, v, f);
    }
    hide TablesStay;
    CutOff(free, free', made);
  }

  /** What a suffix leaves out, counted. */
  lemma CutOff(free: seq<nat>, free': seq<nat>, out: set<nat>)
    requires NoRepeats(free) && Suffix(free, free')
    requires forall f :: f in out <==> f in free && f !in free'
    ensures |free| - |free'| == |out|
  {
    var d := |free| - |free'|;
    var taken := free[..d];
    assert free == taken + free';
    forall k | 0 <= k < d ensures taken[k] in out {
      assert taken[k] == free[k] && free[k] in free;
      forall j | 0 <= j < |free'| ensures free'[j] != free[k] {
        assert free'[j] == free[d + j];
      }
    }
    NoRepeatsFits(taken, out);
    forall f | f in out ensures f in taken {
      assert f in free;
    }
    SetFits(out, taken);
  }

  lemma {:induction false} SetFits(s: set<nat>, q: seq<nat>)
    requires forall x :: x in s ==> x in q
    ensures |s| <= |q|
  {
    if q != [] {
      var n := |q| - 1;
      SetFits(s - {q[n]}, q[..n]);
    }
  }
}
