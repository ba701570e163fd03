/**
 The code of kernel/log.c as it runs over the buffer cache: log_write, commit and
 recover_from_log, with every block write they make. A buffer shortage is a panic,
 which stops the machine like any other crash.
 */
module Journal {
  import opened Blocks
  import opened BufferCache
  import opened Params
  import opened RedoLog
  import opened Sequences

  /** The listed blocks with their current contents. */
  function Gather(bs: seq<Word>, view: seq<Block>): (t: Txn)
    requires forall i :: 0 <= i < |bs| ==> bs[i] < |view|
    ensures t.blocks == bs && |t.data| == |bs| && forall i :: 0 <= i < |bs| ==> t.data[i] == view[bs[i]]
  {
    Txn(bs, seq(|bs|, i requires 0 <= i < |bs| => view[bs[i]]))
  }

  // ---------------------------------------------------------------- runs of operations

  /** What operations do to blocks between commits. */
  datatype Act = DoRead(b: Word) | DoChange(b: Word, data: Block) | DoLog(b: Word) | DoRelease(b: Word)

  /** The contents of the blocks, the blocks listed, and the blocks that are held. */
  datatype State = State(view: Disk, lh: seq<Word>, held: set<nat>)

  /** What an act does, if no change is lost. */
  function Did(s: State, a: Act): State {
    match a
    case DoRead(b) => s.(held := s.held + {b})
    case DoChange(b, data) => if b < |s.view| then s.(view := s.view[b := data]) else s
    case DoLog(b) => if b in s.lh then s else s.(lh := s.lh + [b])
    case DoRelease(b) => s.(held := s.held - {b})
  }

  /** A block is changed, listed or released by its holder; the blocks of the log are not for operations to change. */
  predicate May(l: Layout, n: nat, s: State, a: Act) {
    match a
    case DoRead(b) => b < n && b !in s.held
    case DoChange(b, data) => b in s.held && !InLog(l, b)
    case DoLog(b) => b in s.held && !InLog(l, b)
    case DoRelease(b) => b in s.held
  }

  function DidAll(s: State, acts: seq<Act>): State
    decreases |acts|
  {
    if acts == [] then s else Did(DidAll(s, acts[..|acts| - 1]), acts[|acts| - 1])
  }

  predicate AllMay(l: Layout, n: nat, s: State, acts: seq<Act>)
    decreases |acts|
  {
    acts == []
    || (AllMay(l, n, s, acts[..|acts| - 1]) && May(l, n, DidAll(s, acts[..|acts| - 1]), acts[|acts| - 1]))
  }

  lemma {:induction false} AllMayPrefix(l: Layout, n: nat, s: State, acts: seq<Act>, k: nat)
    requires AllMay(l, n, s, acts) && k < |acts|
    ensures AllMay(l, n, s, acts[..k]) && May(l, n, DidAll(s, acts[..k]), acts[k])
    ensures DidAll(s, acts[..k + 1]) == Did(DidAll(s, acts[..k]), acts[k])
  {
    var m := |acts| - 1;
    assert acts[..k + 1][..k] == acts[..k];
    if k < m {
      AllMayPrefix(l, n, s, acts[..m], k);
      assert acts[..m][..k] == acts[..k] && acts[..m][..k + 1] == acts[..k + 1];
    }
  }

  /** Block b is neither listed nor held, so that a change to it may be lost. */
  predicate Exposed(s: State, b: nat) {
    b !in s.lh && b !in s.held
  }

  /** Block b after an act: as the act leaves it, but a read may put an exposed block back to what the disk has. */
  predicate NextAt(disk: Disk, s: State, a: Act, s': State, b: nat)
    requires |s'.view| == |s.view| == |disk| && b < |disk|
  {
    s'.view[b] == Did(s, a).view[b] || (a.DoRead? && Exposed(s, b) && s'.view[b] == disk[b])
  }

  ghost predicate Next(disk: Disk, s: State, a: Act, s': State) {
    && s'.lh == Did(s, a).lh && s'.held == Did(s, a).held && |s'.view| == |s.view| == |disk|
    && forall b: nat :: b < |disk| ==> NextAt(disk, s, a, s', b)
  }

  /** The states that a run of acts goes through, over a disk that stays as it is. */
  ghost predicate Trace(disk: Disk, states: seq<State>, acts: seq<Act>) {
    && |states| == |acts| + 1 && |states[0].view| == |disk|
    && forall j :: 0 <= j < |acts| ==> Next(disk, states[j], acts[j], states[j + 1])
  }

  /** The last contents that acts give to block b, or x if they give it none. */
  function Last(acts: seq<Act>, b: nat, x: Block): Block {
    if acts == [] then x
    else
      var a := acts[|acts| - 1];
      if a.DoChange? && a.b == b then a.data else Last(acts[..|acts| - 1], b, x)
  }

  /** Which blocks are listed and which are held does not depend on what is lost. */
  lemma {:induction false} TraceLists(disk: Disk, states: seq<State>, acts: seq<Act>, j: nat)
    requires Trace(disk, states, acts) && j <= |acts|
    ensures var s := DidAll(states[0], acts[..j]);
            states[j].lh == s.lh && states[j].held == s.held && |states[j].view| == |s.view| == |disk|
  {
    if j > 0 {
      TraceLists(disk, states, acts, j - 1);
      assert acts[..j][..j - 1] == acts[..j - 1];
      assert Next(disk, states[j - 1], acts[j - 1], states[j]);
    }
  }

  /** A block that is listed or held shows what the act gives to it. */
  lemma SafeStep(disk: Disk, s: State, a: Act, s': State, b: nat)
    requires Next(disk, s, a, s') && b < |disk| && !Exposed(s, b)
    ensures |s.view| == |s'.view| == |disk|
    ensures s'.view[b] == (if a.DoChange? && a.b == b then a.data else s.view[b])
    ensures b in s.lh ==> b in s'.lh
  {
    assert NextAt(disk, s, a, s', b);
  }

  lemma LastMore(acts: seq<Act>, i: nat, j: nat, b: nat, x: Block)
    requires i < j <= |acts|
    ensures var a := acts[j - 1];
            Last(acts[i..j], b, x) == if a.DoChange? && a.b == b then a.data else Last(acts[i..j - 1], b, x)
  {
    assert acts[i..j][..j - 1 - i] == acts[i..j - 1] && acts[i..j][j - 1 - i] == acts[j - 1];
  }

  /** From its listing on, a block stays listed and shows the last contents given to it, whatever else is done. */
  lemma {:induction false} ListedStays(disk: Disk, states: seq<State>, acts: seq<Act>, i: nat, j: nat, b: nat)
    requires Trace(disk, states, acts) && i <= j <= |acts| && b < |disk| && b in states[i].lh
    ensures b in states[j].lh && |states[i].view| == |states[j].view| == |disk|
    ensures states[j].view[b] == Last(acts[i..j], b, states[i].view[b])
    decreases j
  {
    hide Next, Last, DidAll;
    TraceLists(disk, states, acts, i);
    if i < j {
      ListedStays(disk, states, acts, i, j - 1, b);
      SafeStep(disk, states[j - 1], acts[j - 1], states[j], b);
      LastMore(acts, i, j, b, states[i].view[b]);
    } else {
      LastNone(acts, i, b, states[i].view[b]);
    }
  }

  lemma LastNone(acts: seq<Act>, i: nat, b: nat, x: Block)
    requires i <= |acts|
    ensures Last(acts[i..i], b, x) == x
  {
  }

  /** So does a block while it is held. */
  lemma {:induction false} HeldStays(disk: Disk, states: seq<State>, acts: seq<Act>, i: nat, j: nat, b: nat)
    requires Trace(disk, states, acts) && i <= j <= |acts| && b < |disk|
    requires forall k :: i <= k < j ==> b in states[k].held
    ensures |states[i].view| == |states[j].view| == |disk|
    ensures states[j].view[b] == Last(acts[i..j], b, states[i].view[b])
    decreases j
  {
    hide Next, Last, DidAll;
    TraceLists(disk, states, acts, i);
    if i < j {
      HeldStays(disk, states, acts, i, j - 1, b);
      SafeStep(disk, states[j - 1], acts[j - 1], states[j], b);
      LastMore(acts, i, j, b, states[i].view[b]);
    } else {
      LastNone(acts, i, b, states[i].view[b]);
    }
  }

  /** Any block shows the last contents given to it, or what the disk has. */
  lemma {:induction false} LastOrDisk(disk: Disk, states: seq<State>, acts: seq<Act>, j: nat, b: nat)
    requires Trace(disk, states, acts) && j <= |acts| && b < |disk|
    ensures |states[0].view| == |states[j].view| == |disk|
    ensures states[j].view[b] == Last(acts[..j], b, states[0].view[b]) || states[j].view[b] == disk[b]
  {
    if j > 0 {
      LastOrDisk(disk, states, acts, j - 1, b);
      assert acts[..j][..j - 1] == acts[..j - 1];
      assert Next(disk, states[j - 1], acts[j - 1], states[j]);
      assert NextAt(disk, states[j - 1], acts[j - 1], states[j], b);
    }
  }

  /** Only listed blocks and blocks someone holds differ from the disk. */
  ghost predicate TidyState(disk: Disk, s: State) {
    |s.view| == |disk| && forall b: nat :: b < |disk| && Exposed(s, b) ==> s.view[b] == disk[b]
  }

  /** No act releases a change that is not listed. */
  ghost predicate AllTidy(disk: Disk, s: State, acts: seq<Act>)
    decreases |acts|
  {
    acts == []
    || (AllTidy(disk, s, acts[..|acts| - 1]) && Tidies(disk, DidAll(s, acts[..|acts| - 1]), acts[|acts| - 1]))
  }

  predicate Tidies(disk: Disk, s: State, a: Act) {
    a.DoRelease? ==> a.b in s.lh || (a.b < |s.view| && a.b < |disk| && s.view[a.b] == disk[a.b])
  }

  /** Operations that release no unlisted change lose nothing. */
  lemma {:induction false} NothingLost(l: Layout, disk: Disk, states: seq<State>, acts: seq<Act>)
    requires Trace(disk, states, acts) && TidyState(disk, states[0])
    requires AllTidy(disk, states[0], acts) && AllMay(l, |disk|, states[0], acts)
    ensures states[|acts|] == DidAll(states[0], acts) && TidyState(disk, states[|acts|])
  {
    if acts != [] {
      var n := |acts| - 1;
      forall j | 0 <= j < n ensures Next(disk, states[..n + 1][j], acts[..n][j], states[..n + 1][j + 1]) {
        assert Next(disk, states[j], acts[j], states[j + 1]);
      }
      NothingLost(l, disk, states[..n + 1], acts[..n]);
      assert Next(disk, states[n], acts[n], states[n + 1]);
      TidyStep(l, disk, states[n], acts[n], states[n + 1]);
    }
  }

  lemma TidyStep(l: Layout, disk: Disk, s: State, a: Act, s': State)
    requires TidyState(disk, s) && Tidies(disk, s, a) && Next(disk, s, a, s') && May(l, |disk|, s, a)
    ensures s' == Did(s, a) && TidyState(disk, s')
  {
    forall b: nat | b < |disk| ensures s'.view[b] == Did(s, a).view[b] {
      assert NextAt(disk, s, a, s', b);
    }
    assert s'.view == Did(s, a).view;
  }

  // ---------------------------------------------------------------- the log

  /** Block b of an area that begins at start has a buffer. */
  predicate InPlace(place: map<nat, int>, start: nat, b: nat) {
    start + b in place
  }

  class FsLog {
    const cache: Bcache
    const l: Layout
    var lh: seq<Word>

    /** The listed blocks are distinct home blocks, each pinned in the cache besides any reference of its holder. */
    ghost predicate Pinned()
      reads this, cache
    {
      && |lh| <= LOGSIZE && |lh| < l.size && NoRepeats(lh)
      && forall i :: 0 <= i < |lh| ==> PinnedAt(lh[i])
    }

    ghost predicate PinnedAt(b: nat)
      reads this, cache
    {
      && b < |cache.disk| && !InLog(l, b)
      && cache.Refs(b) >= if b in cache.HeldBlocks() then 2 else 1
    }

    /** Only listed blocks and blocks someone holds differ from the disk. */
    ghost predicate Tidy()
      reads this, cache
    {
      TidyState(cache.disk, Now())
    }

    /** Only listed blocks differ from the disk: no operation has a change in hand. */
    ghost predicate Quiet()
      reads this, cache
    {
      |cache.view| == |cache.disk| &&
      forall b: nat :: b < |cache.disk| && b !in lh ==> cache.view[b] == cache.disk[b]
    }

    /** Nobody holds a listed block or a block of the log. */
    ghost predicate Clear()
      reads this, cache
    {
      forall b :: b in cache.HeldBlocks() ==> b !in lh && !InLog(l, b)
    }

    /** Listed blocks are pinned, and the blocks of the log are as on disk; any other block may have lost a change. */
    ghost predicate Valid()
      reads this, cache
    {
      cache.Valid() && LogOk(l, cache.disk) && Pinned() && SlotsClean(l, cache.disk, cache.view)
    }

    /** The transaction gathered so far. */
    ghost function Pending(): Txn
      requires Pinned() && |cache.view| == |cache.disk|
      reads this, cache
    {
      Gather(lh, cache.view)
    }

    ghost function Now(): State
      reads this, cache
    {
      State(cache.view, lh, cache.HeldBlocks())
    }

    /** The references to block b that listing and holding account for. */
    ghost function Due(b: nat): nat
      reads this, cache
    {
      (if b in lh then 1 else 0) + (if b in cache.HeldBlocks() then 1 else 0)
    }

    /** The act cannot be done: there is no buffer for the block, or no room in the log. */
    ghost predicate Stuck(a: Act)
      reads this, cache
    {
      match a
      case DoRead(b) => b !in cache.place && cache.Unused() == {}
      case DoLog(b) => |lh| >= LOGSIZE || |lh| >= l.size - 1
      case _ => false
    }

    constructor (cache: Bcache, l: Layout)
      requires cache.Valid() && LogOk(l, cache.disk) && cache.view == cache.disk
      ensures Valid() && Tidy() && this.cache == cache && this.l == l && lh == []
    {
      this.cache, this.l, lh := cache, l, [];
    }

    /** If every buffer is referenced, then by the holders, the listing and these other blocks' references. */
    lemma Crowded(others: set<nat>)
      requires Valid() && cache.Unused() == {} && forall b: nat :: cache.Refs(b) > Due(b) ==> b in others
      ensures NBUF <= |others| + |lh| + |cache.HeldBlocks()|
    {
      hide Ring, Complete, LogOk, HeldIn;
      var held, listed := cache.HeldBlocks(), set b: nat | b in lh;
      forall i | 0 <= i < NBUF ensures cache.bufs[i].refcnt > 0 && cache.bufs[i].blockno in others + listed + held {
        assert i !in cache.Unused() && PlacedAt(cache.bufs[i], cache.place, i, |cache.disk|);
        assert cache.Refs(cache.bufs[i].blockno) > 0;
      }
      AllReferenced(cache.bufs, cache.place, |cache.disk|, others + listed + held);
      SetOfSeq(lh);
      UnionSize(others, listed, held);
    }

    /**
     log_write: list the block of a held buffer and pin it, unless it is listed
     already. The two panics are reported, with nothing changed.
     */
    method LogWrite(i: int, outstanding: int) returns (panic: bool)
      requires Valid() && i in cache.held && !InLog(l, cache.bufs[i].blockno)
      modifies this, cache
      ensures panic <==> |old(lh)| >= LOGSIZE || |old(lh)| >= l.size - 1 || outstanding < 1
      ensures panic ==> unchanged(this) && unchanged(cache)
      ensures !panic ==> Valid() && cache.bufs[i].blockno < |cache.disk|
      ensures !panic ==> lh == if old(cache.bufs[i].blockno in lh) then old(lh) else old(lh) + [cache.bufs[i].blockno]
      ensures !panic ==> cache.bufs == old(cache.bufs)[i := old(cache.bufs[i]).(refcnt := cache.bufs[i].refcnt)]
      ensures !panic ==> cache.bufs[i].refcnt >= 2 && cache.HeldBlocks() == old(cache.HeldBlocks())
      ensures cache.disk == old(cache.disk) && cache.view == old(cache.view) && cache.held == old(cache.held)
      ensures cache.writes == old(cache.writes)
      ensures forall b: nat :: cache.Refs(b) - Due(b) == old(cache.Refs(b) - Due(b))
    {
      hide Ring, Complete, Coherent, HeldIn, NoneLoose, LogOk, TidyState;
      if |lh| >= LOGSIZE || |lh| >= l.size - 1 {
        return true;
      }
      if outstanding < 1 {
        return true;
      }
      cache.HeldBlock(i);
      var b := cache.bufs[i].blockno;
      assert b in cache.HeldBlocks() by { HeldAt(cache.bufs, cache.held, i); }
      var k := FindListed(b);
      if k == |lh| {
        cache.Bpin(i);
        lh := lh + [b];
      } else {
        lh := lh[k := b];
        assert lh == old(lh);
      }
      panic := false;
    }

    // ---------------------------------------------------------------- what an operation does to blocks

    /** An operation reads a block that nobody holds; -1 exactly if there is no buffer for it. */
    method Read(b: nat) returns (i: int)
      requires Valid() && b < |cache.disk| && b !in cache.HeldBlocks()
      modifies cache
      ensures cache.disk == old(cache.disk) && cache.writes == old(cache.writes)
      ensures Valid() && |cache.view| == |old(cache.view)|
      ensures i < 0 <==> old(b !in cache.place && cache.Unused() == {})
      ensures i < 0 ==> unchanged(cache)
      ensures i >= 0 ==> cache.HeldBlocks() == old(cache.HeldBlocks()) + {b}
      ensures i >= 0 ==> i in cache.held && cache.bufs[i].blockno == b && cache.bufs[i].data == cache.view[b]
      ensures Slips(old(cache.view), cache.view, cache.disk)
      ensures forall c: nat :: c < |cache.view| && !old(Exposed(Now(), c)) ==> cache.view[c] == old(cache.view)[c]
      ensures forall c: nat :: cache.Refs(c) - Due(c) == old(cache.Refs(c) - Due(c))
    {
      hide Ring, Complete, Coherent, LogOk, HeldIn, NoneLoose, TidyState;
      forall c: nat | c < |cache.view| && !Exposed(Now(), c) ensures cache.Refs(c) > 0 {
        cache.HeldRefs(c);
        if c in lh {
          var k :| 0 <= k < |lh| && lh[k] == c;
          assert PinnedAt(lh[k]);
        }
      }
      i := cache.Bread(ROOTDEV, b);
      forall k | 0 <= k < |lh| ensures PinnedAt(lh[k]) {
        assert old(PinnedAt(lh[k]));
      }
    }

    /** The holder of a home block changes it. */
    method Change(i: int, data: Block)
      requires Valid() && i in cache.held && !InLog(l, cache.bufs[i].blockno)
      modifies cache
      ensures Valid() && cache.disk == old(cache.disk) && cache.writes == old(cache.writes)
      ensures cache.held == old(cache.held) && cache.HeldBlocks() == old(cache.HeldBlocks())
      ensures cache.bufs == old(cache.bufs)[i := old(cache.bufs[i]).(data := data)]
      ensures cache.bufs[i].blockno < |old(cache.view)| && cache.view == old(cache.view)[cache.bufs[i].blockno := data]
      ensures forall b: nat :: cache.Refs(b) == old(cache.Refs(b))
    {
      hide Ring, Complete, Coherent, LogOk, NoneLoose, HeldIn, TidyState;
      cache.Put(i, data);
      forall k | 0 <= k < |lh| ensures PinnedAt(lh[k]) {
        assert old(PinnedAt(lh[k]));
      }
    }

    /**
     The holder releases a block, whatever it has done to it: every listed block stays
     pinned. All changes stay safe exactly if this one is listed or is none; and a
     changed block that is not listed is lost when its buffer is next recycled exactly
     if this was the last reference.
     */
    method Release(i: int)
      requires Valid() && i in cache.held
      modifies cache
      ensures Valid() && cache.disk == old(cache.disk) && cache.view == old(cache.view)
      ensures cache.writes == old(cache.writes) && cache.held == old(cache.held) - {i}
      ensures cache.bufs == old(cache.bufs)[i := old(cache.bufs[i]).(refcnt := old(cache.bufs[i]).refcnt - 1)]
      ensures cache.bufs[i].blockno < |cache.disk| && |cache.view| == |cache.disk|
      ensures cache.HeldBlocks() == old(cache.HeldBlocks()) - {cache.bufs[i].blockno}
      ensures old(Tidy()) ==>
                (Tidy() <==>
                 cache.bufs[i].blockno in lh || cache.view[cache.bufs[i].blockno] == cache.disk[cache.bufs[i].blockno])
      ensures cache.Loose(cache.bufs[i].blockno)
              <==> cache.bufs[i].refcnt == 0 && cache.view[cache.bufs[i].blockno] != cache.disk[cache.bufs[i].blockno]
      ensures cache.Loose(cache.bufs[i].blockno) ==> cache.bufs[i].blockno !in lh
      ensures forall b: nat :: cache.Refs(b) - Due(b) == old(cache.Refs(b) - Due(b))
    {
      hide Ring, Complete, LogOk;
      ghost var b := cache.bufs[i].blockno;
      cache.HeldBlock(i);
      assert b in cache.HeldBlocks() by { HeldAt(cache.bufs, cache.held, i); }
      assert Shows(cache.bufs, cache.place, cache.disk, cache.view, b);
      hide Coherent, HeldIn, NoneLoose;
      cache.Brelse(i);
      forall k | 0 <= k < |lh| ensures PinnedAt(lh[k]) {
        assert old(PinnedAt(lh[k]));
      }
      assert b !in lh ==> Exposed(Now(), b);
    }

    /** Where the buffer of a held block is. */
    method HeldBuffer(b: nat) returns (i: int)
      requires Valid() && b in cache.HeldBlocks()
      ensures i in cache.held && cache.bufs[i].blockno == b
    {
      hide Ring, Complete, LogOk, NoneLoose;
      ghost var j :| j in cache.held && 0 <= j < |cache.bufs| && cache.bufs[j].blockno == b;
      cache.HeldBlock(j);
      i := cache.Find(ROOTDEV, b);
    }

    /** One act; it is done unless there is no buffer or no room in the log for it. */
    method Do(a: Act) returns (ok: bool)
      requires Valid() && May(l, |cache.disk|, Now(), a)
      modifies this, cache
      ensures Valid() && cache.disk == old(cache.disk) && cache.writes == old(cache.writes)
      ensures ok <==> !old(Stuck(a))
      ensures ok ==> Next(cache.disk, old(Now()), a, Now())
      ensures !ok ==> unchanged(this) && unchanged(cache)
      ensures forall b: nat :: cache.Refs(b) - Due(b) == old(cache.Refs(b) - Due(b))
    {
      hide Ring, Complete, Coherent, LogOk, HeldIn, NoneLoose, Pinned, TidyState;
      ok := true;
      match a
      case DoRead(b) =>
        var i := Read(b);
        ok := i >= 0;
      case DoChange(b, data) =>
        var i := HeldBuffer(b);
        Change(i, data);
      case DoLog(b) =>
        var i := HeldBuffer(b);
        var panic := LogWrite(i, 1);
        ok := !panic;
      case DoRelease(b) =>
        var i := HeldBuffer(b);
        Release(i);
    }

    /**
     Any run of acts by any operations, unlisted changes released among them. Every
     block they list stays pinned, and the states it goes through make a Trace; it
     stops early only at an act that is stuck.
     */
    method Run(acts: seq<Act>) returns (ok: bool, ghost states: seq<State>)
      requires Valid() && AllMay(l, |cache.disk|, Now(), acts)
      modifies this, cache
      ensures Valid() && cache.disk == old(cache.disk) && cache.writes == old(cache.writes)
      ensures 0 < |states| <= |acts| + 1 && Trace(cache.disk, states, acts[..|states| - 1])
      ensures states[0] == old(Now()) && states[|states| - 1] == Now()
      ensures ok <==> |states| == |acts| + 1
      ensures !ok ==> Stuck(acts[|states| - 1])
      ensures forall b: nat :: cache.Refs(b) - Due(b) == old(cache.Refs(b) - Due(b))
    {
      hide Ring, Complete, Coherent, LogOk, HeldIn, NoneLoose, Pinned, TidyState, Did, May, AllMay, DidAll, Next;
      ghost var s, n := Now(), |cache.disk|;
      states := [s];
      var i := 0;
      while i < |acts|
        invariant 0 <= i <= |acts| && |states| == i + 1 && Valid()
        invariant cache.disk == old(cache.disk) && cache.writes == old(cache.writes)
        invariant Trace(cache.disk, states, acts[..i]) && states[0] == s && states[i] == Now()
        invariant forall b: nat :: cache.Refs(b) - Due(b) == old(cache.Refs(b) - Due(b))
      {
        AllMayPrefix(l, n, s, acts, i);
        MayHere(l, cache.disk, states, acts, i);
        ok := Do(acts[i]);
        if !ok {
          return;
        }
        TraceMore(cache.disk, states, acts, i, Now());
        states := states + [Now()];
        i := i + 1;
      }
      assert acts[..i] == acts;
      ok := true;
    }

    /**
     A run of acts that ends with nothing held, and its commit. Whether or not the
     commit gets to the end, the disk stands for the blocks as they were or for those
     with every listed block as the run left it. It gets to the end unless the run is
     stuck or every buffer is referenced; `others` has the blocks that have references
     besides those of the log and of holders.
     */
    method RunAndCommit(acts: seq<Act>, ghost others: set<nat>) returns (ok: bool, ghost states: seq<State>)
      requires Valid() && Empty(l, cache.disk) && AllMay(l, |cache.disk|, Now(), acts)
      requires DidAll(Now(), acts).held == {}
      requires forall b: nat :: cache.Refs(b) > Due(b) ==> b in others
      modifies this, cache
      ensures 0 < |states| <= |acts| + 1 && Trace(old(cache.disk), states, acts[..|states| - 1])
      ensures states[0] == old(Now()) && Within(states[|states| - 1])
      ensures StandsFor(l, cache.disk, Home(l, old(cache.disk)))
              || (|states| == |acts| + 1
                  && StandsFor(l, cache.disk, Effect(Home(l, old(cache.disk)), Listing(states[|acts|]))))
      ensures ok ==> |states| == |acts| + 1 && Valid() && Empty(l, cache.disk) && lh == [] && cache.HeldBlocks() == {}
      ensures ok ==> forall b: nat :: cache.Refs(b) > Due(b) ==> b in others
      ensures ok ==> Home(l, cache.disk) == Effect(Home(l, old(cache.disk)), Listing(states[|acts|]))
      ensures |states| == |acts| + 1 && |others| + |states[|acts|].lh| < NBUF ==> ok
      ensures |states| <= |acts| ==> Blocked(l, states[|states| - 1], acts[|states| - 1], others)
    {
      hide Ring, Complete, Coherent, LogOk, HeldIn, NoneLoose, DidAll, AllMay, Recovered, Effect, CommitWrites, Apply,
          Home, WordAt, Next, TidyState;
      EmptyRecovered(l, cache.disk);
      ok, states := Run(acts);
      if cache.Unused() == {} {
        Crowded(others);
      }
      assert states[|states| - 1] == Now();
      if ok {
        assert acts[..|acts|] == acts;
        TraceLists(cache.disk, states, acts, |acts|);
        ghost var k;
        ok, k := Commit();
      }
    }

    method FindListed(b: nat) returns (k: nat)
      ensures k <= |lh| && (k < |lh| ==> lh[k] == b) && (k == |lh| ==> b !in lh)
    {
      k := 0;
      while k < |lh| && lh[k] != b
        invariant 0 <= k <= |lh| && b !in lh[..k]
      {
        k := k + 1;
      }
    }

    /** Two blocks read and held, the first one first. */
    method ReadPair(a: nat, b: nat) returns (i: int, j: int)
      requires cache.Valid() && a != b && a < |cache.disk| && b < |cache.disk|
      requires a !in cache.HeldBlocks() && b !in cache.HeldBlocks()
      modifies cache
      ensures cache.disk == old(cache.disk) && cache.writes == old(cache.writes) && i >= -1 && j >= -1
      ensures i == -1 ==> j == -1 && unchanged(cache)
      ensures i == -1 <==> old(a !in cache.place && cache.Unused() == {})
      ensures old(b in cache.place && cache.Refs(b) > 0) ==> (j == -1 <==> i == -1)
      ensures i >= 0 && j == -1 ==> old(cache.Unused()) - {i} == {}
      ensures i >= 0 && j >= 0 ==> PairHeld(a, b, i, j)
      ensures i >= 0 && j >= 0 && old(a in cache.place && b in cache.place && cache.Refs(b) > 0) ==>
                cache.place == old(cache.place)
    {
      hide Ring, Complete, HeldIn, LooseIn, NoneLoose, Coherent;
      j := -1;
      i := cache.Bread(ROOTDEV, a);
      if i == -1 {
        return;
      }
      j := cache.Bread(ROOTDEV, b);
    }

    /** What reading two blocks does to the cache. */
    twostate predicate PairHeld(a: nat, b: nat, i: int, j: int)
      reads this, cache
    {
      && cache.Valid() && i != j && i !in old(cache.held) && j !in old(cache.held)
      && 0 <= i < |cache.bufs| && 0 <= j < |cache.bufs| && a < |cache.view| && b < |cache.view|
      && cache.held == old(cache.held) + {i, j} && cache.HeldBlocks() == old(cache.HeldBlocks()) + {a, b}
      && SameBufs(old(cache.bufs), cache.bufs, old(cache.held))
      && cache.bufs[i] == Buf(ROOTDEV, a, true, old(cache.Refs(a)) + 1, cache.view[a])
      && cache.bufs[j] == Buf(ROOTDEV, b, true, old(cache.Refs(b)) + 1, cache.view[b])
      && (forall c: nat :: cache.Refs(c) == old(cache.Refs(c)) + (if c == a || c == b then 1 else 0))
      && cache.Unused() == old(cache.Unused()) - {i, j}
      && (i in old(cache.Unused()) <==> old(cache.Refs(a)) == 0)
      && (j in old(cache.Unused()) <==> old(cache.Refs(b)) == 0)
      && Slips(old(cache.view), cache.view, cache.disk)
      && (forall c: nat :: c < |cache.view| && old(cache.Refs(c)) > 0 ==> cache.view[c] == old(cache.view)[c])
    }

    /** Block `to` has been written, on disk and in the cache; blocks with references show what they did. */
    twostate predicate Wrote(to: nat, data: Block)
      reads this, cache
    {
      && cache.Valid() && cache.Kept() && to < |old(cache.view)| == |old(cache.disk)|
      && cache.disk == old(cache.disk)[to := data] && cache.writes == old(cache.writes) + [Write(to, data)]
      && Slips(old(cache.view)[to := data], cache.view, cache.disk)
      && forall b: nat :: b < |cache.view| && b != to && old(cache.Refs(b)) > 0 ==> cache.view[b] == old(cache.view)[b]
    }

    /** The buffers that can be had are those that could, or more; and if none, each block is where it was. */
    twostate predicate Stocked()
      reads this, cache
    {
      old(cache.Unused()) <= cache.Unused() && (cache.Unused() == {} ==> cache.place == old(cache.place))
    }

    /** One turn of write_log: the cached block goes to its log slot. */
    method WriteSlot(tail: nat) returns (ok: bool)
      requires cache.Valid() && Clear() && tail < |lh| && lh[tail] < |cache.disk| && !InLog(l, lh[tail])
      requires l.start + 1 + tail < l.start + l.size <= |cache.disk| && cache.Refs(lh[tail]) >= 1
      modifies cache
      ensures ok <==> old(InPlace(cache.place, l.start, tail + 1) || cache.Unused() != {})
      ensures !ok ==> unchanged(cache)
      ensures ok ==> lh[tail] < |old(cache.view)| && Wrote(l.start + 1 + tail, old(cache.view)[lh[tail]])
      ensures ok ==> Stocked() && cache.Unused() == old(cache.Unused())
      ensures ok ==> forall b: nat :: cache.Refs(b) == old(cache.Refs(b))
    {
      hide Ring, Complete, Coherent, HeldIn, NoneLoose, LooseIn, UnusedIn, Bcache.Valid;
      cache.Sizes();
      var slot, home: nat := l.start + 1 + tail, lh[tail];
      ghost var data := cache.view[home];
      cache.PlaceOf(home);
      var to, from := ReadPair(slot, home);
      if to == -1 || from == -1 {
        return false;
      }
      Overwrite(to, cache.bufs[from].data);
      ReleasePair(from, to, true);
      return true;
    }

    /** write_log: copy the listed blocks from the cache to the log. */
    method WriteLog() returns (ok: bool, ghost k: nat)
      requires cache.Valid() && Clear() && Listed(l, lh, |cache.disk|)
      requires SlotsClean(l, cache.disk, cache.view) && forall i :: 0 <= i < |lh| ==> cache.Refs(lh[i]) >= 1
      modifies cache
      ensures k <= |lh| && cache.writes == old(cache.writes) + LogWrites(l, Gather(lh, old(cache.view)).data)[..k]
      ensures cache.disk == Apply(old(cache.disk), LogWrites(l, Gather(lh, old(cache.view)).data)[..k])
      ensures ok <==> old(cache.Unused() != {} || forall j :: 1 <= j <= |lh| ==> InPlace(cache.place, l.start, j))
      ensures ok ==> k == |lh| && cache.Valid() && cache.Kept() && Stocked() && cache.Unused() == old(cache.Unused())
      ensures ok ==> forall b: nat :: cache.Refs(b) == old(cache.Refs(b))
      ensures ok ==> Near(l, lh, cache.HeldBlocks(), cache.disk,
                          Apply(old(cache.view), LogWrites(l, Gather(lh, old(cache.view)).data)), cache.view)
    {
      hide Ring, Complete, Coherent, HeldIn, NoneLoose, Apply, LogWrites, Gather, Near, Slips;
      ghost var data, d0, v0, w0 := Gather(lh, cache.view).data, cache.disk, cache.view, cache.writes;
      ghost var ws := LogWrites(l, data);
      ApplyNone(d0, ws);
      ApplyNone(v0, ws);
      NearSelf(l, lh, cache.HeldBlocks(), d0, v0);
      var tail := 0;
      k := 0;
      while tail < |lh|
        invariant 0 <= tail == k <= |lh|
        invariant cache.Valid() && cache.Kept() && Stocked() && cache.Unused() == old(cache.Unused())
        invariant cache.writes == w0 + ws[..k] && cache.disk == Apply(d0, ws[..k])
        invariant Near(l, lh, cache.HeldBlocks(), cache.disk, Apply(v0, ws[..k]), cache.view)
        invariant forall b: nat :: cache.Refs(b) == old(cache.Refs(b))
        invariant cache.Unused() != {} || forall j :: 1 <= j <= tail ==> InPlace(old(cache.place), l.start, j)
      {
        ok := WriteRound(tail, d0, v0, data, w0);
        if !ok {
          assert !InPlace(old(cache.place), l.start, tail + 1);
          return;
        }
        tail, k := tail + 1, k + 1;
      }
      assert ws[..k] == ws;
      ok := true;
    }

    /** The k-th turn of the loop, after k writes. */
    method WriteRound(k: nat, ghost d0: Disk, ghost v0: Disk, ghost data: seq<Block>, ghost w0: seq<Write>)
      returns (ok: bool)
      requires cache.Valid() && Clear() && Listed(l, lh, |d0|) && SlotsClean(l, d0, v0) && k < |lh| == |data|
      requires forall i :: 0 <= i < |lh| ==> data[i] == v0[lh[i]] && cache.Refs(lh[i]) >= 1
      requires cache.writes == w0 + LogWrites(l, data)[..k] && cache.disk == Apply(d0, LogWrites(l, data)[..k])
      requires Near(l, lh, cache.HeldBlocks(), cache.disk, Apply(v0, LogWrites(l, data)[..k]), cache.view)
      modifies cache
      ensures ok <==> old(InPlace(cache.place, l.start, k + 1) || cache.Unused() != {})
      ensures !ok ==> unchanged(cache)
      ensures ok ==> cache.writes == w0 + LogWrites(l, data)[..k + 1]
      ensures ok ==> cache.disk == Apply(d0, LogWrites(l, data)[..k + 1])
      ensures ok ==> Near(l, lh, cache.HeldBlocks(), cache.disk, Apply(v0, LogWrites(l, data)[..k + 1]), cache.view)
      ensures ok ==> cache.Valid() && cache.Kept() && Stocked() && cache.Unused() == old(cache.Unused())
      ensures ok ==> forall b: nat :: cache.Refs(b) == old(cache.Refs(b))
    {
      hide Ring, Complete, Coherent, HeldIn, NoneLoose, Apply, LogWrites, Near, Slips;
      ghost var ws, d1, v1 := LogWrites(l, data), cache.disk, cache.view;
      SlotsOnly(l, data, k, d0, v0, lh[k]);
      NearListed(l, lh, cache.HeldBlocks(), cache.disk, Apply(v0, ws[..k]), cache.view, lh[k]);
      CleanHere(l, lh, cache.HeldBlocks(), d0, v0, ws, k, v1);
      AllDear();
      ok := WriteSlot(k);
      if ok {
        ApplyNext(d0, v0, ws, k);
        SnocSlice(w0, ws, k);
        NearStep(l, lh, cache.HeldBlocks(), d1, cache.disk, Apply(v0, ws[..k]), v1, cache.view, l.start + 1 + k,
                 data[k]);
      }
    }

    /** Every listed block and every held block has a reference. */
    lemma AllDear()
      requires cache.Valid() && forall i :: 0 <= i < |lh| ==> cache.Refs(lh[i]) >= 1
      ensures forall b: nat :: b in lh || b in cache.HeldBlocks() ==> cache.Refs(b) > 0
    {
      hide Ring, Complete, Coherent, HeldIn;
      forall b: nat | b in lh || b in cache.HeldBlocks() ensures cache.Refs(b) > 0 {
        cache.HeldRefs(b);
        if b in lh {
          var k :| 0 <= k < |lh| && lh[k] == b;
        }
      }
    }

    /** write_head: overwrite the count and the entries of the header block. */
    method WriteHead() returns (ok: bool)
      requires cache.Valid() && Clear() && |lh| <= LOGSIZE && l.size > 0
      requires l.start < |cache.disk| && cache.view[l.start] == cache.disk[l.start]
      modifies cache
      ensures ok <==> old(InPlace(cache.place, l.start, 0) || cache.Unused() != {})
      ensures !ok ==> unchanged(cache)
      ensures ok ==> Wrote(l.start, PutHeader(old(cache.disk)[l.start], lh))
      ensures ok ==> Stocked() && cache.Unused() == old(cache.Unused())
      ensures ok ==> forall b: nat :: cache.Refs(b) == old(cache.Refs(b))
    {
      hide Ring, Complete, Coherent, HeldIn, NoneLoose, LooseIn, Bcache.Valid, Slips, PutHeader;
      cache.Sizes();
      var i := cache.Bread(ROOTDEV, l.start);
      if i == -1 {
        return false;
      }
      SlipsAt(old(cache.view), cache.view, cache.disk, l.start);
      var hb := FillHeader(cache.bufs[i].data);
      SlipsPut(old(cache.view), cache.view, cache.disk, l.start, hb);
      Overwrite(i, hb);
      cache.Brelse(i);
      cache.Sizes();
      return true;
    }

    method FillHeader(b: Block) returns (hb: Block)
      requires |lh| <= LOGSIZE
      ensures hb == PutHeader(b, lh)
    {
      hide WordAt, PutWord;
      hb := PutWord(b, 0, |lh|);
      var i := 0;
      while i < |lh|
        invariant 0 <= i <= |lh| && hb == PutEntries(PutWord(b, 0, |lh|), lh[..i])
      {
        assert lh[..i + 1][..i] == lh[..i];
        hb := PutWord(hb, i + 1, lh[i]);
        i := i + 1;
      }
      assert lh[..i] == lh;
    }

    /** read_head: the list is what the header on disk says. */
    method ReadHead() returns (ok: bool)
      requires cache.Valid() && cache.held == {} && LogOk(l, cache.disk) && cache.view == cache.disk
      modifies this, cache
      ensures cache.disk == old(cache.disk) && cache.writes == old(cache.writes) && cache.view == old(cache.view)
      ensures ok <==> old(InPlace(cache.place, l.start, 0) || cache.Unused() != {})
      ensures ok ==> lh == Logged(l, cache.disk) && cache.Unused() == old(cache.Unused())
      ensures ok ==> cache.Valid() && cache.Kept() && forall b: nat :: cache.Refs(b) == old(cache.Refs(b))
    {
      hide Ring, Complete, Coherent, NoneLoose, WordAt;
      var i := cache.Bread(ROOTDEV, l.start);
      if i == -1 {
        return false;
      }
      assert cache.view == old(cache.view);
      var head := cache.bufs[i].data;
      var n := WordAt(head, 0);
      var bs: seq<Word> := [];
      while |bs| < n
        invariant |bs| <= n <= LOGSIZE && bs == Logged(l, cache.disk)[..|bs|]
        decreases n - |bs|
      {
        bs := bs + [WordAt(head, |bs| + 1)];
      }
      lh := bs;
      cache.Brelse(i);
      return true;
    }

    /** One turn of install_trans: the log slot goes to the block's home. */
    method InstallSlot(tail: nat, recovering: bool) returns (ok: bool)
      requires cache.Valid() && Clear() && tail < |lh| && lh[tail] < |cache.disk| && !InLog(l, lh[tail])
      requires l.start + 1 + tail < l.start + l.size <= |cache.disk|
      requires cache.view[l.start + 1 + tail] == cache.disk[l.start + 1 + tail]
      requires !recovering ==> cache.Refs(lh[tail]) >= 1
      modifies cache
      ensures !recovering ==> (ok <==> old(InPlace(cache.place, l.start, tail + 1) || cache.Unused() != {}))
      ensures |old(cache.Unused())| >= 2 ==> ok
      ensures !ok ==> cache.disk == old(cache.disk) && cache.writes == old(cache.writes)
      ensures ok ==> Wrote(lh[tail], old(cache.disk)[l.start + 1 + tail])
      ensures ok && !recovering ==> Stocked()
      ensures ok && recovering ==> cache.Unused() == old(cache.Unused())
      ensures ok ==> forall b: nat ::
                cache.Refs(b) == old(cache.Refs(b)) - (if !recovering && b == lh[tail] then 1 else 0)
    {
      hide Ring, Complete, Coherent, HeldIn, NoneLoose, LooseIn, UnusedIn, Bcache.Valid, Slips, SameBufs;
      cache.Sizes();
      var slot, home: nat := l.start + 1 + tail, lh[tail];
      ghost var data := cache.view[slot];
      cache.PlaceOf(home);
      var lbuf, dbuf := ReadPair(slot, home);
      if lbuf == -1 || dbuf == -1 {
        if lbuf >= 0 {
          AtMostOne(old(cache.Unused()), lbuf);
        }
        return false;
      }
      SlipsAt(old(cache.view), cache.view, cache.disk, slot);
      SlipsPut(old(cache.view), cache.view, cache.disk, home, data);
      ghost var bufs1 := cache.bufs;
      Overwrite(dbuf, cache.bufs[lbuf].data);
      ghost var bufs2 := cache.bufs;
      ReleasePair(lbuf, dbuf, recovering);
      SameThrice(old(cache.bufs), bufs1, bufs2, cache.bufs, cache.held);
      return true;
    }

    /** A held buffer is filled and written. */
    method Overwrite(to: int, data: Block)
      requires cache.Valid() && to in cache.held
      modifies cache
      ensures cache.Valid() && cache.held == old(cache.held) && cache.HeldBlocks() == old(cache.HeldBlocks())
      ensures cache.bufs == old(cache.bufs)[to := old(cache.bufs[to]).(data := data)]
      ensures cache.place == old(cache.place) && cache.Unused() == old(cache.Unused())
      ensures cache.bufs[to].blockno < |old(cache.disk)| && cache.bufs[to].blockno < |old(cache.view)|
      ensures cache.disk == old(cache.disk)[cache.bufs[to].blockno := data]
      ensures cache.view == old(cache.view)[cache.bufs[to].blockno := data]
      ensures cache.writes == old(cache.writes) + [Write(cache.bufs[to].blockno, data)]
      ensures forall b: nat :: cache.Refs(b) == old(cache.Refs(b))
    {
      hide Ring, Complete, Coherent, HeldIn, NoneLoose, LooseIn, UnusedIn;
      cache.Put(to, data);
      cache.Bwrite(to);
    }

    method ReleasePair(lbuf: int, dbuf: int, recovering: bool)
      requires cache.Valid() && lbuf in cache.held && dbuf in cache.held && lbuf != dbuf
      requires cache.bufs[lbuf].blockno != cache.bufs[dbuf].blockno
      requires !recovering ==> cache.bufs[dbuf].refcnt >= 2
      modifies cache
      ensures cache.Valid() && cache.held == old(cache.held) - {lbuf, dbuf} && cache.place == old(cache.place)
      ensures cache.HeldBlocks()
           == old(cache.HeldBlocks()) - {old(cache.bufs[lbuf].blockno), old(cache.bufs[dbuf].blockno)}
      ensures SameBufs(old(cache.bufs), cache.bufs, cache.held)
      ensures cache.disk == old(cache.disk) && cache.view == old(cache.view) && cache.writes == old(cache.writes)
      ensures cache.Unused() == old(cache.Unused())
                + (if old(cache.bufs[lbuf].refcnt) == 1 then {lbuf} else {})
                + (if old(cache.bufs[dbuf].refcnt) == (if recovering then 1 else 2) then {dbuf} else {})
      ensures forall b: nat :: cache.Refs(b) == old(cache.Refs(b))
                - (if b == old(cache.bufs[lbuf].blockno) then 1 else 0)
                - (if b == old(cache.bufs[dbuf].blockno) then (if recovering then 1 else 2) else 0)
    {
      hide Ring, Complete, Coherent, HeldIn, NoneLoose, LooseIn, UnusedIn;
      if !recovering {
        cache.Bunpin(dbuf);
      }
      cache.Brelse(lbuf);
      cache.Brelse(dbuf);
    }

    /** install_trans: copy the log slots to their homes, unpinning each unless recovering. */
    method InstallTrans(recovering: bool) returns (ok: bool, ghost k: nat)
      requires cache.Valid() && Clear() && Listed(l, lh, |cache.disk|)
      requires SlotsClean(l, cache.disk, cache.view)
      requires !recovering ==> NoRepeats(lh) && forall i :: 0 <= i < |lh| ==> cache.Refs(lh[i]) >= 1
      requires recovering ==> cache.view == cache.disk
      modifies cache
      ensures k <= |lh| && cache.writes == old(cache.writes) + Installs(lh, Slots(l, old(cache.disk), |lh|))[..k]
      ensures cache.disk == Apply(old(cache.disk), Installs(lh, Slots(l, old(cache.disk), |lh|))[..k])
      ensures !recovering ==>
                old(cache.Unused() != {} || forall j :: 1 <= j <= |lh| ==> InPlace(cache.place, l.start, j)) ==> ok
      ensures |old(cache.Unused())| >= 2 ==> ok
      ensures ok ==> k == |lh| && cache.Valid() && cache.Kept() && (recovering || Stocked())
      ensures ok && recovering ==> cache.view == cache.disk && cache.Unused() == old(cache.Unused())
      ensures ok ==> Near(l, lh, cache.HeldBlocks(), cache.disk,
                          Apply(old(cache.view), Installs(lh, Slots(l, old(cache.disk), |lh|))), cache.view)
      ensures ok ==> forall b: nat :: cache.Refs(b) == old(cache.Refs(b)) - (if !recovering && b in lh then 1 else 0)
    {
      hide Ring, Complete, Coherent, HeldIn, NoneLoose, Apply, Installs, Near, Slips, Slots;
      ghost var data, d0, v0, w0 := Slots(l, cache.disk, |lh|), cache.disk, cache.view, cache.writes;
      ghost var ws := Installs(lh, data);
      ApplyNone(d0, ws);
      ApplyNone(v0, ws);
      NearSelf(l, lh, cache.HeldBlocks(), d0, v0);
      var tail := 0;
      k := 0;
      while tail < |lh|
        invariant 0 <= tail == k <= |lh| && lh == old(lh)
        invariant cache.Valid() && cache.Kept()
        invariant if recovering then cache.Unused() == old(cache.Unused()) else Stocked()
        invariant recovering ==> cache.view == cache.disk
        invariant cache.writes == w0 + ws[..k] && cache.disk == Apply(d0, ws[..k])
        invariant Near(l, lh, cache.HeldBlocks(), cache.disk, Apply(v0, ws[..k]), cache.view)
        invariant forall b: nat :: cache.Refs(b) == old(cache.Refs(b)) - (if !recovering && b in lh[..k] then 1 else 0)
      {
        ok := InstallRound(tail, recovering, d0, v0, data, w0);
        if !ok {
          assert !recovering ==> !InPlace(old(cache.place), l.start, tail + 1);
          return;
        }
        assert lh[..k + 1] == lh[..k] + [lh[k]];
        assert !recovering ==> lh[k] !in lh[..k];
        tail, k := tail + 1, k + 1;
      }
      assert ws[..k] == ws && lh[..k] == lh;
      ok := true;
    }

    /** The k-th turn of the loop, after k writes. */
    method InstallRound(k: nat, recovering: bool, ghost d0: Disk, ghost v0: Disk, ghost data: seq<Block>,
                        ghost w0: seq<Write>) returns (ok: bool)
      requires cache.Valid() && Clear() && Listed(l, lh, |d0|) && SlotsClean(l, d0, v0) && k < |lh| == |data|
      requires l.start + |lh| < |d0| && data == Slots(l, d0, |lh|)
      requires cache.writes == w0 + Installs(lh, data)[..k] && cache.disk == Apply(d0, Installs(lh, data)[..k])
      requires Near(l, lh, cache.HeldBlocks(), cache.disk, Apply(v0, Installs(lh, data)[..k]), cache.view)
      requires !recovering ==> forall i :: k <= i < |lh| ==> cache.Refs(lh[i]) >= 1
      requires recovering ==> cache.view == cache.disk
      modifies cache
      ensures !recovering ==> (ok <==> old(InPlace(cache.place, l.start, k + 1) || cache.Unused() != {}))
      ensures |old(cache.Unused())| >= 2 ==> ok
      ensures !ok ==> cache.disk == old(cache.disk) && cache.writes == old(cache.writes)
      ensures ok ==> cache.writes == w0 + Installs(lh, data)[..k + 1]
      ensures ok ==> cache.disk == Apply(d0, Installs(lh, data)[..k + 1])
      ensures ok ==> Near(l, lh, cache.HeldBlocks(), cache.disk, Apply(v0, Installs(lh, data)[..k + 1]), cache.view)
      ensures ok ==> cache.Valid() && cache.Kept() && (recovering || Stocked())
      ensures ok && recovering ==> cache.view == cache.disk && cache.Unused() == old(cache.Unused())
      ensures ok ==> forall b: nat :: cache.Refs(b) == old(cache.Refs(b)) - (if !recovering && b == lh[k] then 1 else 0)
    {
      hide Ring, Complete, Coherent, HeldIn, NoneLoose, Apply, Installs, Near, Slips, Slots;
      ghost var ws, d1, v1 := Installs(lh, data), cache.disk, cache.view;
      HomesOnly(l, lh, data, k, d0, v0);
      CleanHere(l, lh, cache.HeldBlocks(), d0, v0, ws, k, v1);
      InstalledHere(l, lh, data, cache.HeldBlocks(), d0, v0, k, v1);
      HeldDear();
      ok := InstallSlot(k, recovering);
      if ok {
        ApplyNext(d0, v0, ws, k);
        SnocSlice(w0, ws, k);
        assert forall b: nat :: b < |v1| && b != lh[k] && Dear(l, lh, cache.HeldBlocks(), b) ==>
            cache.view[b] == v1[b] || v1[b] == d1[b];
        NearStep(l, lh, cache.HeldBlocks(), d1, cache.disk, Apply(v0, ws[..k]), v1, cache.view, lh[k], data[k]);
        if recovering {
          SlipsNowhere(v1, cache.view, cache.disk, lh[k], data[k]);
        }
      }
    }

    lemma HeldDear()
      requires cache.Valid()
      ensures forall b: nat :: b in cache.HeldBlocks() ==> cache.Refs(b) > 0
    {
      hide Ring, Complete, Coherent, HeldIn;
      forall b: nat | b in cache.HeldBlocks() ensures cache.Refs(b) > 0 {
        cache.HeldRefs(b);
      }
    }

    /** There is a buffer to be had, or the blocks of the log that a commit is to write have theirs. */
    ghost predicate Able()
      reads this, cache
    {
      lh == [] || cache.Unused() != {} || forall j :: 0 <= j <= |lh| ==> InPlace(cache.place, l.start, j)
    }

    /**
     commit: of all the block writes it is to make, it makes the first k, and all
     of them if it is able; otherwise the kernel panics. The disk then stands for the
     transaction done or not done, as k says. A change that is not listed may be in
     the cache all the while: it is left there, or lost.
     */
    method Commit() returns (ok: bool, ghost k: nat)
      requires Valid() && Clear() && Empty(l, cache.disk)
      modifies this, cache
      ensures ok <==> old(Able())
      ensures k <= |CommitWrites(l, old(cache.disk)[l.start], old(Pending()))|
      ensures cache.writes == old(cache.writes) + CommitWrites(l, old(cache.disk)[l.start], old(Pending()))[..k]
      ensures cache.disk == Apply(old(cache.disk), CommitWrites(l, old(cache.disk)[l.start], old(Pending()))[..k])
      ensures StandsFor(l, cache.disk, if k > |old(lh)| then Effect(Recovered(l, old(cache.disk)), old(Pending()))
                                       else Recovered(l, old(cache.disk)))
      ensures ok ==> k == |CommitWrites(l, old(cache.disk)[l.start], old(Pending()))|
      ensures ok ==> Valid() && lh == [] && cache.Kept() && Empty(l, cache.disk)
      ensures ok ==> Home(l, cache.disk) == Effect(Recovered(l, old(cache.disk)), old(Pending()))
      ensures ok ==> |cache.view| == |cache.disk| == |old(cache.view)|
      ensures ok ==> forall b: nat :: b < |cache.disk| ==>
                Settled(l, old(lh), cache.HeldBlocks(), cache.disk, old(cache.view), cache.view, b)
      ensures ok ==> forall b: nat :: cache.Refs(b) == old(cache.Refs(b)) - (if b in old(lh) then 1 else 0)
      ensures ok && old(Quiet()) ==> cache.view == cache.disk && Home(l, cache.view) == Home(l, old(cache.view))
    {
      hide Ring, Complete, Coherent, HeldIn, NoneLoose, Apply, CommitWrites, WordAt, Recovered, Gather, Near, Slips,
          Effect, LogOk, Home, Settled;
      ghost var plan := Plan(l, cache.disk, cache.view, cache.writes, Pending());
      PendingOk(l, lh, cache.disk, cache.view);
      assert PlanOk(plan);
      StartPlan(plan, cache.HeldBlocks());
      k := 0;
      if |lh| > 0 {
        ok, k := StageLog(plan);
        if ok {
          ok, k := StageHead(plan);
        }
        if ok {
          ok, k := StageInstall(plan);
        }
        if ok {
          lh := [];
          ok, k := StageErase(plan);
        }
        CrashInCommit(l, plan.disk, plan.t, k);
        if ok {
          CommitDone(plan);
          CommitLeaves(plan, cache.HeldBlocks(), cache.view);
        }
      } else {
        CrashInCommit(l, plan.disk, plan.t, k);
        NothingToDo(plan, cache.HeldBlocks());
        ok := true;
      }
    }

    method StageLog(ghost plan: Plan) returns (ok: bool, ghost k: nat)
      requires PlanOk(plan) && plan.l == l && plan.t.blocks == lh != [] && plan.t == Gather(lh, plan.view)
      requires cache.Valid() && Clear() && cache.view == plan.view && Made(plan, 0, cache.disk, cache.writes)
      requires forall i :: 0 <= i < |lh| ==> cache.Refs(lh[i]) >= 1
      modifies cache
      ensures k <= |lh| && Made(plan, k, cache.disk, cache.writes)
      ensures ok <==> old(cache.Unused() != {} || forall j :: 1 <= j <= |lh| ==> InPlace(cache.place, l.start, j))
      ensures ok ==> k == |lh| && Reached(plan, k, cache.HeldBlocks(), cache.disk, cache.view, cache.writes)
      ensures ok ==> cache.Valid() && cache.Kept() && Stocked() && cache.Unused() == old(cache.Unused())
      ensures ok ==> forall b: nat :: cache.Refs(b) == old(cache.Refs(b))
    {
      hide Ring, Complete, Coherent, HeldIn, NoneLoose, Apply, CommitWrites, LogWrites, Gather, Near;
      StartPlan(plan, cache.HeldBlocks());
      CommitStages(l, plan.disk[l.start], plan.t);
      ok, k := WriteLog();
      CommitStart(l, plan.disk[l.start], plan.t, k);
    }

    method StageHead(ghost plan: Plan) returns (ok: bool, ghost k: nat)
      requires PlanOk(plan) && plan.l == l && plan.t.blocks == lh != []
      requires cache.Valid() && Clear()
      requires Reached(plan, |lh|, cache.HeldBlocks(), cache.disk, cache.view, cache.writes)
      requires forall i :: 0 <= i < |lh| ==> cache.Refs(lh[i]) >= 1
      modifies cache
      ensures Made(plan, k, cache.disk, cache.writes) && k == if ok then |lh| + 1 else |lh|
      ensures ok <==> old(InPlace(cache.place, l.start, 0) || cache.Unused() != {})
      ensures ok ==> Reached(plan, k, cache.HeldBlocks(), cache.disk, cache.view, cache.writes)
      ensures ok ==> cache.Valid() && cache.Kept() && Stocked() && cache.Unused() == old(cache.Unused())
      ensures ok ==> forall b: nat :: cache.Refs(b) == old(cache.Refs(b))
    {
      hide Ring, Complete, Coherent, HeldIn, NoneLoose, Apply, CommitWrites, LogWrites, HeadWrite, Near, Slips,
          PutHeader;
      ghost var n, held, d1, v1 := |lh|, cache.HeldBlocks(), cache.disk, cache.view;
      CommitStages(l, plan.disk[l.start], plan.t);
      PlanHeads(plan, n, held, v1);
      AllDear();
      k := n;
      ok := WriteHead();
      if ok {
        PlanNext(plan, n, held, d1, v1, cache.disk, cache.view, cache.writes);
        k := n + 1;
      }
    }

    method StageInstall(ghost plan: Plan) returns (ok: bool, ghost k: nat)
      requires PlanOk(plan) && plan.l == l && plan.t.blocks == lh != [] && NoRepeats(lh)
      requires cache.Valid() && Clear()
      requires Reached(plan, |lh| + 1, cache.HeldBlocks(), cache.disk, cache.view, cache.writes)
      requires forall i :: 0 <= i < |lh| ==> cache.Refs(lh[i]) >= 1
      modifies cache
      ensures |lh| < k <= 2 * |lh| + 1 && Made(plan, k, cache.disk, cache.writes)
      ensures old(cache.Unused() != {} || forall j :: 1 <= j <= |lh| ==> InPlace(cache.place, l.start, j)) ==> ok
      ensures ok ==> k == 2 * |lh| + 1 && Reached(plan, k, cache.HeldBlocks(), cache.disk, cache.view, cache.writes)
      ensures ok ==> cache.Valid() && cache.Kept() && Stocked()
      ensures ok ==> forall b: nat :: cache.Refs(b) == old(cache.Refs(b)) - (if b in lh then 1 else 0)
    {
      hide Ring, Complete, Coherent, HeldIn, NoneLoose, Apply, CommitWrites, LogWrites, HeadWrite, Installs,
          Recovered, LogOk, WordAt, Slots, Near, Bcache.Valid;
      ghost var n, d1, v1, w1 := |lh|, cache.disk, cache.view, cache.writes;
      HeadReached(plan, cache.HeldBlocks(), d1, v1, w1);
      ghost var k1;
      ok, k1 := InstallTrans(false);
      k := n + 1 + k1;
      InstallsMade(plan, k1, d1, w1, cache.disk, cache.writes);
      if ok {
        assert Installs(plan.t.blocks, plan.t.data)[..n] == Installs(plan.t.blocks, plan.t.data);
        InstallsReached(plan, cache.HeldBlocks(), d1, v1, cache.disk, cache.view, cache.writes);
      }
    }

    method StageErase(ghost plan: Plan) returns (ok: bool, ghost k: nat)
      requires PlanOk(plan) && plan.l == l && plan.t.blocks != []
      requires cache.Valid() && lh == [] && forall b :: b in cache.HeldBlocks() ==> b !in plan.t.blocks && !InLog(l, b)
      requires Reached(plan, 2 * |plan.t.blocks| + 1, cache.HeldBlocks(), cache.disk, cache.view, cache.writes)
      modifies cache
      ensures k == 2 * |plan.t.blocks| + (if ok then 2 else 1) && Made(plan, k, cache.disk, cache.writes)
      ensures ok <==> old(InPlace(cache.place, l.start, 0) || cache.Unused() != {})
      ensures ok ==> Reached(plan, k, cache.HeldBlocks(), cache.disk, cache.view, cache.writes)
      ensures ok ==> cache.Valid() && cache.Kept() && forall b: nat :: cache.Refs(b) == old(cache.Refs(b))
    {
      hide Ring, Complete, Coherent, HeldIn, NoneLoose, Apply, CommitWrites, LogWrites, HeadWrite, Installs, PutHeader,
          Near, Slips;
      ghost var n, held, d1, v1 := |plan.t.blocks|, cache.HeldBlocks(), cache.disk, cache.view;
      CommitStages(l, plan.disk[l.start], plan.t);
      PlanHeads(plan, 2 * n + 1, held, v1);
      HeldDear();
      k := 2 * n + 1;
      ok := WriteHead();
      if ok {
        PlanNext(plan, 2 * n + 1, held, d1, v1, cache.disk, cache.view, cache.writes);
        k := 2 * n + 2;
      }
    }

    /**
     recover_from_log, after a restart with an empty cache. However many of its
     writes it gets to make, the disk goes on standing for the same home blocks;
     when it finishes, they are in place and the log is empty. It finishes if two
     buffers can be had, and so it does after a restart.
     */
    method Recover() returns (ok: bool, ghost k: nat)
      requires cache.Valid() && cache.held == {} && cache.view == cache.disk && LogOk(l, cache.disk)
      modifies this, cache
      ensures |old(cache.Unused())| >= 2 ==> ok
      ensures (forall b: nat :: old(cache.Refs(b)) == 0) ==> ok
      ensures k <= |RecoveryWrites(l, old(cache.disk))|
      ensures cache.writes == old(cache.writes) + RecoveryWrites(l, old(cache.disk))[..k]
      ensures cache.disk == Apply(old(cache.disk), RecoveryWrites(l, old(cache.disk))[..k])
      ensures StandsFor(l, cache.disk, Recovered(l, old(cache.disk)))
      ensures ok ==> k == |RecoveryWrites(l, old(cache.disk))|
      ensures ok ==> Valid() && lh == [] && cache.held == {} && cache.view == cache.disk && Empty(l, cache.disk)
      ensures ok ==> Home(l, cache.disk) == Recovered(l, old(cache.disk))
    {
      hide Ring, Complete, Coherent, NoneLoose, Apply, HeadWrite, Installs, Recovered, LogOk, WordAt, Slots, Near,
          Slips, PutHeader, RecoveryWrites, Logged, Home;
      ghost var d0, v0, w0 := cache.disk, cache.view, cache.writes;
      ghost var all := RecoveryWrites(l, d0);
      if forall b: nat :: cache.Refs(b) == 0 {
        cache.AllUnused();
      }
      k := 0;
      RecoveryStages(l, d0);
      ApplyNone(d0, all);
      CrashInRecovery(l, d0, 0);
      ok := ReadHead();
      if !ok {
        return;
      }
      ghost var n := |lh|;
      ok, k := InstallTrans(true);
      RecoveryStart(l, d0, k);
      CrashInRecovery(l, d0, k);
      if !ok {
        return;
      }
      RecoveryHeader(l, d0);
      lh := [];
      ok := EraseLog();
      if ok {
        HeadIs(l, Apply(d0, Installs(Logged(l, d0), Slots(l, d0, n))));
        assert [all[n]] == all[n..n + 1];
        Chain(d0, v0, w0, all, n, [all[n]], 1);
        k := n + 1;
        CrashInRecovery(l, d0, k);
        EmptyRecovered(l, cache.disk);
      }
    }

    /** The header is written with no entries, over a cache that is the same as the disk. */
    method EraseLog() returns (ok: bool)
      requires cache.Valid() && cache.held == {} && cache.view == cache.disk && lh == [] && l.start < |cache.disk|
      requires l.size > 0
      modifies cache
      ensures ok <==> old(InPlace(cache.place, l.start, 0) || cache.Unused() != {})
      ensures !ok ==> unchanged(cache)
      ensures ok ==> cache.Valid() && cache.held == {} && cache.view == cache.disk
      ensures ok ==> cache.disk == old(cache.disk)[l.start := PutHeader(old(cache.disk)[l.start], [])]
      ensures ok ==> cache.writes == old(cache.writes) + [Write(l.start, PutHeader(old(cache.disk)[l.start], []))]
    {
      hide Ring, Complete, Coherent, NoneLoose, Slips, PutHeader;
      ok := WriteHead();
      if ok {
        SlipsNowhere(old(cache.disk), cache.view, cache.disk, l.start, PutHeader(old(cache.disk)[l.start], []));
      }
    }
  }

  /** What a commit starts from, and what it is to write. */
  datatype Plan = Plan(l: Layout, disk: Disk, view: Disk, writes: seq<Write>, t: Txn) {
    ghost function All(): seq<Write>
      requires PlanOk(this)
    {
      CommitWrites(l, disk[l.start], t)
    }
  }

  ghost predicate PlanOk(p: Plan) {
    && |p.disk| == |p.view| && Empty(p.l, p.disk) && TxnOk(p.l, |p.disk|, p.t) && SlotsClean(p.l, p.disk, p.view)
    && (forall i :: 0 <= i < |p.t.blocks| ==> p.t.data[i] == p.view[p.t.blocks[i]])
  }

  /** The first k writes of the plan have reached the disk. */
  ghost predicate Made(p: Plan, k: nat, disk: Disk, writes: seq<Write>)
    requires PlanOk(p)
  {
    k <= |p.All()| && disk == Apply(p.disk, p.All()[..k]) && writes == p.writes + p.All()[..k]
  }

  /** And the cache shows them. */
  ghost predicate Reached(p: Plan, k: nat, held: set<nat>, disk: Disk, view: Disk, writes: seq<Write>)
    requires PlanOk(p)
  {
    Made(p, k, disk, writes) && Near(p.l, p.t.blocks, held, disk, Apply(p.view, p.All()[..k]), view)
  }

  lemma StartPlan(p: Plan, held: set<nat>)
    requires PlanOk(p)
    ensures Made(p, 0, p.disk, p.writes) && Listed(p.l, p.t.blocks, |p.disk|)
    ensures p.All()[..0] == [] && Apply(p.disk, []) == p.disk && Apply(p.view, []) == p.view
  {
  }

  /** Where a commit writes the header, the block is the same on disk and in the cache, and this is written. */
  lemma PlanHeads(p: Plan, k: nat, held: set<nat>, view: Disk)
    requires PlanOk(p) && p.t.blocks != [] && (k == |p.t.blocks| || k == 2 * |p.t.blocks| + 1) && k < |p.All()|
    requires Near(p.l, p.t.blocks, held, Apply(p.disk, p.All()[..k]), Apply(p.view, p.All()[..k]), view)
    ensures var d, bs := Apply(p.disk, p.All()[..k]), if k == |p.t.blocks| then p.t.blocks else [];
            && d[p.l.start] == view[p.l.start]
            && p.All()[k] == Write(p.l.start, PutHeader(d[p.l.start], bs))
    ensures forall b: nat :: b < |view| && InLog(p.l, b) ==> view[b] == Apply(p.disk, p.All()[..k])[b]
    ensures k == 2 * |p.t.blocks| + 1 ==>
              forall b: nat :: b < |view| && b in p.t.blocks ==> view[b] == Apply(p.disk, p.All()[..k])[b]
  {
    hide Apply, Recovered, CommitWrites, LogWrites, Installs, LogOk, PutHeader, Slots, Logged, Near;
    var n, all, head := |p.t.blocks|, p.All(), p.disk[p.l.start];
    CommitStages(p.l, head, p.t);
    CleanHere(p.l, p.t.blocks, held, p.disk, p.view, all, k, view);
    if k == n {
      AfterSlots(p.l, p.disk, p.view, p.t);
    } else {
      AfterInstall(p);
      forall b: nat | b < |view| && b in p.t.blocks ensures view[b] == Apply(p.disk, all[..k])[b] {
        InstalledAt(p, b);
        NearListed(p.l, p.t.blocks, held, Apply(p.disk, all[..k]), Apply(p.view, all[..k]), view, b);
      }
    }
  }

  /** By the time the header is erased, a listed block is the same on disk and in the cache. */
  lemma InstalledAt(p: Plan, b: nat)
    requires PlanOk(p) && p.t.blocks != [] && b in p.t.blocks
    ensures b < |p.disk| && 2 * |p.t.blocks| + 1 <= |p.All()|
    ensures Apply(p.disk, p.All()[..2 * |p.t.blocks| + 1])[b] == Apply(p.view, p.All()[..2 * |p.t.blocks| + 1])[b]
  {
    hide Apply, Recovered, CommitWrites, LogWrites, Installs, HeadWrite, LogOk, WordAt, PutHeader, Slots, Logged,
        SlotsClean;
    var n, all := |p.t.blocks|, p.All();
    CommitStages(p.l, p.disk[p.l.start], p.t);
    var i :| 0 <= i < n && p.t.blocks[i] == b;
    assert all[n + 1..2 * n + 1][i].blockno == b;
    assert all[..2 * n + 1][n + 1 + i] == all[n + 1..2 * n + 1][i];
    assert all[..2 * n + 1][n + 1 + i] in all[..2 * n + 1];
    ApplyAgrees(p.disk, p.view, all[..2 * n + 1], b);
  }

  /** One more write of the plan. */
  lemma PlanNext(p: Plan, k: nat, held: set<nat>, disk: Disk, view: Disk, disk': Disk, view': Disk, writes': seq<Write>)
    requires PlanOk(p) && k < |p.All()| && disk == Apply(p.disk, p.All()[..k])
    requires Near(p.l, p.t.blocks, held, disk, Apply(p.view, p.All()[..k]), view)
    requires var w := p.All()[k];
             && w.blockno < |disk| && disk' == disk[w.blockno := w.data]
             && Slips(view[w.blockno := w.data], view', disk')
             && writes' == p.writes + p.All()[..k] + [w]
             && forall b: nat :: b < |view| && b != w.blockno && Dear(p.l, p.t.blocks, held, b) ==>
                  view'[b] == view[b] || view[b] == disk[b]
    ensures Reached(p, k + 1, held, disk', view', writes')
  {
    hide Apply, CommitWrites, Near, Slips;
    var w := p.All()[k];
    ApplyNext(p.disk, p.view, p.All(), k);
    SnocSlice(p.writes, p.All(), k);
    NearStep(p.l, p.t.blocks, held, disk, disk', Apply(p.view, p.All()[..k]), view, view', w.blockno, w.data);
  }

  /** What installing starts from. */
  lemma HeadReached(p: Plan, held: set<nat>, disk: Disk, view: Disk, writes: seq<Write>)
    requires PlanOk(p) && p.t.blocks != [] && Reached(p, |p.t.blocks| + 1, held, disk, view, writes)
    ensures SlotsClean(p.l, disk, view) && Listed(p.l, p.t.blocks, |disk|)
    ensures p.l.start + |p.t.blocks| < |disk| && Slots(p.l, disk, |p.t.blocks|) == p.t.data
  {
    hide Apply, CommitWrites, LogOk, Slots, Near;
    StartPlan(p, held);
    AfterHead(p, held, view);
  }

  lemma InstallsMade(p: Plan, k: nat, disk: Disk, writes: seq<Write>, disk': Disk, writes': seq<Write>)
    requires PlanOk(p) && p.t.blocks != [] && Made(p, |p.t.blocks| + 1, disk, writes) && k <= |p.t.blocks|
    requires disk' == Apply(disk, Installs(p.t.blocks, p.t.data)[..k])
    requires writes' == writes + Installs(p.t.blocks, p.t.data)[..k]
    ensures Made(p, |p.t.blocks| + 1 + k, disk', writes')
  {
    hide Apply, CommitWrites, LogWrites, HeadWrite, Installs, LogOk;
    CommitStages(p.l, p.disk[p.l.start], p.t);
    Chain(p.disk, p.view, p.writes, p.All(), |p.t.blocks| + 1, Installs(p.t.blocks, p.t.data), k);
  }

  lemma InstallsReached(p: Plan, held: set<nat>, disk: Disk, view: Disk, disk': Disk, view': Disk, writes': seq<Write>)
    requires PlanOk(p) && p.t.blocks != [] && Made(p, 2 * |p.t.blocks| + 1, disk', writes')
    requires |p.t.blocks| + 1 <= |p.All()| && disk' == Apply(disk, Installs(p.t.blocks, p.t.data))
    requires Near(p.l, p.t.blocks, held, disk, Apply(p.view, p.All()[..|p.t.blocks| + 1]), view)
    requires Near(p.l, p.t.blocks, held, disk', Apply(view, Installs(p.t.blocks, p.t.data)), view')
    ensures Reached(p, 2 * |p.t.blocks| + 1, held, disk', view', writes')
  {
    hide Apply, CommitWrites, LogWrites, HeadWrite, Installs, LogOk, WordAt, Near, Dear;
    InstallsDear(p.l, p.t.blocks, p.t.data, held);
    var n, all, ins := |p.t.blocks|, p.All(), Installs(p.t.blocks, p.t.data);
    CommitStages(p.l, p.disk[p.l.start], p.t);
    Chain(p.disk, p.view, p.writes, all, n + 1, ins, n);
    assert ins[..n] == ins;
    NearApply(p.l, p.t.blocks, held, disk, Apply(p.view, all[..n + 1]), view, ins, view');
  }

  lemma InstallsDear(l: Layout, bs: seq<Word>, data: seq<Block>, held: set<nat>)
    requires |bs| == |data|
    ensures forall w :: w in Installs(bs, data) ==> Dear(l, bs, held, w.blockno)
  {
    forall w | w in Installs(bs, data) ensures Dear(l, bs, held, w.blockno) {
      var i :| 0 <= i < |bs| && Installs(bs, data)[i] == w;
    }
  }

  lemma AfterHead(p: Plan, held: set<nat>, view: Disk)
    requires PlanOk(p) && p.t.blocks != [] && |p.t.blocks| + 1 <= |p.All()|
    requires Near(p.l, p.t.blocks, held, Apply(p.disk, p.All()[..|p.t.blocks| + 1]),
                  Apply(p.view, p.All()[..|p.t.blocks| + 1]), view)
    ensures var n, all := |p.t.blocks|, p.All();
            SlotsClean(p.l, Apply(p.disk, all[..n + 1]), view) &&
            p.l.start + n < |p.disk| && Slots(p.l, Apply(p.disk, all[..n + 1]), n) == p.t.data
  {
    hide Apply, Recovered, CommitWrites, LogWrites, HeadWrite, Installs, LogOk, WordAt, PutHeader, Slots, Logged, Near;
    var n, all := |p.t.blocks|, p.All();
    CommitStages(p.l, p.disk[p.l.start], p.t);
    AfterCommitPoint(p.l, p.disk, p.t, p.disk[p.l.start]);
    assert all[..n + 1] == LogWrites(p.l, p.t.data) + [HeadWrite(p.l, p.disk[p.l.start], p.t.blocks)];
    CleanHere(p.l, p.t.blocks, held, p.disk, p.view, all, n + 1, view);
  }

  lemma AfterInstall(p: Plan)
    requires PlanOk(p) && p.t.blocks != []
    ensures 2 * |p.t.blocks| + 1 <= |p.All()|
    ensures Apply(p.disk, p.All()[..2 * |p.t.blocks| + 1])[p.l.start] == PutHeader(p.disk[p.l.start], p.t.blocks)
  {
    hide Apply, Recovered, CommitWrites, LogWrites, HeadWrite, Installs, LogOk, PutHeader, Slots, Logged;
    var n, all, head := |p.t.blocks|, p.All(), p.disk[p.l.start];
    CommitStages(p.l, head, p.t);
    AfterCommitPoint(p.l, p.disk, p.t, head);
    var ins := Installs(p.t.blocks, p.t.data);
    assert all[..n + 1] == LogWrites(p.l, p.t.data) + [HeadWrite(p.l, head, p.t.blocks)];
    InstallPrefix(p.l, Apply(p.disk, all[..n + 1]), p.t.data, n);
    assert ins[..n] == ins;
    Chain(p.disk, p.view, [], all, n + 1, ins, n);
  }

  lemma CommitDone(p: Plan)
    requires PlanOk(p) && p.t.blocks != []
    ensures |p.All()| == 2 * |p.t.blocks| + 2 && p.All()[..2 * |p.t.blocks| + 2] == p.All()
    ensures Empty(p.l, Apply(p.disk, p.All()))
    ensures Home(p.l, Apply(p.disk, p.All())) == Effect(Recovered(p.l, p.disk), p.t)
  {
    hide Apply, Recovered, CommitWrites, LogWrites, HeadWrite, Installs, LogOk, WordAt, PutHeader, Slots, Logged, Home;
    CommitStages(p.l, p.disk[p.l.start], p.t);
    WholeCommit(p.l, p.disk, p.t);
    EmptyRecovered(p.l, Apply(p.disk, p.All()));
  }

  /** A block after a commit: as on disk, or as it was in the cache if the commit does not touch it. */
  predicate Settled(l: Layout, bs: seq<Word>, held: set<nat>, disk: Disk, view: Disk, view': Disk, b: nat)
    requires |disk| == |view| == |view'| && b < |disk|
  {
    && (b in bs || b in held ==> view'[b] == view[b]) && (b in bs || InLog(l, b) ==> view'[b] == disk[b])
    && (view'[b] == disk[b] || view'[b] == view[b])
  }

  lemma CommitLeaves(p: Plan, held: set<nat>, view: Disk)
    requires PlanOk(p) && p.t.blocks != [] && (forall b :: b in held ==> b !in p.t.blocks && !InLog(p.l, b))
    requires Near(p.l, p.t.blocks, held, Apply(p.disk, p.All()), Apply(p.view, p.All()), view)
    ensures |view| == |p.view| == |p.disk| && SlotsClean(p.l, Apply(p.disk, p.All()), view)
    ensures forall b: nat :: b < |p.disk| ==> Settled(p.l, p.t.blocks, held, Apply(p.disk, p.All()), p.view, view, b)
    ensures (forall b: nat :: b < |p.disk| && b !in p.t.blocks ==> p.view[b] == p.disk[b]) ==>
              view == Apply(p.disk, p.All()) && Home(p.l, view) == Home(p.l, p.view)
  {
    hide Apply, CommitWrites, LogWrites, HeadWrite, Installs, LogOk, WordAt, PutHeader, Near;
    CommitStages(p.l, p.disk[p.l.start], p.t);
    var d, v, all := Apply(p.disk, p.All()), Apply(p.view, p.All()), p.All();
    forall b: nat | b < |p.disk|
      ensures |view| == |d| && Settled(p.l, p.t.blocks, held, d, p.view, view, b)
      ensures InLog(p.l, b) || b in p.t.blocks || p.view[b] == p.disk[b] ==> view[b] == d[b]
      ensures !InLog(p.l, b) && (b in p.t.blocks || p.view[b] == p.disk[b]) ==> view[b] == p.view[b]
    {
      LeavesAt(p, held, view, b);
    }
  }

  lemma LeavesAt(p: Plan, held: set<nat>, view: Disk, b: nat)
    requires PlanOk(p) && p.t.blocks != [] && (forall b :: b in held ==> b !in p.t.blocks && !InLog(p.l, b))
    requires Near(p.l, p.t.blocks, held, Apply(p.disk, p.All()), Apply(p.view, p.All()), view) && b < |p.disk|
    ensures |view| == |p.disk| && Settled(p.l, p.t.blocks, held, Apply(p.disk, p.All()), p.view, view, b)
    ensures InLog(p.l, b) || b in p.t.blocks || p.view[b] == p.disk[b] ==> view[b] == Apply(p.disk, p.All())[b]
    ensures !InLog(p.l, b) && (b in p.t.blocks || p.view[b] == p.disk[b]) ==> view[b] == p.view[b]
  {
    hide Apply, CommitWrites, LogWrites, HeadWrite, Installs, LogOk, WordAt, PutHeader;
    var all, n := p.All(), |p.t.blocks|;
    CommitStages(p.l, p.disk[p.l.start], p.t);
    assert NearAt(p.l, p.t.blocks, held, Apply(p.disk, all), Apply(p.view, all), view, b);
    if b in p.t.blocks {
      var i :| 0 <= i < n && p.t.blocks[i] == b;
      assert all[n + 1..2 * n + 1][i] == Installs(p.t.blocks, p.t.data)[i];
      assert all[n + 1 + i] in all && all[n + 1 + i].blockno == b;
    }
    if b in p.t.blocks || InLog(p.l, b) || p.view[b] == p.disk[b] {
      ApplyAgrees(p.disk, p.view, all, b);
    }
    if !InLog(p.l, b) {
      HomeWrites(p.l, p.view, p.t, p.disk[p.l.start], b);
      ApplySame(p.view, all, b);
      if b !in p.t.blocks {
        HomeAlone(p.l, p.t, p.disk[p.l.start], b);
        ApplyElsewhere(p.disk, all, b);
      }
    }
  }

  /** The blocks that a plan lists are the only home blocks it writes. */
  lemma HomeAlone(l: Layout, t: Txn, head: Block, b: nat)
    requires |t.blocks| == |t.data| < WORDS && |t.data| < l.size && t.blocks != [] && !InLog(l, b) && b !in t.blocks
    ensures forall w :: w in CommitWrites(l, head, t) ==> w.blockno != b
  {
    hide CommitWrites;
    var all := CommitWrites(l, head, t);
    forall j | 0 <= j < |all| ensures all[j].blockno != b {
      CommitWriteAt(l, head, t, j);
    }
  }

  lemma NothingToDo(p: Plan, held: set<nat>)
    requires PlanOk(p) && p.t.blocks == []
    ensures p.All() == [] && Effect(Recovered(p.l, p.disk), p.t) == Recovered(p.l, p.disk) == Home(p.l, p.disk)
    ensures forall b: nat :: b < |p.disk| ==> Settled(p.l, [], held, p.disk, p.view, p.view, b)
  {
    EmptyRecovered(p.l, p.disk);
    assert Installs(p.t.blocks, p.t.data) == [];
  }

  /** Why an act is stuck: every buffer is referenced, or the log is full. */
  predicate Blocked(l: Layout, s: State, a: Act, others: set<nat>) {
    || (a.DoRead? && |others| + |s.lh| + |s.held| >= NBUF)
    || (a.DoLog? && (|s.lh| >= LOGSIZE || |s.lh| >= l.size - 1))
  }

  /** What a run has listed, as the transaction it makes. */
  ghost predicate Within(s: State) {
    forall i :: 0 <= i < |s.lh| ==> s.lh[i] < |s.view|
  }

  function Listing(s: State): Txn
    requires Within(s)
  {
    Gather(s.lh, s.view)
  }

  /** If only listed blocks differ from the disk, the transaction makes the home blocks what the cache has. */
  lemma ListingEffect(l: Layout, disk: Disk, s: State)
    requires Within(s) && |s.view| == |disk| && (forall b: nat :: b < |disk| && b !in s.lh ==> s.view[b] == disk[b])
    requires forall i :: 0 <= i < |s.lh| ==> !InLog(l, s.lh[i])
    ensures Effect(Home(l, disk), Listing(s)) == Home(l, s.view)
  {
    hide Apply;
    var t := Listing(s);
    var ws := Installs(t.blocks, t.data);
    forall b: nat | b < |disk| ensures Apply(Home(l, disk), ws)[b] == Home(l, s.view)[b] {
      if b in s.lh {
        var i :| 0 <= i < |s.lh| && s.lh[i] == b;
        assert ws[i] in ws && ws[i].blockno == b;
      }
      ApplyAgrees(Home(l, disk), Home(l, s.view), ws, b);
      forall w | w in ws && w.blockno == b ensures w.data == Home(l, s.view)[b] {
        var i :| 0 <= i < |ws| && ws[i] == w;
      }
      ApplySame(Home(l, s.view), ws, b);
    }
  }

  /** So a run that loses nothing and ends with nothing held has, once committed, the effect of its acts. */
  lemma TidyRun(l: Layout, disk: Disk, states: seq<State>, acts: seq<Act>)
    requires Trace(disk, states, acts) && TidyState(disk, states[0])
    requires AllTidy(disk, states[0], acts) && AllMay(l, |disk|, states[0], acts)
    requires DidAll(states[0], acts).held == {} && Within(states[|acts|])
    requires forall i :: 0 <= i < |states[|acts|].lh| ==> !InLog(l, states[|acts|].lh[i])
    ensures Effect(Home(l, disk), Listing(states[|acts|])) == Home(l, DidAll(states[0], acts).view)
  {
    hide DidAll, AllTidy, AllMay, Effect, Home, Next;
    NothingLost(l, disk, states, acts);
    ListingEffect(l, disk, states[|acts|]);
  }

  lemma MayHere(l: Layout, disk: Disk, states: seq<State>, acts: seq<Act>, i: nat)
    requires i < |acts| && Trace(disk, states, acts[..i]) && May(l, |disk|, DidAll(states[0], acts[..i]), acts[i])
    ensures May(l, |disk|, states[i], acts[i])
  {
    hide DidAll, Next;
    TraceLists(disk, states, acts[..i], i);
    assert acts[..i][..i] == acts[..i];
  }

  lemma TraceMore(disk: Disk, states: seq<State>, acts: seq<Act>, i: nat, s: State)
    requires i < |acts| && Trace(disk, states, acts[..i]) && Next(disk, states[i], acts[i], s)
    ensures Trace(disk, states + [s], acts[..i + 1])
  {
    hide Next;
    var more := states + [s];
    forall j | 0 <= j < i + 1 ensures Next(disk, more[j], acts[..i + 1][j], more[j + 1]) {
      if j < i {
        assert Next(disk, states[j], acts[..i][j], states[j + 1]);
      }
    }
  }

  // ---------------------------------------------------------------- what the cache shows

  /** What a commit relies on: the blocks it lists, the blocks of the log, and the blocks that others hold. */
  predicate Dear(l: Layout, bs: seq<Word>, held: set<nat>, b: nat) {
    b in bs || InLog(l, b) || b in held
  }

  predicate NearAt(l: Layout, bs: seq<Word>, held: set<nat>, disk: Disk, ideal: Disk, view: Disk, b: nat)
    requires |view| == |ideal| == |disk| && b < |disk|
  {
    view[b] == ideal[b] || (!Dear(l, bs, held, b) && view[b] == disk[b])
  }

  /** The cache shows what it ideally would, but for blocks of no concern that have gone back to what the disk has. */
  ghost predicate Near(l: Layout, bs: seq<Word>, held: set<nat>, disk: Disk, ideal: Disk, view: Disk) {
    && |view| == |ideal| == |disk|
    && forall b: nat :: b < |disk| ==> NearAt(l, bs, held, disk, ideal, view, b)
  }

  lemma NearSelf(l: Layout, bs: seq<Word>, held: set<nat>, disk: Disk, view: Disk)
    requires |view| == |disk|
    ensures Near(l, bs, held, disk, view, view)
  {
  }

  lemma NearListed(l: Layout, bs: seq<Word>, held: set<nat>, disk: Disk, ideal: Disk, view: Disk, b: nat)
    requires Near(l, bs, held, disk, ideal, view) && Dear(l, bs, held, b) && b < |disk|
    ensures view[b] == ideal[b]
  {
    assert NearAt(l, bs, held, disk, ideal, view, b);
  }

  lemma NearStep(l: Layout, bs: seq<Word>, held: set<nat>, disk: Disk, disk': Disk, ideal: Disk, view: Disk,
                 view': Disk, to: nat, data: Block)
    requires Near(l, bs, held, disk, ideal, view) && to < |disk| && disk' == disk[to := data]
    requires Slips(view[to := data], view', disk')
    requires forall b: nat :: b < |view| && b != to && Dear(l, bs, held, b) ==>
               view'[b] == view[b] || view[b] == disk[b]
    ensures Near(l, bs, held, disk', ideal[to := data], view')
  {
    var ideal' := ideal[to := data];
    forall b: nat | b < |disk| ensures NearAt(l, bs, held, disk', ideal', view', b) {
      assert NearAt(l, bs, held, disk, ideal, view, b);
    }
  }

  /** Being near is carried through the same writes. */
  lemma NearApply(l: Layout, bs: seq<Word>, held: set<nat>, disk: Disk, ideal: Disk, view: Disk, ws: seq<Write>,
                  view': Disk)
    requires Near(l, bs, held, disk, ideal, view) && Near(l, bs, held, Apply(disk, ws), Apply(view, ws), view')
    requires forall w :: w in ws ==> Dear(l, bs, held, w.blockno)
    ensures Near(l, bs, held, Apply(disk, ws), Apply(ideal, ws), view')
  {
    hide Apply;
    forall b: nat | b < |view| ensures NearAt(l, bs, held, Apply(disk, ws), Apply(ideal, ws), view', b) {
      assert NearAt(l, bs, held, disk, ideal, view, b);
      assert NearAt(l, bs, held, Apply(disk, ws), Apply(view, ws), view', b);
      if Dear(l, bs, held, b) {
        ApplyAgrees(view, ideal, ws, b);
      } else {
        ApplyElsewhere(view, ws, b);
        ApplyElsewhere(ideal, ws, b);
        ApplyElsewhere(disk, ws, b);
      }
    }
  }

  /** The blocks of the log are on disk as the cache has them, all through a commit. */
  lemma CleanHere(l: Layout, bs: seq<Word>, held: set<nat>, d0: Disk, v0: Disk, ws: seq<Write>, k: nat, view: Disk)
    requires SlotsClean(l, d0, v0) && k <= |ws|
    requires Near(l, bs, held, Apply(d0, ws[..k]), Apply(v0, ws[..k]), view)
    ensures SlotsClean(l, Apply(d0, ws[..k]), view)
  {
    hide Apply;
    CleanApply(l, d0, v0, ws[..k]);
    forall b: nat | b < |d0| && InLog(l, b) ensures view[b] == Apply(d0, ws[..k])[b] {
      assert NearAt(l, bs, held, Apply(d0, ws[..k]), Apply(v0, ws[..k]), view, b);
    }
  }

  /** A listed block is on disk as the cache has it once it is installed. */
  lemma InstalledHere(l: Layout, bs: seq<Word>, data: seq<Block>, held: set<nat>, d0: Disk, v0: Disk, k: nat,
                      view: Disk)
    requires |bs| == |data| && k <= |bs| && |d0| == |v0|
    requires Near(l, bs, held, Apply(d0, Installs(bs, data)[..k]), Apply(v0, Installs(bs, data)[..k]), view)
    ensures forall b: nat :: b < |view| && b in bs[..k] ==> view[b] == Apply(d0, Installs(bs, data)[..k])[b]
  {
    hide Apply;
    var ws := Installs(bs, data)[..k];
    forall b: nat | b < |view| && b in bs[..k] ensures view[b] == Apply(d0, ws)[b] {
      var i :| 0 <= i < k && bs[..k][i] == b;
      assert ws[i] in ws && ws[i].blockno == b;
      ApplyAgrees(d0, v0, ws, b);
      assert NearAt(l, bs, held, Apply(d0, ws), Apply(v0, ws), view, b);
    }
  }

  /** Where cache and disk were the same, they stay so. */
  lemma SlipsNowhere(view: Disk, view': Disk, disk': Disk, to: nat, data: Block)
    requires to < |view| && disk' == view[to := data] && Slips(view[to := data], view', disk')
    ensures view' == disk'
  {
  }

  lemma SlipsAt(view: Disk, view': Disk, disk: Disk, b: nat)
    requires Slips(view, view', disk) && b < |disk|
    ensures |view| == |view'| == |disk| && (view[b] == disk[b] ==> view'[b] == disk[b])
  {
  }

  lemma SlipsPut(view: Disk, view': Disk, disk: Disk, to: nat, data: Block)
    requires Slips(view, view', disk) && to < |disk|
    ensures |view| == |view'| == |disk| && Slips(view[to := data], view'[to := data], disk[to := data])
  {
  }

  lemma SameThrice(a: seq<Buf>, b: seq<Buf>, c: seq<Buf>, d: seq<Buf>, held: set<int>)
    requires SameBufs(a, b, held) && SameBufs(c, d, held) && |b| == |c|
    requires forall j :: j in held && 0 <= j < |b| ==> c[j] == b[j]
    ensures SameBufs(a, d, held)
  {
  }

  lemma HeadIs(l: Layout, d: Disk)
    requires l.start < |d|
    ensures HeadWrite(l, d[l.start], []) == Write(l.start, PutHeader(d[l.start], []))
  {
  }

  lemma {:induction false} SetOfSeq(q: seq<Word>)
    ensures |set b: nat | b in q| <= |q|
  {
    var s := set b: nat | b in q;
    if q == [] {
      assert s == {};
    } else {
      var n := |q| - 1;
      SetOfSeq(q[..n]);
      assert s == (set b: nat | b in q[..n]) + {q[n]};
    }
  }

  /** Buffers that are all referenced hold as many blocks. */
  lemma AllReferenced(bufs: seq<Buf>, place: map<nat, int>, n: nat, s: set<nat>)
    requires Placed(bufs, place, n) && forall i :: 0 <= i < NBUF ==> bufs[i].refcnt > 0 && bufs[i].blockno in s
    ensures NBUF <= |s|
  {
    var q := seq(NBUF, i requires 0 <= i < NBUF => bufs[i].blockno);
    forall i, j | 0 <= i < j < NBUF ensures q[i] != q[j] {
      assert PlacedAt(bufs[i], place, i, n) && PlacedAt(bufs[j], place, j, n);
    }
    NoRepeatsFits(q, s);
  }

  lemma AtMostOne(s: set<int>, i: int)
    requires s - {i} == {}
    ensures |s| <= 1
  {
    if i in s {
      assert s == {i};
    } else {
      assert s == {};
    }
  }

  lemma UnionSize(a: set<nat>, b: set<nat>, c: set<nat>)
    ensures |a + b + c| <= |a| + |b| + |c|
  {
  }

  lemma SnocSlice<T>(w: seq<T>, ws: seq<T>, k: nat)
    requires k < |ws|
    ensures w + ws[..k + 1] == w + ws[..k] + [ws[k]]
  {
  }

  lemma ApplyNone(d: Disk, ws: seq<Write>)
    ensures ws[..0] == [] && Apply(d, ws[..0]) == d
  {
  }

  lemma ApplyNext(disk: Disk, view: Disk, ws: seq<Write>, k: nat)
    requires k < |ws|
    ensures Apply(disk, ws[..k + 1]) == Store(Apply(disk, ws[..k]), ws[k])
    ensures Apply(view, ws[..k + 1]) == Store(Apply(view, ws[..k]), ws[k])
  {
    assert ws[..k + 1][..k] == ws[..k];
  }

  /** Writing log slots leaves a home block, and the slots not yet written. */
  lemma SlotsOnly(l: Layout, data: seq<Block>, k: nat, disk: Disk, view: Disk, home: nat)
    requires |disk| == |view| && l.start + l.size <= |disk| && |data| < l.size && k < |data|
    requires home < |disk| && !InLog(l, home)
    ensures Apply(view, LogWrites(l, data)[..k])[home] == view[home]
    ensures Apply(view, LogWrites(l, data)[..k])[l.start + 1 + k] == view[l.start + 1 + k]
    ensures Apply(disk, LogWrites(l, data)[..k])[l.start + 1 + k] == disk[l.start + 1 + k]
  {
    var ws := LogWrites(l, data)[..k];
    ApplyElsewhere(view, ws, home);
    ApplyElsewhere(view, ws, l.start + 1 + k);
    ApplyElsewhere(disk, ws, l.start + 1 + k);
  }

  /** The list names home blocks and fits the log. */
  ghost predicate Listed(l: Layout, bs: seq<Word>, n: nat) {
    && |bs| <= LOGSIZE && |bs| < l.size && l.start + l.size <= n
    && forall i :: 0 <= i < |bs| ==> bs[i] < n && !InLog(l, bs[i])
  }

  ghost predicate SlotsClean(l: Layout, disk: Disk, view: Disk) {
    |disk| == |view| && forall b: nat :: b < |disk| && InLog(l, b) ==> view[b] == disk[b]
  }

  /** Installing writes no log block. */
  lemma HomesOnly(l: Layout, bs: seq<Word>, data: seq<Block>, k: nat, disk: Disk, view: Disk)
    requires Listed(l, bs, |disk|) && |data| == |bs| && k < |bs| && SlotsClean(l, disk, view)
    requires data == Slots(l, disk, |bs|)
    ensures Apply(view, Installs(bs, data)[..k])[l.start + 1 + k] == data[k]
    ensures Apply(disk, Installs(bs, data)[..k])[l.start + 1 + k] == data[k]
  {
    var ws, b := Installs(bs, data)[..k], l.start + 1 + k;
    ApplyElsewhere(view, ws, b);
    ApplyElsewhere(disk, ws, b);
  }

  // ---------------------------------------------------------------- the stages of a commit

  lemma PendingOk(l: Layout, bs: seq<Word>, disk: Disk, view: Disk)
    requires |disk| == |view| && |bs| <= LOGSIZE && |bs| < l.size
    requires forall i :: 0 <= i < |bs| ==> bs[i] < |disk| && !InLog(l, bs[i])
    ensures TxnOk(l, |disk|, Gather(bs, view))
  {
  }

  lemma CommitStages(l: Layout, head: Block, t: Txn)
    requires |t.blocks| == |t.data| < WORDS && t.blocks != []
    ensures var n, all := |t.blocks|, CommitWrites(l, head, t);
            |all| == 2 * n + 2 && all[..n] == LogWrites(l, t.data) && all[n] == HeadWrite(l, head, t.blocks) &&
            all[n + 1..2 * n + 1] == Installs(t.blocks, t.data) &&
            all[2 * n + 1] == HeadWrite(l, PutHeader(head, t.blocks), [])
  {
    hide LogWrites, HeadWrite, Installs, PutHeader;
  }

  lemma CommitStart(l: Layout, head: Block, t: Txn, k: nat)
    requires |t.blocks| == |t.data| < WORDS && t.blocks != [] && k <= |t.blocks|
    ensures CommitWrites(l, head, t)[..k] == LogWrites(l, t.data)[..k]
  {
    hide LogWrites, HeadWrite, Installs, PutHeader;
  }

  /** Making the next stretch of a sequence of writes. */
  lemma Chain(disk: Disk, view: Disk, w: seq<Write>, all: seq<Write>, a: nat, x: seq<Write>, k: nat)
    requires a + |x| <= |all| && x == all[a..a + |x|] && k <= |x|
    ensures Apply(Apply(disk, all[..a]), x[..k]) == Apply(disk, all[..a + k])
    ensures Apply(Apply(view, all[..a]), x[..k]) == Apply(view, all[..a + k])
    ensures w + all[..a] + x[..k] == w + all[..a + k]
    ensures |x| == 1 ==> Store(Apply(disk, all[..a]), x[0]) == Apply(disk, all[..a + 1])
    ensures |x| == 1 ==> Store(Apply(view, all[..a]), x[0]) == Apply(view, all[..a + 1])
  {
    assert all[..a + k] == all[..a] + x[..k];
    ApplyConcat(disk, all[..a], x[..k]);
    ApplyConcat(view, all[..a], x[..k]);
    if |x| == 1 {
      ApplyNext(disk, view, all, a);
    }
  }

  lemma AfterSlots(l: Layout, disk: Disk, view: Disk, t: Txn)
    requires |disk| == |view| && l.start + l.size <= |disk| && |t.data| < l.size && view[l.start] == disk[l.start]
    ensures Apply(disk, LogWrites(l, t.data))[l.start] == disk[l.start]
    ensures Apply(view, LogWrites(l, t.data))[l.start] == disk[l.start]
  {
    ApplyElsewhere(disk, LogWrites(l, t.data), l.start);
    ApplyElsewhere(view, LogWrites(l, t.data), l.start);
  }

  /** The same writes keep the same blocks clean. */
  lemma {:induction false} CleanApply(l: Layout, disk: Disk, view: Disk, ws: seq<Write>)
    requires SlotsClean(l, disk, view)
    ensures SlotsClean(l, Apply(disk, ws), Apply(view, ws))
  {
    if ws != [] {
      CleanApply(l, disk, view, ws[..|ws| - 1]);
    }
  }

  /** Two disks that differ only in blocks about to be written end up the same. */
  lemma {:induction false} ApplyAgrees(disk: Disk, view: Disk, ws: seq<Write>, b: nat)
    requires |disk| == |view| && b < |disk|
    requires disk[b] == view[b] || exists w :: w in ws && w.blockno == b
    ensures Apply(disk, ws)[b] == Apply(view, ws)[b]
  {
    if ws != [] {
      var front, last := ws[..|ws| - 1], ws[|ws| - 1];
      if last.blockno != b {
        if w :| w in ws && w.blockno == b {
          assert w in front;
        }
        ApplyAgrees(disk, view, front, b);
      }
    }
  }

  /** A block only ever overwritten with what it holds keeps it. */
  lemma {:induction false} ApplySame(d: Disk, ws: seq<Write>, b: nat)
    requires b < |d| && forall w :: w in ws && w.blockno == b ==> w.data == d[b]
    ensures Apply(d, ws)[b] == d[b]
  {
    if ws != [] {
      assert ws[|ws| - 1] in ws;
      ApplySame(d, ws[..|ws| - 1], b);
    }
  }

  lemma HomeWrites(l: Layout, view: Disk, t: Txn, head: Block, b: nat)
    requires b < |view| && t.blocks != [] && TxnOk(l, |view|, t) && !InLog(l, b) && 0 < l.size
    requires forall i :: 0 <= i < |t.blocks| ==> t.data[i] == view[t.blocks[i]]
    ensures forall w :: w in CommitWrites(l, head, t) && w.blockno == b ==> w.data == view[b]
  {
    hide CommitWrites;
    var all := CommitWrites(l, head, t);
    forall j | 0 <= j < |all| && all[j].blockno == b
      ensures all[j].data == view[b]
    {
      CommitWriteAt(l, head, t, j);
    }
  }

  /** Every write of a commit is to the log, or brings a listed block home. */
  lemma CommitWriteAt(l: Layout, head: Block, t: Txn, j: nat)
    requires |t.blocks| == |t.data| < WORDS && |t.data| < l.size && t.blocks != [] && j < |CommitWrites(l, head, t)|
    ensures InLog(l, CommitWrites(l, head, t)[j].blockno) ||
            (0 <= j - |t.blocks| - 1 < |t.blocks| &&
             CommitWrites(l, head, t)[j] == Write(t.blocks[j - |t.blocks| - 1], t.data[j - |t.blocks| - 1]))
  {
    hide CommitWrites, PutHeader;
    var all, n := CommitWrites(l, head, t), |t.blocks|;
    CommitStages(l, head, t);
    if j < n {
      assert all[j] == all[..n][j];
    } else if n < j < 2 * n + 1 {
      assert all[j] == all[n + 1..2 * n + 1][j - n - 1];
    }
  }

  // ---------------------------------------------------------------- the stages of a recovery

  lemma RecoveryStages(l: Layout, d: Disk)
    requires LogOk(l, d)
    ensures Listed(l, Logged(l, d), |d|) && SlotsClean(l, d, d)
    ensures var bs, all := Logged(l, d), RecoveryWrites(l, d);
            |all| == |bs| + 1 && all[..|bs|] == Installs(bs, Slots(l, d, |bs|))
                && all[|bs|] == HeadWrite(l, d[l.start], [])
  {
    hide WordAt, PutHeader;
    forall i | 0 <= i < |Logged(l, d)|
      ensures Logged(l, d)[i] < |d| && !InLog(l, Logged(l, d)[i])
    {
      assert HomeEntry(l, d, i);
    }
  }

  lemma RecoveryStart(l: Layout, d: Disk, k: nat)
    requires LogOk(l, d) && k <= |Logged(l, d)|
    ensures RecoveryWrites(l, d)[..k] == Installs(Logged(l, d), Slots(l, d, |Logged(l, d)|))[..k]
  {
    hide WordAt, PutHeader;
  }

  lemma RecoveryHeader(l: Layout, d: Disk)
    requires LogOk(l, d)
    ensures var bs := Logged(l, d);
            Apply(d, Installs(bs, Slots(l, d, |bs|)))[l.start] == d[l.start]
  {
    hide WordAt, Recovered;
    Installed(l, d);
  }
}
