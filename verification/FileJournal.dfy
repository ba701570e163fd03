/**
 The transactions of a write as the cache and the log carry them out: each block that
 a transaction logs is read, changed, listed and released, blocks that it changes
 without listing them are changed and released, and the log commits.
 */
module FileJournal {
  import opened Blocks
  import opened BufferCache
  import opened FileCrash
  import opened FileIo
  import opened FsLayout
  import opened Journal
  import opened Params
  import opened Sequences
  import Log = RedoLog

  // ---------------------------------------------------------------- the acts of a transaction

  /** A block changed and released without log_write, as the block of a fault is. */
  datatype Stray = Stray(b: Word, data: Block)

  function LogActs(b: Word, data: Block): (acts: seq<Act>)
    ensures |acts| == 4
  {
    [DoRead(b), DoChange(b, data), DoLog(b), DoRelease(b)]
  }

  function TxnActs(bs: seq<Word>, data: seq<Block>): (acts: seq<Act>)
    requires |bs| == |data|
    ensures |acts| == 4 * |bs|
  {
    if bs == [] then [] else
      var n := |bs| - 1;
      TxnActs(bs[..n], data[..n]) + LogActs(bs[n], data[n])
  }

  function StrayActs(q: seq<Stray>): (acts: seq<Act>)
    ensures |acts| == 3 * |q|
  {
    if q == [] then [] else
      var n := |q| - 1;
      StrayActs(q[..n]) + [DoRead(q[n].b), DoChange(q[n].b, q[n].data), DoRelease(q[n].b)]
  }

  function Acts(t: Log.Txn, q: seq<Stray>): seq<Act>
    requires |t.blocks| == |t.data|
  {
    TxnActs(t.blocks, t.data) + StrayActs(q)
  }

  lemma {:induction false} TxnActsAt(bs: seq<Word>, data: seq<Block>, i: nat)
    requires |bs| == |data| && i < |bs|
    ensures TxnActs(bs, data)[4 * i..4 * i + 4] == LogActs(bs[i], data[i])
  {
    hide LogActs;
    var n := |bs| - 1;
    if i < n {
      TxnActsAt(bs[..n], data[..n], i);
      assert TxnActs(bs, data)[4 * i..4 * i + 4] == TxnActs(bs[..n], data[..n])[4 * i..4 * i + 4];
    } else {
      assert TxnActs(bs, data)[4 * n..4 * n + 4] == LogActs(bs[n], data[n]);
    }
  }

  /** An act changes a block only if the transaction lists the block there, or it is a stray. */
  lemma {:induction false} StrayChanges(q: seq<Stray>, b: nat)
    requires forall k :: 0 <= k < |q| ==> q[k].b != b
    ensures NoChange(StrayActs(q), b)
  {
    if q != [] {
      StrayChanges(q[..|q| - 1], b);
    }
  }

  predicate NoChange(acts: seq<Act>, b: nat) {
    forall k :: 0 <= k < |acts| ==> !(acts[k].DoChange? && acts[k].b == b)
  }

  lemma {:induction false} LastKept(acts: seq<Act>, b: nat, x: Block)
    requires NoChange(acts, b)
    ensures Last(acts, b, x) == x
  {
    if acts != [] {
      LastKept(acts[..|acts| - 1], b, x);
    }
  }

  // ---------------------------------------------------------------- what they do

  lemma {:induction false} DoneTwice(l: Log.Layout, n: nat, s: State, a: seq<Act>, b: seq<Act>)
    requires AllMay(l, n, s, a) && AllMay(l, n, DidAll(s, a), b)
    ensures AllMay(l, n, s, a + b) && DidAll(s, a + b) == DidAll(DidAll(s, a), b)
    decreases |b|
  {
    if b == [] {
      assert a + b == a;
    } else {
      var m := |b| - 1;
      DoneTwice(l, n, s, a, b[..m]);
      assert (a + b)[..|a + b| - 1] == a + b[..m];
    }
  }

  lemma LogActsMay(l: Log.Layout, n: nat, s: State, b: Word, data: Block)
    requires s.held == {} && b < n && !Log.InLog(l, b)
    ensures AllMay(l, n, s, LogActs(b, data))
    ensures var s' := DidAll(s, LogActs(b, data));
            s'.held == {} && s'.lh == if b in s.lh then s.lh else s.lh + [b]
  {
    var acts := LogActs(b, data);
    assert acts[..3][..2] == acts[..2] && acts[..2][..1] == acts[..1] && acts[..1][..0] == [];
    assert AllMay(l, n, s, acts[..1]) && DidAll(s, acts[..1]) == Did(s, acts[0]);
    assert AllMay(l, n, s, acts[..2]) && DidAll(s, acts[..2]) == Did(DidAll(s, acts[..1]), acts[1]);
    assert AllMay(l, n, s, acts[..3]) && DidAll(s, acts[..3]) == Did(DidAll(s, acts[..2]), acts[2]);
  }

  lemma StrayActsMay(l: Log.Layout, n: nat, s: State, b: Word, data: Block)
    requires s.held == {} && b < n && !Log.InLog(l, b)
    ensures var acts := [DoRead(b), DoChange(b, data), DoRelease(b)];
            AllMay(l, n, s, acts) && DidAll(s, acts).held == {} && DidAll(s, acts).lh == s.lh
  {
    var acts := [DoRead(b), DoChange(b, data), DoRelease(b)];
    assert acts[..2][..1] == acts[..1] && acts[..1][..0] == [];
    assert AllMay(l, n, s, acts[..1]) && DidAll(s, acts[..1]) == Did(s, acts[0]);
    assert AllMay(l, n, s, acts[..2]) && DidAll(s, acts[..2]) == Did(DidAll(s, acts[..1]), acts[1]);
  }

  lemma {:induction false} TxnMay(l: Log.Layout, n: nat, s: State, bs: seq<Word>, data: seq<Block>)
    requires s.held == {} && s.lh == [] && |bs| == |data| && NoRepeats(bs)
    requires forall k :: 0 <= k < |bs| ==> bs[k] < n && !Log.InLog(l, bs[k])
    ensures AllMay(l, n, s, TxnActs(bs, data))
    ensures DidAll(s, TxnActs(bs, data)).held == {} && DidAll(s, TxnActs(bs, data)).lh == bs
  {
    if bs != [] {
      var m := |bs| - 1;
      var a, b := TxnActs(bs[..m], data[..m]), LogActs(bs[m], data[m]);
      TxnMay(l, n, s, bs[..m], data[..m]);
      LogActsMay(l, n, DidAll(s, a), bs[m], data[m]);
      DoneTwice(l, n, s, a, b);
      assert bs == bs[..m] + [bs[m]];
    }
  }

  lemma {:induction false} StraysMay(l: Log.Layout, n: nat, s: State, q: seq<Stray>)
    requires s.held == {} && forall k :: 0 <= k < |q| ==> q[k].b < n && !Log.InLog(l, q[k].b)
    ensures AllMay(l, n, s, StrayActs(q)) && DidAll(s, StrayActs(q)).held == {} && DidAll(s, StrayActs(q)).lh == s.lh
  {
    if q != [] {
      var m := |q| - 1;
      var a := StrayActs(q[..m]);
      StraysMay(l, n, s, q[..m]);
      StrayActsMay(l, n, DidAll(s, a), q[m].b, q[m].data);
      DoneTwice(l, n, s, a, [DoRead(q[m].b), DoChange(q[m].b, q[m].data), DoRelease(q[m].b)]);
    }
  }

  lemma ActsMay(l: Log.Layout, n: nat, s: State, t: Log.Txn, q: seq<Stray>)
    requires s.held == {} && s.lh == [] && Log.TxnOk(l, n, t) && NoRepeats(t.blocks) && StraysOk(l, n, t, q)
    ensures AllMay(l, n, s, Acts(t, q)) && DidAll(s, Acts(t, q)).held == {} && DidAll(s, Acts(t, q)).lh == t.blocks
  {
    TxnMay(l, n, s, t.blocks, t.data);
    var a := TxnActs(t.blocks, t.data);
    StraysMay(l, n, DidAll(s, a), q);
    DoneTwice(l, n, s, a, StrayActs(q));
  }

  /** The strays are home blocks that the transaction does not list. */
  ghost predicate StraysOk(l: Log.Layout, n: nat, t: Log.Txn, q: seq<Stray>) {
    forall k :: 0 <= k < |q| ==> q[k].b < n && !Log.InLog(l, q[k].b) && q[k].b !in t.blocks
  }

  /** However the run goes, the i-th block of the transaction ends with its data. */
  lemma ActsLeave(disk: seq<Block>, states: seq<State>, t: Log.Txn, q: seq<Stray>, i: nat)
    requires |t.blocks| == |t.data| && i < |t.blocks| && NoRepeats(t.blocks) && t.blocks[i] < |disk|
    requires Trace(disk, states, Acts(t, q)) && forall k :: 0 <= k < |q| ==> q[k].b !in t.blocks
    ensures var s := states[|Acts(t, q)|]; |s.view| == |disk| && s.view[t.blocks[i]] == t.data[i]
  {
    hide Trace, Next;
    var acts, b, x, p := Acts(t, q), t.blocks[i], t.data[i], 4 * i;
    TxnActsAt(t.blocks, t.data, i);
    assert acts[p..p + 4] == LogActs(b, x);
    assert acts[p] == LogActs(b, x)[0] && acts[p + 1] == LogActs(b, x)[1] && acts[p + 2] == LogActs(b, x)[2];
    ListsIt(disk, states, acts, p, b, x);
    LaterChanges(t, q, i);
    ListedStays(disk, states, acts, p + 3, |acts|, b);
    LastKept(acts[p + 3..], b, x);
    assert acts[p + 3..|acts|] == acts[p + 3..];
  }

  /** Read, change and list: the block is listed with the new data. */
  lemma ListsIt(disk: seq<Block>, states: seq<State>, acts: seq<Act>, p: nat, b: Word, x: Block)
    requires Trace(disk, states, acts) && p + 3 <= |acts| && b < |disk|
    requires acts[p] == DoRead(b) && acts[p + 1] == DoChange(b, x) && acts[p + 2] == DoLog(b)
    ensures var s := states[p + 3]; b in s.lh && |s.view| == |disk| && s.view[b] == x
  {
    assert Next(disk, states[p], acts[p], states[p + 1]);
    assert Next(disk, states[p + 1], acts[p + 1], states[p + 2]);
    assert Next(disk, states[p + 2], acts[p + 2], states[p + 3]);
    assert NextAt(disk, states[p + 1], acts[p + 1], states[p + 2], b);
    assert NextAt(disk, states[p + 2], acts[p + 2], states[p + 3], b);
  }

  lemma LaterChanges(t: Log.Txn, q: seq<Stray>, i: nat)
    requires |t.blocks| == |t.data| && i < |t.blocks| && NoRepeats(t.blocks)
    requires forall k :: 0 <= k < |q| ==> q[k].b !in t.blocks
    ensures NoChange(Acts(t, q)[4 * i + 3..], t.blocks[i])
  {
    var bs, b, acts := t.blocks, t.blocks[i], Acts(t, q);
    StrayChanges(q, b);
    forall k | 4 * i + 3 <= k < |acts| ensures !(acts[k].DoChange? && acts[k].b == b) {
      var n := |TxnActs(bs, t.data)|;
      if k < n {
        var j := k / 4;
        TxnActsAt(bs, t.data, j);
        assert acts[k] == TxnActs(bs, t.data)[4 * j..4 * j + 4][k - 4 * j];
        assert j > i ==> bs[j] != b;
      } else {
        assert acts[k] == StrayActs(q)[k - n];
      }
    }
  }

  // ---------------------------------------------------------------- a transaction, carried out

  /**
   One transaction through the cache and the log. Whether or not it gets to the end,
   the disk stands for the home blocks as they were or with the whole transaction, and
   nothing of the strays; it gets to the end if there are buffers enough.
   */
  method CommitTxn(log: FsLog, t: Log.Txn, q: seq<Stray>, ghost others: set<nat>) returns (ok: bool)
    requires log.Valid() && Log.Empty(log.l, log.cache.disk) && log.lh == [] && log.cache.HeldBlocks() == {}
    requires Log.TxnOk(log.l, |log.cache.disk|, t) && NoRepeats(t.blocks) && StraysOk(log.l, |log.cache.disk|, t, q)
    requires forall b: nat :: log.cache.Refs(b) > log.Due(b) ==> b in others
    modifies log, log.cache
    ensures Log.StandsFor(log.l, log.cache.disk, Log.Home(log.l, old(log.cache.disk)))
            || Log.StandsFor(log.l, log.cache.disk, Log.Effect(Log.Home(log.l, old(log.cache.disk)), t))
    ensures ok ==> log.Valid() && Log.Empty(log.l, log.cache.disk) && log.lh == [] && log.cache.HeldBlocks() == {}
    ensures ok ==> Log.Home(log.l, log.cache.disk) == Log.Effect(Log.Home(log.l, old(log.cache.disk)), t)
    ensures ok ==> forall b: nat :: log.cache.Refs(b) > log.Due(b) ==> b in others
    ensures |others| + |t.blocks| < NBUF ==> ok
  {
    hide Log.Empty, Log.StandsFor, Log.Home, Log.Effect, Trace, AllMay, DidAll, HeldIn, Acts, FsLog.Valid, StraysOk;
    ghost var disk, s := log.cache.disk, log.Now();
    ActsMay(log.l, |disk|, s, t, q);
    var acts := TxnActs(t.blocks, t.data) + StrayActs(q);
    assert acts == Acts(t, q) by { ActsAre(t, q); }
    ghost var states;
    ok, states := log.RunAndCommit(acts, others);
    if |states| == |acts| + 1 {
      assert acts[..|acts|] == acts;
      ListingIs(disk, states, t, q, log.l);
    } else {
      NeverBlocked(log.l, disk, states, t, q, others);
    }
  }

  lemma ActsAre(t: Log.Txn, q: seq<Stray>)
    requires |t.blocks| == |t.data|
    ensures Acts(t, q) == TxnActs(t.blocks, t.data) + StrayActs(q)
  {
  }

  lemma ListingIs(disk: seq<Block>, states: seq<State>, t: Log.Txn, q: seq<Stray>, l: Log.Layout)
    requires Log.TxnOk(l, |disk|, t) && NoRepeats(t.blocks) && StraysOk(l, |disk|, t, q)
    requires Trace(disk, states, Acts(t, q)) && states[0].held == {} && states[0].lh == []
    requires Within(states[|Acts(t, q)|])
    ensures Listing(states[|Acts(t, q)|]) == t
  {
    hide AllMay, DidAll, Acts, Next;
    var acts := Acts(t, q);
    var s := states[|acts|];
    ActsMay(l, |disk|, states[0], t, q);
    TraceLists(disk, states, acts, |acts|);
    assert acts[..|acts|] == acts;
    forall i | 0 <= i < |t.blocks| ensures Listing(s).data[i] == t.data[i] {
      ActsLeave(disk, states, t, q, i);
    }
    assert Listing(s).data == t.data;
  }

  /** With buffers enough, and a transaction that fits the log, no act is stuck. */
  lemma NeverBlocked(l: Log.Layout, disk: seq<Block>, states: seq<State>, t: Log.Txn, q: seq<Stray>, others: set<nat>)
    requires Log.TxnOk(l, |disk|, t) && NoRepeats(t.blocks) && StraysOk(l, |disk|, t, q)
    requires 0 < |states| <= |Acts(t, q)| && Trace(disk, states, Acts(t, q)[..|states| - 1])
    requires states[0].held == {} && states[0].lh == []
    ensures Blocked(l, states[|states| - 1], Acts(t, q)[|states| - 1], others) ==> |others| + |t.blocks| >= NBUF
  {
    hide Trace, AllMay, DidAll, Acts;
    var acts, k := Acts(t, q), |states| - 1;
    TraceLists(disk, states, acts[..k], k);
    assert acts[..k][..k] == acts[..k];
    SoFar(l, |disk|, states[0], t, q, k);
  }

  /** Before a read nothing is held, and before a listing the log has room. */
  lemma SoFar(l: Log.Layout, n: nat, s: State, t: Log.Txn, q: seq<Stray>, k: nat)
    requires s.held == {} && s.lh == [] && Log.TxnOk(l, n, t) && NoRepeats(t.blocks) && StraysOk(l, n, t, q)
    requires k < |Acts(t, q)|
    ensures var d, a := DidAll(s, Acts(t, q)[..k]), Acts(t, q)[k];
            && |d.lh| <= |t.blocks| && (a.DoRead? ==> d.held == {}) && (a.DoLog? ==> |d.lh| < |t.blocks|)
  {
    var m := 4 * |t.blocks|;
    if k < m {
      InTxn(l, n, s, t, q, k);
    } else {
      InStrays(l, n, s, t, q, k);
    }
  }

  lemma InTxn(l: Log.Layout, n: nat, s: State, t: Log.Txn, q: seq<Stray>, k: nat)
    requires s.held == {} && s.lh == [] && Log.TxnOk(l, n, t) && NoRepeats(t.blocks) && k < 4 * |t.blocks|
    ensures var d, a := DidAll(s, Acts(t, q)[..k]), Acts(t, q)[k];
            && |d.lh| <= |t.blocks| && (a.DoRead? ==> d.held == {}) && (a.DoLog? ==> |d.lh| < |t.blocks|)
  {
    hide AllMay, DidAll, LogActs;
    var bs, data, i, j := t.blocks, t.data, k / 4, k % 4;
    var a, b := TxnActs(bs[..i], data[..i]), LogActs(bs[i], data[i]);
    TxnMay(l, n, s, bs[..i], data[..i]);
    TxnSplit(t, q, k, i, j);
    PartOf(l, n, DidAll(s, a), bs[i], data[i], j);
    DoneTwice(l, n, s, a, b[..j]);
  }

  /** The acts up to the k-th are those of i whole blocks and j acts more. */
  lemma TxnSplit(t: Log.Txn, q: seq<Stray>, k: nat, i: nat, j: nat)
    requires |t.blocks| == |t.data| && i < |t.blocks| && j < 4 && k == 4 * i + j
    ensures k < |Acts(t, q)| && Acts(t, q)[k] == LogActs(t.blocks[i], t.data[i])[j]
    ensures Acts(t, q)[..k] == TxnActs(t.blocks[..i], t.data[..i]) + LogActs(t.blocks[i], t.data[i])[..j]
  {
    var bs, data := t.blocks, t.data;
    var all := TxnActs(bs, data);
    TxnPrefix(bs, data, i);
    TxnActsAt(bs, data, i);
    assert Acts(t, q)[k] == all[4 * i..4 * i + 4][j];
    assert all[..k] == all[..4 * i] + all[4 * i..4 * i + 4][..j];
    assert Acts(t, q)[..k] == all[..k];
  }

  lemma {:induction false} TxnPrefix(bs: seq<Word>, data: seq<Block>, i: nat)
    requires |bs| == |data| && i <= |bs|
    ensures TxnActs(bs, data)[..4 * i] == TxnActs(bs[..i], data[..i])
  {
    hide LogActs;
    if i < |bs| {
      var n := |bs| - 1;
      TxnPrefix(bs[..n], data[..n], i);
      assert bs[..n][..i] == bs[..i] && data[..n][..i] == data[..i];
      assert TxnActs(bs, data)[..4 * i] == TxnActs(bs[..n], data[..n])[..4 * i];
    } else {
      assert bs[..i] == bs && data[..i] == data;
    }
  }

  lemma PartOf(l: Log.Layout, n: nat, s: State, b: Word, data: Block, j: nat)
    requires s.held == {} && b < n && !Log.InLog(l, b) && j < 4
    ensures var acts := LogActs(b, data);
            var d := DidAll(s, acts[..j]);
            && AllMay(l, n, s, acts[..j]) && |d.lh| <= |s.lh| + 1
            && (acts[j].DoRead? ==> d.held == {}) && (acts[j].DoLog? ==> d.lh == s.lh)
  {
    var acts := LogActs(b, data);
    LogActsMay(l, n, s, b, data);
    assert acts[..0] == [] && DidAll(s, []) == s;
    AllMayPrefix(l, n, s, acts, 0);
    AllMayPrefix(l, n, s, acts, 1);
    AllMayPrefix(l, n, s, acts, 2);
    AllMayPrefix(l, n, s, acts, 3);
  }

  lemma InStrays(l: Log.Layout, n: nat, s: State, t: Log.Txn, q: seq<Stray>, k: nat)
    requires s.held == {} && s.lh == [] && Log.TxnOk(l, n, t) && NoRepeats(t.blocks) && StraysOk(l, n, t, q)
    requires 4 * |t.blocks| <= k < |Acts(t, q)|
    ensures var d, a := DidAll(s, Acts(t, q)[..k]), Acts(t, q)[k];
            && |d.lh| <= |t.blocks| && (a.DoRead? ==> d.held == {}) && !a.DoLog?
  {
    hide AllMay, DidAll;
    var a, m := TxnActs(t.blocks, t.data), k - 4 * |t.blocks|;
    var i, j := m / 3, m % 3;
    TxnMay(l, n, s, t.blocks, t.data);
    StraysMay(l, n, DidAll(s, a), q[..i]);
    StraySplit(t, q, k, i, j);
    var b, c := StrayActs(q[..i]), [DoRead(q[i].b), DoChange(q[i].b, q[i].data), DoRelease(q[i].b)];
    StrayPart(l, n, DidAll(DidAll(s, a), b), q[i].b, q[i].data, j);
    DoneTwice(l, n, DidAll(s, a), b, c[..j]);
    DoneTwice(l, n, s, a, b + c[..j]);
  }

  lemma StraySplit(t: Log.Txn, q: seq<Stray>, k: nat, i: nat, j: nat)
    requires |t.blocks| == |t.data| && i < |q| && j < 3 && k == 4 * |t.blocks| + 3 * i + j
    ensures var a, b := TxnActs(t.blocks, t.data), StrayActs(q[..i]);
            var c := [DoRead(q[i].b), DoChange(q[i].b, q[i].data), DoRelease(q[i].b)];
            k < |Acts(t, q)| && Acts(t, q)[k] == c[j] && Acts(t, q)[..k] == a + (b + c[..j])
  {
    hide TxnActs, StrayActs;
    var a, all := TxnActs(t.blocks, t.data), StrayActs(q);
    var c := [DoRead(q[i].b), DoChange(q[i].b, q[i].data), DoRelease(q[i].b)];
    StrayPrefix(q, i);
    assert Acts(t, q)[k] == all[3 * i + j] == all[3 * i..3 * i + 3][j];
    assert all[..3 * i + j] == all[..3 * i] + all[3 * i..3 * i + 3][..j];
    assert Acts(t, q)[..k] == a + all[..3 * i + j];
  }

  lemma {:induction false} StrayPrefix(q: seq<Stray>, i: nat)
    requires i < |q|
    ensures StrayActs(q)[..3 * i] == StrayActs(q[..i])
    ensures StrayActs(q)[3 * i..3 * i + 3] == [DoRead(q[i].b), DoChange(q[i].b, q[i].data), DoRelease(q[i].b)]
  {
    var n := |q| - 1;
    if i < n {
      StrayPrefix(q[..n], i);
      assert q[..n][..i] == q[..i];
      assert StrayActs(q)[..3 * i] == StrayActs(q[..n])[..3 * i];
      assert StrayActs(q)[3 * i..3 * i + 3] == StrayActs(q[..n])[3 * i..3 * i + 3];
    }
  }

  lemma StrayPart(l: Log.Layout, n: nat, s: State, b: Word, data: Block, j: nat)
    requires s.held == {} && b < n && !Log.InLog(l, b) && j < 3
    ensures var acts := [DoRead(b), DoChange(b, data), DoRelease(b)];
            var d := DidAll(s, acts[..j]);
            AllMay(l, n, s, acts[..j]) && d.lh == s.lh && (j == 0 ==> d.held == {})
  {
    var acts := [DoRead(b), DoChange(b, data), DoRelease(b)];
    assert acts[..0] == [] && acts[..1][..0] == [] && acts[..2][..1] == acts[..1];
    assert AllMay(l, n, s, acts[..1]) && DidAll(s, acts[..1]) == Did(s, acts[0]);
    assert AllMay(l, n, s, acts[..2]) && DidAll(s, acts[..2]) == Did(DidAll(s, acts[..1]), acts[1]);
  }

  // ---------------------------------------------------------------- a whole write

  /**
   The transactions of a write, each in turn, with whatever strays. In the end the home
   blocks are those of the last disk of its trail.
   */
  method WriteThrough(log: FsLog, ts: seq<Log.Txn>, qs: seq<seq<Stray>>, ghost others: set<nat>, ghost g: Super,
                      ghost d: Disk, ghost snaps: seq<Disk>, ghost ops: seq<set<nat>>, ghost i: nat, ghost off: nat,
                      ghost src: seq<Byte>)
    requires Shape(g, d) && i < g.ninodes && Trail(g, d, snaps, ops, i, off, src)
    requires Before(g, log.l) && MAXOPBLOCKS < log.l.size && |log.cache.disk| == g.size
    requires log.Valid() && Log.Empty(log.l, log.cache.disk) && log.lh == [] && log.cache.HeldBlocks() == {}
    requires Log.Home(log.l, log.cache.disk) == OnDisk(g, log.l, d)
    requires |ts| == |qs| == |ops| && forall k :: 0 <= k < |ops| ==> Carries(g, log.l, snaps, ops, ts[k], qs[k], k)
    requires |others| + MAXOPBLOCKS < NBUF && forall b: nat :: log.cache.Refs(b) > log.Due(b) ==> b in others
    modifies log, log.cache
    ensures log.Valid() && Log.Empty(log.l, log.cache.disk) && log.lh == []
    ensures Shape(g, snaps[|ops|]) && Log.Home(log.l, log.cache.disk) == OnDisk(g, log.l, snaps[|ops|])
  {
    hide Log.Empty, Log.StandsFor, Log.Home, Log.Effect, OnDisk, HeldIn, Trail, FsLog.Valid, Shape, TxnOf, Carries;
    TrailFacts(g, d, snaps, ops, i, off, src);
    var k := 0;
    while k < |ts|
      invariant k <= |ts| && |log.cache.disk| == g.size
      invariant log.Valid() && Log.Empty(log.l, log.cache.disk) && log.lh == [] && log.cache.HeldBlocks() == {}
      invariant Log.Home(log.l, log.cache.disk) == OnDisk(g, log.l, snaps[k])
      invariant forall b: nat :: log.cache.Refs(b) > log.Due(b) ==> b in others
    {
      TrailChains(g, log.l, d, snaps, ops, i, off, src, k);
      CarriesOk(g, log.l, snaps, ops, ts[k], qs[k], k);
      var ok := CommitTxn(log, ts[k], qs[k], others);
      HomeSize(log.l, log.cache.disk);
      k := k + 1;
    }
  }

  lemma HomeSize(l: Log.Layout, d: seq<Block>)
    ensures |Log.Home(l, d)| == |d|
  {
  }

  /** This is the k-th transaction of the trail, and these are strays beside it. */
  ghost predicate Carries(g: Super, l: Log.Layout, snaps: seq<Disk>, ops: seq<set<nat>>, t: Log.Txn, q: seq<Stray>,
                          k: nat) {
    && k < |ops| && k + 1 < |snaps| && Shape(g, snaps[k + 1]) && Inside(g, ops[k])
    && t == TxnOf(g, l, snaps[k + 1], ops[k]) && StraysOk(l, g.size, t, q)
  }

  lemma CarriesOk(g: Super, l: Log.Layout, snaps: seq<Disk>, ops: seq<set<nat>>, t: Log.Txn, q: seq<Stray>, k: nat)
    requires Carries(g, l, snaps, ops, t, q, k)
    ensures k + 1 < |snaps| && Shape(g, snaps[k + 1]) && k < |ops| && Inside(g, ops[k])
    ensures t == TxnOf(g, l, snaps[k + 1], ops[k]) && StraysOk(l, g.size, t, q)
    ensures NoRepeats(t.blocks) && |t.blocks| == |ops[k]|
  {
  }
}
