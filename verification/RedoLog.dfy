/**
 The redo log of kernel/log.c, over the buffer cache.

 A disk stands for the home blocks it will have once its log is replayed
 (`Recovered`). Every single block write of a commit or of a recovery leaves that
 abstract disk as it was, except the first header write of a commit, which applies
 the whole transaction at once. Whole runs, with crashes anywhere, follow.
 */
module RedoLog {
  import opened Blocks
  import opened BufferCache
  import opened Params

  type Disk = seq<Block>

  /** The log occupies blocks start (the header) to start + size - 1. */
  datatype Layout = Layout(start: nat, size: nat)

  predicate InLog(l: Layout, b: int) {
    l.start <= b < l.start + l.size
  }

  // ---------------------------------------------------------------- writing blocks

  function Store(d: Disk, w: Write): Disk {
    if w.blockno < |d| then d[w.blockno := w.data] else d
  }

  /** The disk after a sequence of block writes, in order. */
  function Apply(d: Disk, ws: seq<Write>): (r: Disk)
    ensures |r| == |d|
  {
    if ws == [] then d else Store(Apply(d, ws[..|ws| - 1]), ws[|ws| - 1])
  }

  lemma {:induction false} ApplyConcat(d: Disk, a: seq<Write>, b: seq<Write>)
    ensures Apply(d, a + b) == Apply(Apply(d, a), b)
  {
    if b == [] {
      assert a + b == a;
    } else {
      ApplyConcat(d, a, b[..|b| - 1]);
      assert (a + b)[..|a + b| - 1] == a + b[..|b| - 1];
    }
  }

  lemma {:induction false} ApplyElsewhere(d: Disk, ws: seq<Write>, b: nat)
    requires b < |d| && forall w :: w in ws ==> w.blockno != b
    ensures Apply(d, ws)[b] == d[b]
  {
    if ws != [] {
      assert ws[|ws| - 1] in ws;
      ApplyElsewhere(d, ws[..|ws| - 1], b);
    }
  }

  /** A block that will be overwritten anyway may as well hold anything. */
  lemma {:induction false} ApplyAbsorbs(d: Disk, ws: seq<Write>, b: nat, x: Block)
    requires b < |d|
    requires exists w :: w in ws && w.blockno == b
    ensures Apply(d[b := x], ws) == Apply(d, ws)
  {
    var last, front := ws[|ws| - 1], ws[..|ws| - 1];
    if exists w :: w in front && w.blockno == b {
      ApplyAbsorbs(d, front, b, x);
    } else {
      assert last.blockno == b by {
        var w :| w in ws && w.blockno == b;
        assert w in front || w == last;
      }
      ApplyDiffers(d, front, b, x);
    }
  }

  lemma {:induction false} ApplyDiffers(d: Disk, ws: seq<Write>, b: nat, x: Block)
    requires b < |d| && forall w :: w in ws ==> w.blockno != b
    ensures Apply(d[b := x], ws) == Apply(d, ws)[b := x]
  {
    if ws != [] {
      assert ws[|ws| - 1] in ws;
      ApplyDiffers(d, ws[..|ws| - 1], b, x);
    }
  }

  // ---------------------------------------------------------------- the header block

  function PutEntries(b: Block, bs: seq<Word>): (r: Block)
    requires |bs| < WORDS
    ensures forall i :: 0 <= i < |bs| ==> WordAt(r, i + 1) == bs[i]
    ensures WordAt(r, 0) == WordAt(b, 0)
  {
    hide WordAt, PutWord;
    if bs == [] then b
    else
      var m := |bs|;
      var front := PutEntries(b, bs[..m - 1]);
      assert forall i :: 0 <= i < m - 1 ==> WordAt(front, i + 1) == bs[..m - 1][i] == bs[i];
      PutWord(front, m, bs[m - 1])
  }

  /** The header block after its count and entries are overwritten. */
  function PutHeader(b: Block, bs: seq<Word>): (r: Block)
    requires |bs| < WORDS
    ensures WordAt(r, 0) == |bs|
    ensures forall i :: 0 <= i < |bs| ==> WordAt(r, i + 1) == bs[i]
  {
    PutEntries(PutWord(b, 0, |bs|), bs)
  }

  /** The header on disk is one that write_head could have written. */
  ghost predicate LogOk(l: Layout, d: Disk)
    ensures LogOk(l, d) ==> 0 < l.size && l.start + l.size <= |d| <= 0x1_0000_0000
    ensures LogOk(l, d) ==> WordAt(d[l.start], 0) <= LOGSIZE && WordAt(d[l.start], 0) < l.size
  {
    && 0 < l.size && l.start + l.size <= |d| <= 0x1_0000_0000
    && WordAt(d[l.start], 0) <= LOGSIZE && WordAt(d[l.start], 0) < l.size
    && forall i :: 0 <= i < WordAt(d[l.start], 0) ==> HomeEntry(l, d, i)
  }

  predicate HomeEntry(l: Layout, d: Disk, i: int)
    requires l.start < |d| && 0 <= i < WORDS - 1
  {
    WordAt(d[l.start], i + 1) < |d| && !InLog(l, WordAt(d[l.start], i + 1))
  }

  /** The block numbers the header lists. */
  function Logged(l: Layout, d: Disk): (bs: seq<Word>)
    requires l.start < |d| && WordAt(d[l.start], 0) < WORDS
  {
    seq(WordAt(d[l.start], 0), i requires 0 <= i < WordAt(d[l.start], 0) => WordAt(d[l.start], i + 1))
  }

  /** The first n log blocks. */
  function Slots(l: Layout, d: Disk, n: nat): (r: seq<Block>)
    requires l.start + n < |d|
    ensures |r| == n
  {
    seq(n, i requires 0 <= i < n => d[l.start + 1 + i])
  }

  function Installs(bs: seq<Word>, data: seq<Block>): (ws: seq<Write>)
    requires |bs| == |data|
    ensures |ws| == |bs| && forall i :: 0 <= i < |bs| ==> ws[i] == Write(bs[i], data[i])
  {
    seq(|bs|, i requires 0 <= i < |bs| => Write(bs[i], data[i]))
  }

  // ---------------------------------------------------------------- what a disk stands for

  /** The home blocks; the log area is of no account. */
  function Home(l: Layout, d: Disk): (r: Disk)
    ensures |r| == |d|
  {
    seq(|d|, b requires 0 <= b < |d| => if InLog(l, b) then ZERO else d[b])
  }

  /** The home blocks after the log is replayed. */
  ghost function Recovered(l: Layout, d: Disk): Disk
    requires LogOk(l, d)
  {
    var bs := Logged(l, d);
    Home(l, Apply(d, Installs(bs, Slots(l, d, |bs|))))
  }

  /** The log of d is in order, and replaying it gives the home blocks a. */
  ghost predicate StandsFor(l: Layout, d: Disk, a: Disk) {
    LogOk(l, d) && Recovered(l, d) == a
  }

  ghost predicate Empty(l: Layout, d: Disk) {
    LogOk(l, d) && WordAt(d[l.start], 0) == 0
  }

  lemma {:induction false} HomeApply(l: Layout, d: Disk, ws: seq<Write>)
    requires forall w :: w in ws ==> !InLog(l, w.blockno)
    ensures Home(l, Apply(d, ws)) == Apply(Home(l, d), ws)
  {
    hide WordAt, PutWord, PutHeader, PutEntries;
    if ws != [] {
      var front, w := ws[..|ws| - 1], ws[|ws| - 1];
      assert w in ws;
      HomeApply(l, d, front);
      assert Home(l, Store(Apply(d, front), w)) == Store(Home(l, Apply(d, front)), w);
    }
  }

  lemma EmptyRecovered(l: Layout, d: Disk)
    requires Empty(l, d)
    ensures Recovered(l, d) == Home(l, d)
  {
    hide WordAt, PutWord, PutHeader, PutEntries;
    assert Installs(Logged(l, d), Slots(l, d, 0)) == [];
  }

  /** Disks that agree on their home blocks and on what their log says are the same disk. */
  lemma RecoveredByParts(l: Layout, d: Disk, bs: seq<Word>, data: seq<Block>)
    requires LogOk(l, d) && Logged(l, d) == bs && |bs| == |data| && Slots(l, d, |bs|) == data
    ensures forall w :: w in Installs(bs, data) ==> !InLog(l, w.blockno) && w.blockno < |d|
    ensures Recovered(l, d) == Apply(Home(l, d), Installs(bs, data))
  {
    hide WordAt, PutWord, PutHeader, PutEntries;
    forall i | 0 <= i < |bs|
      ensures bs[i] < |d| && !InLog(l, bs[i])
    {
      assert HomeEntry(l, d, i);
    }
    HomeApply(l, d, Installs(bs, data));
  }

  // ---------------------------------------------------------------- transactions

  /** What a commit writes home: the listed blocks, with their cached contents. */
  datatype Txn = Txn(blocks: seq<Word>, data: seq<Block>)

  ghost predicate TxnOk(l: Layout, n: nat, t: Txn) {
    && |t.blocks| == |t.data| <= LOGSIZE && |t.blocks| < l.size
    && forall i :: 0 <= i < |t.blocks| ==> t.blocks[i] < n && !InLog(l, t.blocks[i])
  }

  ghost function Effect(a: Disk, t: Txn): Disk
    requires |t.blocks| == |t.data|
  {
    Apply(a, Installs(t.blocks, t.data))
  }

  function LogWrites(l: Layout, data: seq<Block>): (ws: seq<Write>)
    ensures |ws| == |data| && forall i :: 0 <= i < |data| ==> ws[i] == Write(l.start + 1 + i, data[i])
  {
    seq(|data|, i requires 0 <= i < |data| => Write(l.start + 1 + i, data[i]))
  }

  function HeadWrite(l: Layout, head: Block, bs: seq<Word>): Write
    requires |bs| < WORDS
  {
    Write(l.start, PutHeader(head, bs))
  }

  /** The block writes of commit, when the header block holds `head` before. */
  function CommitWrites(l: Layout, head: Block, t: Txn): seq<Write>
    requires |t.blocks| == |t.data| < WORDS
  {
    if |t.blocks| == 0 then []
    else
      LogWrites(l, t.data)
      + [HeadWrite(l, head, t.blocks)]
      + Installs(t.blocks, t.data)
      + [HeadWrite(l, PutHeader(head, t.blocks), [])]
  }

  /** The block writes of recover_from_log. */
  function RecoveryWrites(l: Layout, d: Disk): seq<Write>
    requires l.start < |d| && WordAt(d[l.start], 0) < WORDS && l.start + WordAt(d[l.start], 0) < |d|
  {
    var bs := Logged(l, d);
    Installs(bs, Slots(l, d, |bs|)) + [HeadWrite(l, d[l.start], [])]
  }

  // ---------------------------------------------------------------- single writes

  /** With an empty log, writing a log block changes nothing. */
  lemma SlotWrite(l: Layout, d: Disk, i: nat, x: Block)
    requires Empty(l, d) && i + 1 < l.size
    ensures Empty(l, Store(d, Write(l.start + 1 + i, x)))
    ensures Recovered(l, Store(d, Write(l.start + 1 + i, x))) == Recovered(l, d)
  {
    hide WordAt, PutWord, PutHeader, PutEntries;
    var d' := Store(d, Write(l.start + 1 + i, x));
    EmptyRecovered(l, d);
    EmptyRecovered(l, d');
    assert Home(l, d') == Home(l, d);
  }

  /** The header write lists the transaction's blocks and leaves the rest of the disk. */
  lemma HeaderWritten(l: Layout, d: Disk, t: Txn, head: Block)
    requires Empty(l, d) && TxnOk(l, |d|, t)
    ensures var d' := Store(d, HeadWrite(l, head, t.blocks));
            LogOk(l, d') && Logged(l, d') == t.blocks && Slots(l, d', |t.blocks|) == Slots(l, d, |t.blocks|) &&
            Home(l, d') == Home(l, d)
  {
    hide WordAt, PutWord, PutHeader, PutEntries;
    var d' := Store(d, HeadWrite(l, head, t.blocks));
    assert Logged(l, d') == t.blocks;
    forall i | 0 <= i < |t.blocks|
      ensures HomeEntry(l, d', i)
    {
      assert Logged(l, d')[i] == t.blocks[i];
    }
  }

  /** The commit point: the whole transaction takes effect in one write. */
  lemma CommitPoint(l: Layout, d: Disk, t: Txn, head: Block)
    requires Empty(l, d) && TxnOk(l, |d|, t) && Slots(l, d, |t.blocks|) == t.data
    ensures var d' := Store(d, HeadWrite(l, head, t.blocks));
            LogOk(l, d') && Logged(l, d') == t.blocks && Slots(l, d', |t.blocks|) == t.data
    ensures Recovered(l, Store(d, HeadWrite(l, head, t.blocks))) == Effect(Recovered(l, d), t)
  {
    hide WordAt, PutWord, PutHeader, PutEntries, LogOk, Apply;
    HeaderWritten(l, d, t, head);
    RecoveredByParts(l, Store(d, HeadWrite(l, head, t.blocks)), t.blocks, t.data);
    EmptyRecovered(l, d);
  }

  /** Installing any listed block, with any content at all, changes nothing. */
  lemma InstallStep(l: Layout, d: Disk, i: nat, x: Block)
    requires LogOk(l, d) && i < |Logged(l, d)|
    ensures var d' := Store(d, Write(Logged(l, d)[i], x));
            LogOk(l, d') && Logged(l, d') == Logged(l, d) &&
            Slots(l, d', |Logged(l, d)|) == Slots(l, d, |Logged(l, d)|) && d'[l.start] == d[l.start]
    ensures Recovered(l, Store(d, Write(Logged(l, d)[i], x))) == Recovered(l, d)
  {
    hide WordAt, PutWord, PutHeader, PutEntries;
    var bs := Logged(l, d);
    var data := Slots(l, d, |bs|);
    assert HomeEntry(l, d, i);
    var d' := Store(d, Write(bs[i], x));
    assert d'[l.start] == d[l.start];
    assert Logged(l, d') == bs && Slots(l, d', |bs|) == data;
    forall j | 0 <= j < |bs|
      ensures HomeEntry(l, d', j)
    {
      assert HomeEntry(l, d, j);
    }
    RecoveredByParts(l, d, bs, data);
    RecoveredByParts(l, d', bs, data);
    assert Home(l, d') == Home(l, d)[bs[i] := x];
    assert Installs(bs, data)[i].blockno == bs[i];
    ApplyAbsorbs(Home(l, d), Installs(bs, data), bs[i], x);
  }

  /** Once everything is installed, erasing the header changes nothing. */
  lemma EraseHeader(l: Layout, d: Disk, head: Block)
    requires LogOk(l, d) && Recovered(l, d) == Home(l, d)
    ensures Empty(l, Store(d, HeadWrite(l, head, [])))
    ensures Recovered(l, Store(d, HeadWrite(l, head, []))) == Recovered(l, d)
  {
    hide WordAt, PutWord, PutHeader, PutEntries;
    var d' := Store(d, HeadWrite(l, head, []));
    EmptyRecovered(l, d');
    assert Home(l, d') == Home(l, d);
  }

  // ---------------------------------------------------------------- prefixes of the write sequences

  lemma {:induction false} SlotPrefix(l: Layout, d: Disk, data: seq<Block>, k: nat)
    requires Empty(l, d) && |data| < l.size && k <= |data|
    ensures var d' := Apply(d, LogWrites(l, data)[..k]);
            StandsFor(l, d', Recovered(l, d)) && Empty(l, d') && Slots(l, d', k) == data[..k]
                && d'[l.start] == d[l.start]
  {
    hide WordAt, PutWord, PutHeader, PutEntries;
    if k == 0 {
      assert LogWrites(l, data)[..0] == [] && Slots(l, d, 0) == data[..0];
    } else {
      SlotPrefix(l, d, data, k - 1);
      var ws := LogWrites(l, data);
      assert ws[..k][..k - 1] == ws[..k - 1];
      var d1 := Apply(d, ws[..k - 1]);
      SlotWrite(l, d1, k - 1, data[k - 1]);
      var d' := Store(d1, ws[k - 1]);
      forall i | 0 <= i < k
        ensures Slots(l, d', k)[i] == data[i]
      {
        if i < k - 1 {
          assert Slots(l, d1, k - 1)[i] == data[i];
        }
      }
      assert Slots(l, d', k) == data[..k];
    }
  }

  lemma {:induction false} InstallPrefix(l: Layout, d: Disk, data: seq<Block>, k: nat)
    requires LogOk(l, d) && |data| == |Logged(l, d)| && k <= |data|
    ensures var d' := Apply(d, Installs(Logged(l, d), data)[..k]);
            LogOk(l, d') && Recovered(l, d') == Recovered(l, d) && d'[l.start] == d[l.start] &&
            Logged(l, d') == Logged(l, d) && Slots(l, d', |data|) == Slots(l, d, |data|)
  {
    hide WordAt, PutWord, PutHeader, PutEntries;
    var bs := Logged(l, d);
    var ws := Installs(bs, data);
    if k == 0 {
      assert ws[..0] == [];
    } else {
      InstallPrefix(l, d, data, k - 1);
      assert ws[..k][..k - 1] == ws[..k - 1];
      InstallStep(l, Apply(d, ws[..k - 1]), k - 1, data[k - 1]);
    }
  }

  /** After the whole log is installed, the home blocks are what the disk stood for. */
  lemma Installed(l: Layout, d: Disk)
    requires LogOk(l, d)
    ensures var bs := Logged(l, d);
            var d' := Apply(d, Installs(bs, Slots(l, d, |bs|)));
            LogOk(l, d') && Recovered(l, d') == Home(l, d') == Recovered(l, d) && d'[l.start] == d[l.start]
  {
    hide WordAt, PutWord, PutHeader, PutEntries;
    var bs := Logged(l, d);
    var data := Slots(l, d, |bs|);
    InstallPrefix(l, d, data, |bs|);
    assert Installs(bs, data)[..|bs|] == Installs(bs, data);
  }

  // ---------------------------------------------------------------- crashes

  /**
   A crash after any number k of the writes of a recovery: the disk still stands
   for the same home blocks, so recovery can simply be run again.
   */
  lemma CrashInRecovery(l: Layout, d: Disk, k: nat)
    requires LogOk(l, d) && k <= |RecoveryWrites(l, d)|
    ensures StandsFor(l, Apply(d, RecoveryWrites(l, d)[..k]), Recovered(l, d))
    ensures k == |RecoveryWrites(l, d)| ==> Empty(l, Apply(d, RecoveryWrites(l, d)[..k]))
  {
    hide WordAt, PutWord, PutHeader, PutEntries, Recovered;
    var bs := Logged(l, d);
    var data := Slots(l, d, |bs|);
    var ws := RecoveryWrites(l, d);
    if k <= |bs| {
      InstallPrefix(l, d, data, k);
      assert ws[..k] == Installs(bs, data)[..k];
    } else {
      Installed(l, d);
      EraseHeader(l, Apply(d, Installs(bs, data)), d[l.start]);
      assert ws[..k] == ws && ws[..|ws| - 1] == Installs(bs, data);
    }
  }

  /**
   A crash after any number k of the writes of a commit: all or nothing, and all
   exactly when the first header write is among them.
   */
  lemma CrashInCommit(l: Layout, d: Disk, t: Txn, k: nat)
    requires Empty(l, d) && TxnOk(l, |d|, t) && k <= |CommitWrites(l, d[l.start], t)|
    ensures StandsFor(l, Apply(d, CommitWrites(l, d[l.start], t)[..k]),
                      if k > |t.blocks| then Effect(Recovered(l, d), t) else Recovered(l, d))
    ensures k == |CommitWrites(l, d[l.start], t)| ==> Empty(l, Apply(d, CommitWrites(l, d[l.start], t)[..k]))
  {
    hide WordAt, PutWord, PutHeader, PutEntries, LogOk, Recovered;
    var n := |t.blocks|;
    if n == 0 {
      assert CommitWrites(l, d[l.start], t)[..k] == [];
    } else if k <= n {
      CrashBeforeCommitPoint(l, d, t, k);
    } else if k <= 2 * n + 1 {
      CrashWhileInstalling(l, d, t, k);
    } else {
      WholeCommit(l, d, t);
      assert CommitWrites(l, d[l.start], t)[..k] == CommitWrites(l, d[l.start], t);
    }
  }

  lemma CrashBeforeCommitPoint(l: Layout, d: Disk, t: Txn, k: nat)
    requires Empty(l, d) && TxnOk(l, |d|, t) && t.blocks != [] && k <= |t.blocks|
    ensures StandsFor(l, Apply(d, CommitWrites(l, d[l.start], t)[..k]), Recovered(l, d))
  {
    hide WordAt, PutWord, PutHeader, PutEntries, LogOk, Recovered;
    SlotPrefix(l, d, t.data, k);
    assert CommitWrites(l, d[l.start], t)[..k] == LogWrites(l, t.data)[..k];
  }

  lemma CrashWhileInstalling(l: Layout, d: Disk, t: Txn, k: nat)
    requires Empty(l, d) && TxnOk(l, |d|, t) && t.blocks != [] && |t.blocks| < k <= 2 * |t.blocks| + 1
    ensures StandsFor(l, Apply(d, CommitWrites(l, d[l.start], t)[..k]), Effect(Recovered(l, d), t))
  {
    hide WordAt, PutWord, PutHeader, PutEntries, LogOk, Recovered, Apply, Installs, LogWrites, HeadWrite;
    var head, j := d[l.start], k - |t.blocks| - 1;
    var a := LogWrites(l, t.data) + [HeadWrite(l, head, t.blocks)];
    var b := Installs(t.blocks, t.data);
    AfterCommitPoint(l, d, t, head);
    InstallPrefix(l, Apply(d, a), t.data, j);
    ApplyConcat(d, a, b[..j]);
    PrefixInto(a, b, [HeadWrite(l, PutHeader(head, t.blocks), [])], j);
  }

  lemma PrefixInto<T>(a: seq<T>, b: seq<T>, c: seq<T>, j: nat)
    requires j <= |b|
    ensures (a + b + c)[..|a| + j] == a + b[..j]
  {
  }

  lemma WholeCommit(l: Layout, d: Disk, t: Txn)
    requires Empty(l, d) && TxnOk(l, |d|, t) && t.blocks != []
    ensures var d' := Apply(d, CommitWrites(l, d[l.start], t));
            Empty(l, d') && StandsFor(l, d', Effect(Recovered(l, d), t))
  {
    hide WordAt, PutWord, PutHeader, PutEntries, LogOk, Recovered;
    var head, ws := d[l.start], CommitWrites(l, d[l.start], t);
    var a := LogWrites(l, t.data) + [HeadWrite(l, head, t.blocks)];
    AfterCommitPoint(l, d, t, head);
    Installed(l, Apply(d, a));
    ApplyConcat(d, a, Installs(t.blocks, t.data));
    EraseHeader(l, Apply(d, a + Installs(t.blocks, t.data)), PutHeader(head, t.blocks));
    assert ws[..|ws| - 1] == a + Installs(t.blocks, t.data);
  }

  lemma AfterCommitPoint(l: Layout, d: Disk, t: Txn, head: Block)
    requires Empty(l, d) && TxnOk(l, |d|, t)
    ensures var d' := Apply(d, LogWrites(l, t.data) + [HeadWrite(l, head, t.blocks)]);
            LogOk(l, d') && Logged(l, d') == t.blocks && Slots(l, d', |t.blocks|) == t.data &&
            Recovered(l, d') == Effect(Recovered(l, d), t) && d'[l.start] == PutHeader(head, t.blocks)
  {
    hide WordAt, PutWord, PutHeader, PutEntries, LogOk, Recovered;
    var ws := LogWrites(l, t.data);
    SlotPrefix(l, d, t.data, |t.data|);
    assert ws[..|t.data|] == ws && t.data[..|t.data|] == t.data;
    CommitPoint(l, Apply(d, ws), t, head);
    assert (ws + [HeadWrite(l, head, t.blocks)])[..|ws|] == ws;
  }

  // ---------------------------------------------------------------- whole runs

  /**
   One thing that happens to the disk: a transaction is committed, or the machine
   stops after `k` block writes of its commit, and then restarts as often as it
   takes, the i-th recovery stopping after retries[i] block writes and the last
   one finishing.
   */
  datatype Event = Commit(t: Txn) | Crash(t: Txn, k: nat, retries: seq<nat>)

  ghost function Recoveries(l: Layout, d: Disk, retries: seq<nat>): Disk
    requires LogOk(l, d)
    decreases |retries|
  {
    var ws := RecoveryWrites(l, d);
    if retries == [] then Apply(d, ws)
    else
      var k := if retries[0] <= |ws| then retries[0] else |ws|;
      CrashInRecovery(l, d, k);
      Recoveries(l, Apply(d, ws[..k]), retries[1..])
  }

  ghost predicate EventsOk(l: Layout, n: nat, es: seq<Event>) {
    forall i :: 0 <= i < |es| ==> EventOk(l, n, es[i])
  }

  ghost predicate EventOk(l: Layout, n: nat, e: Event) {
    TxnOk(l, n, e.t)
  }

  /** The disk after an event. */
  ghost function After(l: Layout, d: Disk, e: Event): Disk
    requires Empty(l, d) && EventOk(l, |d|, e)
  {
    var ws := CommitWrites(l, d[l.start], e.t);
    match e
    case Commit(_) => Apply(d, ws)
    case Crash(t, k, retries) =>
      var k' := if k <= |ws| then k else |ws|;
      CrashInCommit(l, d, t, k');
      Recoveries(l, Apply(d, ws[..k']), retries)
  }

  /** Did the event's transaction reach its commit point? */
  predicate Commits(e: Event) {
    e.t.blocks != [] && (e.Commit? || e.k > |e.t.blocks|)
  }

  /** What a run amounts to: the committed transactions, in order. */
  ghost function Net(a: Disk, es: seq<Event>): Disk
    requires forall i :: 0 <= i < |es| ==> |es[i].t.blocks| == |es[i].t.data|
    decreases |es|
  {
    if es == [] then a
    else Net(if Commits(es[0]) then Effect(a, es[0].t) else a, es[1..])
  }

  lemma {:induction false} RecoveriesSafe(l: Layout, d: Disk, retries: seq<nat>)
    requires LogOk(l, d)
    ensures Empty(l, Recoveries(l, d, retries))
    ensures Recovered(l, Recoveries(l, d, retries)) == Recovered(l, d)
    decreases |retries|
  {
    hide WordAt, PutWord, PutHeader, PutEntries, LogOk, Recovered;
    var ws := RecoveryWrites(l, d);
    if retries == [] {
      CrashInRecovery(l, d, |ws|);
      assert ws[..|ws|] == ws;
    } else {
      var k := if retries[0] <= |ws| then retries[0] else |ws|;
      CrashInRecovery(l, d, k);
      RecoveriesSafe(l, Apply(d, ws[..k]), retries[1..]);
    }
  }

  lemma AfterSafe(l: Layout, d: Disk, e: Event)
    requires Empty(l, d) && EventOk(l, |d|, e)
    ensures Empty(l, After(l, d, e)) && |After(l, d, e)| == |d|
    ensures Home(l, After(l, d, e)) == if Commits(e) then Effect(Home(l, d), e.t) else Home(l, d)
  {
    hide WordAt, PutWord, PutHeader, PutEntries, LogOk, Recovered;
    var ws := CommitWrites(l, d[l.start], e.t);
    EmptyRecovered(l, d);
    var k := if e.Commit? || e.k > |ws| then |ws| else e.k;
    CrashInCommit(l, d, e.t, k);
    assert ws[..|ws|] == ws;
    if e.Crash? {
      RecoveriesSafe(l, Apply(d, ws[..k]), e.retries);
    }
    if e.t.blocks == [] {
      assert Installs(e.t.blocks, e.t.data) == [];
    }
    EmptyRecovered(l, After(l, d, e));
    assert |Home(l, After(l, d, e))| == |Home(l, d)|;
  }

  ghost function Run(l: Layout, d: Disk, es: seq<Event>): Disk
    requires Empty(l, d) && EventsOk(l, |d|, es)
    decreases |es|
  {
    if es == [] then d
    else
      AfterSafe(l, d, es[0]);
      Run(l, After(l, d, es[0]), es[1..])
  }

  /**
   Crash atomicity over whole runs: whatever transactions are tried, wherever the
   machine stops, and however often recovery itself is cut short, the home blocks
   end up as if exactly the transactions that reached their commit point had been
   applied whole, in order, and nothing else had happened.
   */
  lemma {:induction false} RunsAreAtomic(l: Layout, d: Disk, es: seq<Event>)
    requires Empty(l, d) && EventsOk(l, |d|, es)
    ensures Empty(l, Run(l, d, es))
    ensures Home(l, Run(l, d, es)) == Net(Home(l, d), es)
    decreases |es|
  {
    hide WordAt, PutWord, PutHeader, PutEntries, LogOk, Recovered;
    if es != [] {
      AfterSafe(l, d, es[0]);
      RunsAreAtomic(l, After(l, d, es[0]), es[1..]);
    }
  }
}
