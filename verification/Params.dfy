/**
 The sizes that kernel and mkfs share (kernel/param.h), and the width of a counter.
 */
module Params {

  /** The most blocks that one file system operation may write. */
  const MAXOPBLOCKS: nat := 10

  const LOGSIZE: nat := 30
  const NBUF: nat := 30
  const FSSIZE: nat := 1000

  /** One more than the largest 32-bit unsigned number. */
  const UINT: nat := 0x1_0000_0000
}

/**
 Sequences in which nothing occurs twice.
 */
module Sequences {

  ghost predicate NoRepeats<T>(s: seq<T>) {
    forall i, j :: 0 <= i < j < |s| ==> s[i] != s[j]
  }

  lemma {:induction false} NoRepeatsFits<T>(q: seq<T>, s: set<T>)
    requires NoRepeats(q) && forall k :: 0 <= k < |q| ==> q[k] in s
    ensures |q| <= |s|
  {
    if q != [] {
      var n := |q| - 1;
      NoRepeatsFits(q[..n], s - {q[n]});
    }
  }
}
