/**
 How kernel/log.c admits file system operations to the log: begin_op, end_op and
 log_write, by any number of processes in any order.

 Each step is what one process does while it holds the log's spin lock. The
 question is when the log can overflow: with a budget of new blocks per
 operation, exactly the budgets below MAXOPBLOCKS are safe on the layout mkfs
 makes.
 */
module LogAdmission {
  import opened Params
  import opened Sequences

  /** The size of the log area, header included, that mkfs puts in the superblock. */
  const NLOG: nat := LOGSIZE

  /** Where a process stands with the log; an operation counts the blocks it added. */
  datatype Op = Outside | Asleep | Active(used: nat) | Committing

  datatype Log = Log(ops: seq<Op>, outstanding: int, committing: bool, lh: seq<nat>, panic: bool)

  datatype Action = BeginOp(p: nat) | LogWrite(p: nat, b: nat) | EndOp(p: nat) | Committed(p: nat)

  function Init(nproc: nat): Log {
    Log(seq(nproc, i => Outside), 0, false, [], false)
  }

  /** wakeup(&log): every sleeper goes back to the test in begin_op. */
  function Wake(ops: seq<Op>): (r: seq<Op>)
    ensures |r| == |ops| && forall i :: 0 <= i < |ops| ==> r[i] == if ops[i].Asleep? then Outside else ops[i]
  {
    seq(|ops|, i requires 0 <= i < |ops| => if ops[i].Asleep? then Outside else ops[i])
  }

  predicate Full(s: Log) {
    |s.lh| >= LOGSIZE || |s.lh| >= NLOG - 1
  }

  /** Is the action one the process can take next, adding at most `budget` blocks per operation? */
  predicate Enabled(s: Log, a: Action, budget: nat) {
    && !s.panic && a.p < |s.ops|
    && match a
       case BeginOp(p) => s.ops[p].Outside?
       case LogWrite(p, b) => s.ops[p].Active? && (b in s.lh || s.ops[p].used < budget)
       case EndOp(p) => s.ops[p].Active?
       case Committed(p) => s.ops[p].Committing?
  }

  function Do(s: Log, a: Action): Log
    requires a.p < |s.ops|
  {
    match a
    case BeginOp(p) =>
      if s.committing then s.(ops := s.ops[p := Asleep])
      else if |s.lh| + (s.outstanding + 1) * MAXOPBLOCKS > LOGSIZE then s.(ops := s.ops[p := Asleep])
      else s.(outstanding := s.outstanding + 1, ops := s.ops[p := Active(0)])
    case LogWrite(p, b) =>
      if Full(s) || s.outstanding < 1 then s.(panic := true)
      else if b in s.lh then s
      else s.(lh := s.lh + [b], ops := s.ops[p := match s.ops[p] case Active(n) => Active(n + 1) case o => o])
    case EndOp(p) =>
      if s.committing then s.(outstanding := s.outstanding - 1, panic := true)
      else if s.outstanding - 1 == 0 then s.(outstanding := 0, committing := true, ops := s.ops[p := Committing])
      else s.(outstanding := s.outstanding - 1, ops := Wake(s.ops[p := Outside]))
    case Committed(p) =>
      s.(lh := [], committing := false, ops := Wake(s.ops[p := Outside]))
  }

  ghost predicate IsRun(s: Log, run: seq<Action>, budget: nat)
    decreases |run|
  {
    run != [] ==> Enabled(s, run[0], budget) && IsRun(Do(s, run[0]), run[1..], budget)
  }

  ghost function End(s: Log, run: seq<Action>, budget: nat): Log
    requires IsRun(s, run, budget)
    decreases |run|
  {
    if run == [] then s else End(Do(s, run[0]), run[1..], budget)
  }

  // ---------------------------------------------------------------- counting

  function Weight(o: Op, w: int): int {
    match o
    case Active(n) => w - n
    case _ => 0
  }

  /** The sum of w - used over the active operations. */
  function Room(ops: seq<Op>, w: int): int {
    if ops == [] then 0 else Room(ops[..|ops| - 1], w) + Weight(ops[|ops| - 1], w)
  }

  function Ones(o: Op): int {
    if o.Active? then 1 else 0
  }

  function Count(ops: seq<Op>): (n: int)
    ensures n >= 0
  {
    if ops == [] then 0 else Count(ops[..|ops| - 1]) + Ones(ops[|ops| - 1])
  }

  lemma {:induction false} Update(ops: seq<Op>, p: nat, o: Op, w: int)
    requires p < |ops|
    ensures Room(ops[p := o], w) == Room(ops, w) - Weight(ops[p], w) + Weight(o, w)
    ensures Count(ops[p := o]) == Count(ops) - Ones(ops[p]) + Ones(o)
  {
    var n := |ops| - 1;
    if p == n {
      assert ops[p := o][..n] == ops[..n];
    } else {
      Update(ops[..n], p, o, w);
      assert ops[p := o][..n] == ops[..n][p := o];
    }
  }

  lemma {:induction false} WakeKeeps(ops: seq<Op>, w: int)
    ensures Room(Wake(ops), w) == Room(ops, w) && Count(Wake(ops)) == Count(ops)
  {
    if ops != [] {
      var n := |ops| - 1;
      WakeKeeps(ops[..n], w);
      assert Wake(ops)[..n] == Wake(ops[..n]);
    }
  }

  lemma {:induction false} RoomBounds(ops: seq<Op>, w: int)
    requires forall i :: 0 <= i < |ops| && ops[i].Active? ==> ops[i].used <= w
    ensures 0 <= Room(ops, w) <= w * Count(ops)
    ensures forall i :: 0 <= i < |ops| && ops[i].Active? ==> w - ops[i].used <= Room(ops, w) && Count(ops) >= 1
  {
    if ops != [] {
      RoomBounds(ops[..|ops| - 1], w);
    }
  }

  lemma {:induction false} SomeActive(ops: seq<Op>)
    ensures Count(ops) > 0 <==> exists q :: 0 <= q < |ops| && ops[q].Active?
  {
    if ops != [] {
      var n := |ops| - 1;
      SomeActive(ops[..n]);
      if q :| 0 <= q < |ops| && ops[q].Active? {
        assert q < n ==> ops[..n][q].Active?;
      }
      if q :| 0 <= q < n && ops[..n][q].Active? {
        assert ops[q].Active?;
      }
    }
  }

  // ---------------------------------------------------------------- safety

  ghost predicate AtCommit(ops: seq<Op>) {
    exists p :: 0 <= p < |ops| && ops[p].Committing?
  }

  /** The operations outstanding are those active; a commit is running just when one process is at it. */
  ghost predicate Counted(s: Log) {
    && s.outstanding == Count(s.ops)
    && (s.committing ==> s.outstanding == 0)
    && (s.committing <==> AtCommit(s.ops))
    && (forall p, q :: 0 <= p < |s.ops| && 0 <= q < |s.ops| && s.ops[p].Committing? && s.ops[q].Committing? ==> p == q)
  }

  /** No sleeper is forgotten: someone is still to call wakeup. */
  ghost predicate NoLostSleeper(s: Log) {
    forall p :: 0 <= p < |s.ops| && s.ops[p].Asleep? ==> s.outstanding > 0 || s.committing
  }

  /** Would begin_op let one more operation in? */
  predicate Admits(s: Log) {
    !s.committing && |s.lh| + (s.outstanding + 1) * MAXOPBLOCKS <= LOGSIZE
  }

  /** Nobody sleeps whom begin_op would now let in. */
  ghost predicate NoIdleSleeper(s: Log) {
    forall p :: 0 <= p < |s.ops| && s.ops[p].Asleep? ==> !Admits(s)
  }

  ghost predicate Reserved(s: Log) {
    && (forall p :: 0 <= p < |s.ops| && s.ops[p].Active? ==> s.ops[p].used < MAXOPBLOCKS)
    && (s.outstanding > 0 ==> |s.lh| + Room(s.ops, MAXOPBLOCKS - 1) <= LOGSIZE - 2)
  }

  /** What every run keeps, whatever its operations log. */
  ghost predicate Core(s: Log) {
    && Counted(s) && NoLostSleeper(s) && NoIdleSleeper(s) && NoRepeats(s.lh)
    && (s.outstanding == 0 && !s.committing ==> s.lh == [])
  }

  ghost predicate Inv(s: Log) {
    !s.panic && Core(s) && Reserved(s)
  }

  lemma InitInv(nproc: nat)
    ensures Inv(Init(nproc))
  {
    CountOutside(nproc);
  }

  lemma {:induction false} CountOutside(n: nat)
    ensures Count(seq(n, i => Outside)) == 0
  {
    if n > 0 {
      CountOutside(n - 1);
      assert seq(n, i => Outside)[..n - 1] == seq(n - 1, i => Outside);
    }
  }

  lemma StepCore(s: Log, a: Action, budget: nat)
    requires Core(s) && Enabled(s, a, budget)
    ensures Core(Do(s, a))
  {
    match a
    case BeginOp(p) => BeginCore(s, p);
    case LogWrite(p, b) => WriteCore(s, p, b);
    case EndOp(p) => EndCore(s, p);
    case Committed(p) => CommittedCore(s, p);
  }

  lemma BeginCore(s: Log, p: nat)
    requires Core(s) && p < |s.ops| && s.ops[p].Outside?
    ensures Core(Do(s, BeginOp(p)))
  {
    Placed(s, p, if Admits(s) then Active(0) else Asleep);
    hide Counted;
  }

  /** A process that comes in, to work or to sleep, is counted. */
  lemma Placed(s: Log, p: nat, o: Op)
    requires Counted(s) && p < |s.ops| && s.ops[p].Outside?
    requires o.Asleep? || (o == Active(0) && !s.committing)
    ensures Counted(s.(ops := s.ops[p := o], outstanding := s.outstanding + Ones(o))) && s.outstanding >= 0
  {
    var ops := s.ops[p := o];
    Update(s.ops, p, o, 0);
    CommitKept(s.ops, ops, p);
    assert forall q :: 0 <= q < |ops| && ops[q].Committing? ==> s.ops[q].Committing?;
  }

  lemma WriteCore(s: Log, p: nat, b: nat)
    requires Core(s) && p < |s.ops| && s.ops[p].Active?
    ensures Core(Do(s, LogWrite(p, b)))
  {
    var t := Do(s, LogWrite(p, b));
    Update(s.ops, p, t.ops[p], 0);
    CommitKept(s.ops, t.ops, p);
  }

  lemma EndCore(s: Log, p: nat)
    requires Core(s) && p < |s.ops| && s.ops[p].Active?
    ensures Core(Do(s, EndOp(p))) && !s.committing
  {
    SomeActive(s.ops);
    var rest := s.ops[p := Outside];
    Update(s.ops, p, Outside, 0);
    Update(s.ops, p, Committing, 0);
    WakeKeeps(rest, 0);
    CommitKept(s.ops, Wake(rest), p);
    assert s.ops[p := Committing][p].Committing?;
  }

  lemma CommittedCore(s: Log, p: nat)
    requires Core(s) && p < |s.ops| && s.ops[p].Committing?
    ensures Core(Do(s, Committed(p)))
  {
    Update(s.ops, p, Outside, 0);
    WakeKeeps(s.ops[p := Outside], 0);
  }

  /** One step of a process that is not committing leaves it open whether another is. */
  lemma CommitKept(ops: seq<Op>, ops': seq<Op>, p: nat)
    requires p < |ops| == |ops'| && !ops[p].Committing? && !ops'[p].Committing?
    requires forall q :: 0 <= q < |ops| && q != p ==> (ops'[q].Committing? <==> ops[q].Committing?)
    ensures AtCommit(ops') <==> AtCommit(ops)
  {
    if q :| 0 <= q < |ops| && ops[q].Committing? {
      assert ops'[q].Committing?;
    }
    if q :| 0 <= q < |ops| && ops'[q].Committing? {
      assert ops[q].Committing?;
    }
  }

  lemma StepInv(s: Log, a: Action, budget: nat)
    requires Inv(s) && Enabled(s, a, budget) && budget < MAXOPBLOCKS
    ensures Inv(Do(s, a))
  {
    StepCore(s, a, budget);
    RoomBounds(s.ops, MAXOPBLOCKS - 1);
    match a
    case BeginOp(p) => Update(s.ops, p, Do(s, a).ops[p], MAXOPBLOCKS - 1);
    case LogWrite(p, b) => Update(s.ops, p, Do(s, a).ops[p], MAXOPBLOCKS - 1);
    case EndOp(p) => EndReserved(s, p);
    case Committed(p) => Update(s.ops, p, Outside, MAXOPBLOCKS - 1);
  }

  lemma EndReserved(s: Log, p: nat)
    requires Inv(s) && p < |s.ops| && s.ops[p].Active?
    ensures Reserved(Do(s, EndOp(p))) && !Do(s, EndOp(p)).panic
  {
    EndCore(s, p);
    RoomBounds(s.ops, MAXOPBLOCKS - 1);
    Update(s.ops, p, Outside, MAXOPBLOCKS - 1);
    Update(s.ops, p, Committing, MAXOPBLOCKS - 1);
    WakeKeeps(s.ops[p := Outside], MAXOPBLOCKS - 1);
  }

  /** So whoever sleeps in begin_op, some process that is active or committing is still to call wakeup. */
  lemma SleeperHasWaker(s: Log, p: nat)
    requires Core(s) && p < |s.ops| && s.ops[p].Asleep?
    ensures exists q :: 0 <= q < |s.ops| && (s.ops[q].Active? || s.ops[q].Committing?)
  {
    SomeActive(s.ops);
    if s.committing {
      var q :| 0 <= q < |s.ops| && s.ops[q].Committing?;
    } else {
      var q :| 0 <= q < |s.ops| && s.ops[q].Active?;
    }
  }

  /** Every run within a safe budget keeps the invariant, and so never panics. */
  lemma {:induction false} RunInv(s: Log, run: seq<Action>, budget: nat)
    requires Inv(s) && IsRun(s, run, budget) && budget < MAXOPBLOCKS
    ensures Inv(End(s, run, budget))
    decreases |run|
  {
    if run != [] {
      StepInv(s, run[0], budget);
      RunInv(Do(s, run[0]), run[1..], budget);
    }
  }

  lemma {:induction false} RunCore(s: Log, run: seq<Action>, budget: nat)
    requires Core(s) && IsRun(s, run, budget)
    ensures Core(End(s, run, budget))
    decreases |run|
  {
    if run != [] {
      StepCore(s, run[0], budget);
      RunCore(Do(s, run[0]), run[1..], budget);
    }
  }

  /**
   At any moment of any run, whatever the operations log: whoever sleeps in begin_op
   would not be let in now, because a commit is running or the log has no room for one
   more operation; and some process is still to call wakeup.
   */
  lemma SleepsForCause(nproc: nat, run: seq<Action>, budget: nat, p: nat)
    requires IsRun(Init(nproc), run, budget)
    requires var s := End(Init(nproc), run, budget); p < |s.ops| && s.ops[p].Asleep?
    ensures var s := End(Init(nproc), run, budget);
            s.committing || |s.lh| + (s.outstanding + 1) * MAXOPBLOCKS > LOGSIZE
    ensures var s := End(Init(nproc), run, budget);
            exists q :: 0 <= q < |s.ops| && (s.ops[q].Active? || s.ops[q].Committing?)
  {
    InitInv(nproc);
    RunCore(Init(nproc), run, budget);
    SleeperHasWaker(End(Init(nproc), run, budget), p);
  }

  // ---------------------------------------------------------------- the budget that is too large

  ghost predicate NeverPanics(nproc: nat, budget: nat) {
    forall run :: IsRun(Init(nproc), run, budget) ==> !End(Init(nproc), run, budget).panic
  }

  lemma {:induction false} RunConcat(s: Log, a: seq<Action>, b: seq<Action>, budget: nat)
    requires IsRun(s, a, budget) && IsRun(End(s, a, budget), b, budget)
    ensures IsRun(s, a + b, budget) && End(s, a + b, budget) == End(End(s, a, budget), b, budget)
    decreases |a|
  {
    if a == [] {
      assert a + b == b;
    } else {
      assert (a + b)[0] == a[0] && (a + b)[1..] == a[1..] + b;
      RunConcat(Do(s, a[0]), a[1..], b, budget);
    }
  }

  /** The list of the first n blocks, in order. */
  function UpTo(n: nat): (r: seq<nat>)
    ensures |r| == n && forall i :: 0 <= i < n ==> r[i] == i
  {
    seq(n, i => i)
  }

  /** Process p adds k more blocks to a log that lists 0, 1, ... */
  lemma {:induction false} AddBlocks(s: Log, p: nat, k: nat, budget: nat) returns (run: seq<Action>)
    requires !s.panic && p < |s.ops| && s.ops[p].Active? && s.outstanding >= 1
    requires s.lh == UpTo(|s.lh|) && |s.lh| + k < NLOG && s.ops[p].used + k <= budget
    ensures IsRun(s, run, budget)
    ensures End(s, run, budget) == s.(lh := UpTo(|s.lh| + k), ops := s.ops[p := Active(s.ops[p].used + k)])
    decreases k
  {
    if k == 0 {
      run := [];
      assert s.ops[p := Active(s.ops[p].used)] == s.ops;
    } else {
      var a := LogWrite(p, |s.lh|);
      var t := Do(s, a);
      assert t.lh == UpTo(|s.lh| + 1);
      var rest := AddBlocks(t, p, k - 1, budget);
      run := [a] + rest;
      assert run[1..] == rest;
      assert t.ops[p := Active(t.ops[p].used + (k - 1))] == s.ops[p := Active(s.ops[p].used + k)];
    }
  }

  /** Three operations of MAXOPBLOCKS new blocks each are all admitted, and overflow the log. */
  lemma {:induction false} Overflow(nproc: nat, budget: nat) returns (run: seq<Action>)
    requires nproc >= 3 && budget >= MAXOPBLOCKS
    ensures IsRun(Init(nproc), run, budget) && End(Init(nproc), run, budget).panic
  {
    var s0 := Init(nproc);
    var s1 := Do(s0, BeginOp(0));
    var s2 := Do(s1, BeginOp(1));
    var s3 := Do(s2, BeginOp(2));
    var begins := [BeginOp(0), BeginOp(1), BeginOp(2)];
    assert begins[1..] == [BeginOp(1), BeginOp(2)] && begins[1..][1..] == [BeginOp(2)] && begins[1..][1..][1..] == [];
    assert IsRun(s3, begins[1..][1..][1..], budget);
    assert IsRun(s2, begins[1..][1..], budget);
    assert IsRun(s1, begins[1..], budget);
    assert IsRun(s0, begins, budget) && End(s0, begins, budget) == s3;
    assert s3.lh == UpTo(0) && s3.outstanding == 3;
    var r0 := AddBlocks(s3, 0, 10, budget);
    var s4 := End(s3, r0, budget);
    var r1 := AddBlocks(s4, 1, 10, budget);
    var s5 := End(s4, r1, budget);
    var r2 := AddBlocks(s5, 2, 9, budget);
    var s6 := End(s5, r2, budget);
    var last := [LogWrite(2, 29)];
    assert last[1..] == [] && IsRun(Do(s6, last[0]), last[1..], budget);
    assert IsRun(s6, last, budget) && End(s6, last, budget).panic;
    RunConcat(s5, r2, last, budget);
    RunConcat(s4, r1, r2 + last, budget);
    RunConcat(s3, r0, r1 + (r2 + last), budget);
    RunConcat(s0, begins, r0 + (r1 + (r2 + last)), budget);
    run := begins + (r0 + (r1 + (r2 + last)));
  }

  /** The exact budget: with three processes or more, no run panics if and only if it is below MAXOPBLOCKS. */
  lemma SafeBudget(nproc: nat, budget: nat)
    requires nproc >= 3
    ensures NeverPanics(nproc, budget) <==> budget < MAXOPBLOCKS
  {
    if budget < MAXOPBLOCKS {
      InitInv(nproc);
      forall run | IsRun(Init(nproc), run, budget)
        ensures !End(Init(nproc), run, budget).panic
      {
        RunInv(Init(nproc), run, budget);
      }
    } else {
      var run := Overflow(nproc, budget);
    }
  }
}
