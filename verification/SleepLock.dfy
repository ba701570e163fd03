/**
 A sleep-lock (kernel/sleeplock.c) taken and released by any number of processes
 on any number of CPUs, with the scheduler, sleep, wakeup, yield and kill of
 kernel/proc.c, one lock operation at a time.

 A spin lock is held by a process or, while the scheduler runs, by a CPU; swtch
 hands a process's own lock from one to the other. What is read or written under
 a lock that is taken and released at once is one step.
 */
module SleepLock {

  datatype State = Runnable | Running | Sleeping

  /** Where a process may be interrupted: outside, wanting the lock, inside, about to release it. */
  datatype Spot = Out | Wanting | Inside | Leaving

  datatype Pc =
    | At(s: Spot)
    | AcqTest                       // acquiresleep: holds lk, tests locked
    | SleepSpin                     // sleep: holds lk, wants its own lock
    | SleepDrop                     // holds both, releases lk
    | SleepMark                     // holds its own lock, sets chan and state
    | SleepSched                    // asleep, about to switch away
    | SleepOff                      // off the CPU
    | Woken                         // back from sched: clears chan, releases its own lock
    | RelClear                      // releasesleep: holds lk, clears locked
    | Wake(i: nat)                  // wakeup: holds lk, wants the lock of process i
    | WakeHold(i: nat)              // holds that too
    | RelDone                       // releases lk
    | YieldSpin(s: Spot) | YieldMark(s: Spot) | YieldSched(s: Spot) | YieldOff(s: Spot) | YieldBack(s: Spot)

  datatype Holder = Nobody | Proc(p: nat) | Cpu(c: nat)

  /** A CPU runs its scheduler: looking for a process, looking at one, or switching back from one. */
  datatype CpuPc = Looking | Scan(p: nat) | InProc(p: nat) | Ret(p: nat)

  datatype Sys = Sys(
    pc: seq<Pc>, state: seq<State>, onLock: seq<bool>, plock: seq<Holder>,
    lk: Holder, locked: bool, pid: int, cpu: seq<CpuPc>)

  datatype Action =
    | SchedTake(c: nat, p: nat)     // scheduler: acquire(&p->lock)
    | SchedTest(c: nat)             // run it if RUNNABLE, else release
    | SchedBack(c: nat)             // after swtch: release(&p->lock)
    | Step(c: nat)                  // the process on the CPU goes on
    | Preempt(c: nat)               // a timer interrupt makes it yield
    | Kill(q: nat)                  // kill wakes a sleeper

  function Init(nproc: nat, ncpu: nat): (s: Sys)
    ensures Shape(s) && |s.pc| == nproc && |s.cpu| == ncpu
  {
    Sys(seq(nproc, i => YieldOff(Out)), seq(nproc, i => Runnable), seq(nproc, i => false), seq(nproc, i => Nobody),
        Nobody, false, -1, seq(ncpu, i => Looking))
  }

  predicate HoldsOwn(pc: Pc) {
    pc.SleepDrop? || pc.SleepMark? || pc.SleepSched? || pc.Woken? || pc.YieldMark? || pc.YieldSched? || pc.YieldBack?
  }

  predicate HoldsLk(pc: Pc) {
    pc.AcqTest? || pc.SleepSpin? || pc.SleepDrop? || pc.RelClear? || pc.Wake? || pc.WakeHold? || pc.RelDone?
  }

  predicate Off(pc: Pc) {
    pc.SleepOff? || pc.YieldOff?
  }

  /** Between a successful acquiresleep and the clearing of the lock by releasesleep. */
  predicate Owns(pc: Pc) {
    match pc
    case At(s) => s.Inside? || s.Leaving?
    case YieldSpin(s) => s.Inside? || s.Leaving?
    case YieldMark(s) => s.Inside? || s.Leaving?
    case YieldSched(s) => s.Inside? || s.Leaving?
    case YieldOff(s) => s.Inside? || s.Leaving?
    case YieldBack(s) => s.Inside? || s.Leaving?
    case RelClear => true
    case _ => false
  }

  predicate Shape(s: Sys) {
    |s.state| == |s.onLock| == |s.plock| == |s.pc|
  }

  // ---------------------------------------------------------------- steps

  predicate Enabled(s: Sys, a: Action) {
    Shape(s) &&
    match a
    case SchedTake(c, p) => c < |s.cpu| && p < |s.pc| && s.cpu[c].Looking? && s.plock[p].Nobody?
    case SchedTest(c) => c < |s.cpu| && s.cpu[c].Scan? && s.cpu[c].p < |s.pc|
    case SchedBack(c) => c < |s.cpu| && s.cpu[c].Ret? && s.cpu[c].p < |s.pc|
    case Step(c) => c < |s.cpu| && s.cpu[c].InProc? && s.cpu[c].p < |s.pc| && CanStep(s, s.cpu[c].p)
    case Preempt(c) => c < |s.cpu| && s.cpu[c].InProc? && s.cpu[c].p < |s.pc| && s.pc[s.cpu[c].p].At?
    case Kill(q) => q < |s.pc| && s.plock[q].Nobody?
  }

  /** A process spins until the lock it wants is free. */
  predicate CanStep(s: Sys, p: nat)
    requires Shape(s) && p < |s.pc|
  {
    match s.pc[p]
    case At(spot) => (spot.Wanting? || spot.Leaving?) ==> s.lk.Nobody?
    case SleepSpin => s.plock[p].Nobody?
    case YieldSpin(_) => s.plock[p].Nobody?
    case Wake(i) => i < |s.pc| && i != p ==> s.plock[i].Nobody?
    case _ => true
  }

  function Do(s: Sys, a: Action): (t: Sys)
    requires Enabled(s, a)
    ensures Shape(t) && |t.pc| == |s.pc| && |t.cpu| == |s.cpu|
  {
    match a
    case SchedTake(c, p) => s.(plock := s.plock[p := Cpu(c)], cpu := s.cpu[c := Scan(p)])
    case SchedTest(c) =>
      var p := s.cpu[c].p;
      if s.state[p].Runnable? then
        s.(state := s.state[p := Running], cpu := s.cpu[c := InProc(p)], plock := s.plock[p := Proc(p)],
           pc := s.pc[p := Resumed(s.pc[p])])
      else s.(plock := s.plock[p := Nobody], cpu := s.cpu[c := Looking])
    case SchedBack(c) => s.(plock := s.plock[s.cpu[c].p := Nobody], cpu := s.cpu[c := Looking])
    case Step(c) => DoStep(s, c, s.cpu[c].p)
    case Preempt(c) => var p := s.cpu[c].p; s.(pc := s.pc[p := YieldSpin(s.pc[p].s)])
    case Kill(q) => if s.state[q].Sleeping? then s.(state := s.state[q := Runnable]) else s
  }

  /** Where swtch puts a process that was off the CPU. */
  function Resumed(pc: Pc): Pc {
    match pc
    case SleepOff => Woken
    case YieldOff(spot) => YieldBack(spot)
    case _ => pc
  }

  function DoStep(s: Sys, c: nat, p: nat): (t: Sys)
    requires Shape(s) && c < |s.cpu| && p < |s.pc| && CanStep(s, p)
    ensures Shape(t) && |t.pc| == |s.pc| && |t.cpu| == |s.cpu|
  {
    match s.pc[p]
    case At(spot) =>
      (match spot
       case Out => s.(pc := s.pc[p := At(Wanting)])
       case Wanting => s.(pc := s.pc[p := AcqTest], lk := Proc(p))
       case Inside => s.(pc := s.pc[p := At(Leaving)])
       case Leaving => s.(pc := s.pc[p := RelClear], lk := Proc(p)))
    case AcqTest =>
      if s.locked then s.(pc := s.pc[p := SleepSpin])
      else s.(pc := s.pc[p := At(Inside)], lk := Nobody, locked := true, pid := p)
    case SleepSpin => s.(pc := s.pc[p := SleepDrop], plock := s.plock[p := Proc(p)])
    case SleepDrop => s.(pc := s.pc[p := SleepMark], lk := Nobody)
    case SleepMark => s.(pc := s.pc[p := SleepSched], onLock := s.onLock[p := true], state := s.state[p := Sleeping])
    case SleepSched => SwitchAway(s, c, p, SleepOff)
    case Woken => s.(pc := s.pc[p := At(Wanting)], onLock := s.onLock[p := false], plock := s.plock[p := Nobody])
    case RelClear => s.(pc := s.pc[p := Wake(0)], locked := false, pid := -1)
    case Wake(i) =>
      if i >= |s.pc| then s.(pc := s.pc[p := RelDone])
      else if i == p then s.(pc := s.pc[p := Wake(i + 1)])
      else s.(pc := s.pc[p := WakeHold(i)], plock := s.plock[i := Proc(p)])
    case WakeHold(i) =>
      if i >= |s.pc| then s
      else
        var woken := s.state[i].Sleeping? && s.onLock[i];
        s.(pc := s.pc[p := Wake(i + 1)], plock := s.plock[i := Nobody],
           state := if woken then s.state[i := Runnable] else s.state)
    case RelDone => s.(pc := s.pc[p := At(Out)], lk := Nobody)
    case YieldSpin(spot) => s.(pc := s.pc[p := YieldMark(spot)], plock := s.plock[p := Proc(p)])
    case YieldMark(spot) => s.(pc := s.pc[p := YieldSched(spot)], state := s.state[p := Runnable])
    case YieldSched(spot) => SwitchAway(s, c, p, YieldOff(spot))
    case YieldBack(spot) => s.(pc := s.pc[p := At(spot)], plock := s.plock[p := Nobody])
    case SleepOff => s
    case YieldOff(_) => s
  }

  /** sched and the swtch in it: the CPU's scheduler goes on, holding the process's lock. */
  function SwitchAway(s: Sys, c: nat, p: nat, pc: Pc): Sys
    requires Shape(s) && c < |s.cpu| && p < |s.pc|
  {
    s.(pc := s.pc[p := pc], plock := s.plock[p := Cpu(c)], cpu := s.cpu[c := Ret(p)])
  }

  // ---------------------------------------------------------------- the invariant

  /** Each spin lock is held exactly by whoever is at a point of the code where it should be. */
  ghost predicate Locks(s: Sys)
    requires Shape(s)
  {
    && !s.lk.Cpu?
    && (forall p :: 0 <= p < |s.pc| ==> LkBy(s, p))
    && (s.lk.Proc? ==> s.lk.p < |s.pc|)
    && (forall p, q :: 0 <= p < |s.pc| && 0 <= q < |s.pc| ==> PlockBy(s, p, q))
    && (forall c, q :: 0 <= c < |s.cpu| && 0 <= q < |s.pc| ==> PlockByCpu(s, c, q))
    && (forall q :: 0 <= q < |s.pc| ==> PlockInRange(s, q))
  }

  predicate LkBy(s: Sys, p: nat)
    requires p < |s.pc|
  {
    s.lk == Proc(p) <==> HoldsLk(s.pc[p])
  }

  predicate PlockBy(s: Sys, p: nat, q: nat)
    requires Shape(s) && p < |s.pc| && q < |s.pc|
  {
    s.plock[q] == Proc(p) <==> (p == q && HoldsOwn(s.pc[p])) || s.pc[p] == WakeHold(q)
  }

  predicate PlockByCpu(s: Sys, c: nat, q: nat)
    requires Shape(s) && c < |s.cpu| && q < |s.pc|
  {
    s.plock[q] == Cpu(c) <==> s.cpu[c] == Scan(q) || s.cpu[c] == Ret(q)
  }

  predicate PlockInRange(s: Sys, q: nat)
    requires Shape(s) && q < |s.pc|
  {
    match s.plock[q]
    case Proc(p) => p < |s.pc|
    case Cpu(c) => c < |s.cpu|
    case Nobody => true
  }

  /** Each CPU's business is in order; a process is on at most one CPU. */
  ghost predicate Cpus(s: Sys)
    requires Shape(s)
  {
    && (forall c :: 0 <= c < |s.cpu| ==> CpuOk(s, c))
    && (forall c, d :: 0 <= c < |s.cpu| && 0 <= d < |s.cpu| && c != d ==> Elsewhere(s, c, d))
  }

  predicate CpuOk(s: Sys, c: nat)
    requires Shape(s) && c < |s.cpu|
  {
    match s.cpu[c]
    case Looking => true
    case Scan(p) => p < |s.pc|
    case InProc(p) => p < |s.pc| && !Off(s.pc[p])
    case Ret(p) => p < |s.pc| && Off(s.pc[p])
  }

  predicate Elsewhere(s: Sys, c: nat, d: nat)
    requires c < |s.cpu| && d < |s.cpu|
  {
    s.cpu[c].InProc? && s.cpu[d].InProc? ==> s.cpu[c].p != s.cpu[d].p
  }

  /** A process is RUNNING just while it has a CPU, from the scheduler's choice of it to its own sched. */
  predicate StateOk(s: Sys, p: nat)
    requires Shape(s) && p < |s.pc|
  {
    match s.pc[p]
    case SleepOff => s.state[p].Sleeping? || s.state[p].Runnable?
    case YieldOff(_) => s.state[p].Runnable?
    case SleepSched => s.state[p].Sleeping?
    case YieldSched(_) => s.state[p].Runnable?
    case _ => s.state[p].Running?
  }

  predicate OwnerOk(s: Sys, p: nat)
    requires p < |s.pc|
  {
    Owns(s.pc[p]) <==> s.locked && s.pid == p
  }

  /** Committed to sleep, or asleep, on the lock, and no longer holding lk. */
  predicate Waiting(s: Sys, p: nat)
    requires Shape(s) && p < |s.pc|
  {
    s.pc[p].SleepMark? || (s.state[p].Sleeping? && s.onLock[p])
  }

  /** A wakeup that has not yet got past process p is under way. */
  predicate WakeComing(s: Sys, p: nat) {
    && s.lk.Proc? && s.lk.p < |s.pc|
    && match s.pc[s.lk.p]
       case Wake(i) => i <= p
       case WakeHold(i) => i <= p
       case _ => false
  }

  predicate PcOk(s: Sys, p: nat)
    requires p < |s.pc|
  {
    match s.pc[p]
    case Wake(i) => i <= |s.pc|
    case WakeHold(i) => i < |s.pc| && i != p
    case _ => true
  }

  predicate NotForgotten(s: Sys, p: nat)
    requires Shape(s) && p < |s.pc|
  {
    && (Waiting(s, p) ==> s.locked || WakeComing(s, p))
    && (s.pc[p].SleepSpin? || s.pc[p].SleepDrop? ==> s.locked)
  }

  ghost predicate Inv(s: Sys) {
    && Shape(s) && Locks(s) && Cpus(s)
    && (forall p :: 0 <= p < |s.pc| ==> PcOk(s, p))
    && (forall p :: 0 <= p < |s.pc| ==> StateOk(s, p))
    && (forall p :: 0 <= p < |s.pc| ==> OwnerOk(s, p))
    && (forall p :: 0 <= p < |s.pc| ==> NotForgotten(s, p))
    && (s.locked ==> 0 <= s.pid < |s.pc|)
  }

  lemma InitInv(nproc: nat, ncpu: nat)
    ensures Inv(Init(nproc, ncpu))
  {
  }

  // ---------------------------------------------------------------- every step keeps it

  ghost predicate Good(s: Sys, a: Action) {
    Inv(s) && Enabled(s, a)
  }

  /** A process the scheduler is about to run is off the CPU, in sched. */
  lemma Chosen(s: Sys, c: nat)
    requires Inv(s) && c < |s.cpu| && s.cpu[c].Scan? && s.cpu[c].p < |s.pc| && s.state[s.cpu[c].p].Runnable?
    ensures Off(s.pc[s.cpu[c].p])
  {
    var p := s.cpu[c].p;
    assert StateOk(s, p) && PlockBy(s, p, p) && PlockByCpu(s, c, p);
  }

  lemma LkKept(s: Sys, a: Action, p: nat)
    requires Good(s, a) && p < |s.pc|
    ensures LkBy(Do(s, a), p)
  {
    hide Cpus, HoldsOwn, Owns, PlockBy, PlockByCpu, StateOk, OwnerOk, NotForgotten, PcOk;
    assert LkBy(s, p);
    if a.Step? || a.Preempt? {
      assert LkBy(s, s.cpu[a.c].p);
    }
  }

  lemma PcKept(s: Sys, a: Action, p: nat)
    requires Good(s, a) && p < |s.pc|
    ensures PcOk(Do(s, a), p)
  {
    hide Locks, Cpus, HoldsOwn, Owns, HoldsLk, StateOk, OwnerOk, NotForgotten;
    assert PcOk(s, p);
    if a.Step? || a.Preempt? {
      assert PcOk(s, s.cpu[a.c].p);
    }
  }

  lemma LockRange(s: Sys, a: Action)
    requires Good(s, a)
    ensures var t := Do(s, a);
            !t.lk.Cpu? && (t.lk.Proc? ==> t.lk.p < |t.pc|) && (t.locked ==> 0 <= t.pid < |t.pc|)
  {
    hide Cpus, HoldsOwn, HoldsLk, Owns, PlockBy, PlockByCpu, StateOk, OwnerOk, NotForgotten, LkBy;
  }

  lemma PlockStep(s: Sys, c: nat, p: nat, q: nat)
    requires Good(s, Step(c)) && p < |s.pc| && q < |s.pc|
    ensures PlockBy(Do(s, Step(c)), p, q) && PlockInRange(Do(s, Step(c)), q)
  {
    if s.pc[s.cpu[c].p].Wake? || s.pc[s.cpu[c].p].WakeHold? {
      PlockWakeStep(s, c, p, q);
    } else {
      PlockOwnStep(s, c, p, q);
    }
  }

  lemma PlockWakeStep(s: Sys, c: nat, p: nat, q: nat)
    requires Good(s, Step(c)) && p < |s.pc| && q < |s.pc| && (s.pc[s.cpu[c].p].Wake? || s.pc[s.cpu[c].p].WakeHold?)
    ensures PlockBy(Do(s, Step(c)), p, q) && PlockInRange(Do(s, Step(c)), q)
  {
    hide HoldsLk, Owns, StateOk, OwnerOk, NotForgotten, LkBy, PlockByCpu, Elsewhere;
    var me := s.cpu[c].p;
    assert PcOk(s, me) && PlockInRange(s, q) && PlockBy(s, p, q) && PlockBy(s, me, q);
    if s.pc[me].WakeHold? {
      assert PlockBy(s, me, s.pc[me].i) && PlockBy(s, p, s.pc[me].i);
    }
  }

  lemma PlockOwnStep(s: Sys, c: nat, p: nat, q: nat)
    requires Good(s, Step(c)) && p < |s.pc| && q < |s.pc| && !s.pc[s.cpu[c].p].Wake? && !s.pc[s.cpu[c].p].WakeHold?
    ensures PlockBy(Do(s, Step(c)), p, q) && PlockInRange(Do(s, Step(c)), q)
  {
    hide HoldsLk, Owns, StateOk, OwnerOk, NotForgotten, LkBy, PlockByCpu, Elsewhere;
    var me := s.cpu[c].p;
    assert CpuOk(s, c) && PlockInRange(s, q) && PlockBy(s, p, q) && PlockBy(s, me, me);
  }

  lemma PlockOther(s: Sys, a: Action, p: nat, q: nat)
    requires Good(s, a) && !a.Step? && p < |s.pc| && q < |s.pc|
    ensures PlockBy(Do(s, a), p, q) && PlockInRange(Do(s, a), q)
  {
    hide HoldsLk, Owns, OwnerOk, NotForgotten, LkBy, Elsewhere;
    assert PlockBy(s, p, q) && PlockInRange(s, q);
    match a
    case SchedTake(c, r) => assert PlockBy(s, p, r);
    case SchedTest(c) =>
      assert PlockByCpu(s, c, s.cpu[c].p) && PlockBy(s, p, s.cpu[c].p) && PlockBy(s, s.cpu[c].p, q);
      if s.state[s.cpu[c].p].Runnable? {
        Chosen(s, c);
      }
    case SchedBack(c) => assert PlockByCpu(s, c, s.cpu[c].p) && PlockBy(s, p, s.cpu[c].p);
    case Preempt(c) => assert CpuOk(s, c);
    case Kill(_) =>
  }

  lemma PlockCpuStep(s: Sys, c: nat, d: nat, q: nat)
    requires Good(s, Step(c)) && d < |s.cpu| && q < |s.pc|
    ensures PlockByCpu(Do(s, Step(c)), d, q)
  {
    hide HoldsLk, Owns, StateOk, OwnerOk, NotForgotten, LkBy, Elsewhere;
    var me := s.cpu[c].p;
    assert PlockByCpu(s, d, q) && PlockByCpu(s, d, me);
    assert CpuOk(s, c) && PcOk(s, me) && PlockBy(s, me, me) && PlockBy(s, me, q);
  }

  lemma PlockCpuOther(s: Sys, a: Action, d: nat, q: nat)
    requires Good(s, a) && !a.Step? && d < |s.cpu| && q < |s.pc|
    ensures PlockByCpu(Do(s, a), d, q)
  {
    hide HoldsLk, HoldsOwn, Owns, StateOk, OwnerOk, NotForgotten, LkBy, Elsewhere, PlockBy;
    assert PlockByCpu(s, d, q);
    match a
    case SchedTake(c, r) => assert PlockByCpu(s, c, q) && PlockByCpu(s, d, r);
    case SchedTest(c) => assert PlockByCpu(s, c, s.cpu[c].p) && PlockByCpu(s, d, s.cpu[c].p);
    case SchedBack(c) => assert PlockByCpu(s, c, s.cpu[c].p) && PlockByCpu(s, d, s.cpu[c].p);
    case Preempt(_) =>
    case Kill(_) =>
  }

  lemma PlockKept(s: Sys, a: Action, p: nat, q: nat)
    requires Good(s, a) && p < |s.pc| && q < |s.pc|
    ensures PlockBy(Do(s, a), p, q) && PlockInRange(Do(s, a), q)
  {
    if a.Step? {
      PlockStep(s, a.c, p, q);
    } else {
      PlockOther(s, a, p, q);
    }
  }

  lemma CpuKept(s: Sys, a: Action, d: nat)
    requires Good(s, a) && d < |s.cpu|
    ensures CpuOk(Do(s, a), d)
  {
    hide HoldsLk, HoldsOwn, Owns, StateOk, OwnerOk, NotForgotten, LkBy, PlockBy;
    assert CpuOk(s, d);
    if a.SchedTest? {
      assert CpuOk(s, a.c);
      if s.state[s.cpu[a.c].p].Runnable? {
        Chosen(s, a.c);
        assert PlockByCpu(s, a.c, s.cpu[a.c].p) && PlockByCpu(s, d, s.cpu[a.c].p);
      }
    }
    if a.Step? || a.Preempt? {
      assert CpuOk(s, a.c);
      assert a.c != d ==> Elsewhere(s, a.c, d);
    }
  }

  lemma ElsewhereKept(s: Sys, a: Action, d: nat, e: nat)
    requires Good(s, a) && d < |s.cpu| && e < |s.cpu| && d != e
    ensures Elsewhere(Do(s, a), d, e)
  {
    hide HoldsLk, HoldsOwn, Owns, StateOk, OwnerOk, NotForgotten, LkBy, PlockBy;
    assert Elsewhere(s, d, e) && CpuOk(s, d) && CpuOk(s, e);
    if a.SchedTest? && s.state[s.cpu[a.c].p].Runnable? {
      Chosen(s, a.c);
    }
  }

  lemma StateStep(s: Sys, c: nat, p: nat)
    requires Good(s, Step(c)) && p < |s.pc|
    ensures StateOk(Do(s, Step(c)), p)
  {
    hide HoldsLk, Owns, OwnerOk, NotForgotten, LkBy, Elsewhere, PlockByCpu;
    var me := s.cpu[c].p;
    assert CpuOk(s, c) && StateOk(s, p) && PcOk(s, me) && PlockBy(s, p, p);
    if p == me {
      StateOwn(s, c);
    } else {
      if s.pc[me].WakeHold? {
        assert PlockBy(s, me, s.pc[me].i);
      }
      StateApart(s, c, p);
    }
  }

  lemma StateOwn(s: Sys, c: nat)
    requires Enabled(s, Step(c)) && StateOk(s, s.cpu[c].p) && PcOk(s, s.cpu[c].p) && !Off(s.pc[s.cpu[c].p])
    ensures StateOk(Do(s, Step(c)), s.cpu[c].p)
  {
  }

  /** A process that is being woken holds no lock of its own: it is asleep, or not about to be. */
  lemma StateApart(s: Sys, c: nat, p: nat)
    requires Enabled(s, Step(c)) && p < |s.pc| && p != s.cpu[c].p && StateOk(s, p) && PlockBy(s, p, p)
    requires s.pc[s.cpu[c].p] == WakeHold(p) ==> s.plock[p] == Proc(s.cpu[c].p)
    ensures StateOk(Do(s, Step(c)), p)
  {
  }

  lemma StateOther(s: Sys, a: Action, p: nat)
    requires Good(s, a) && !a.Step? && p < |s.pc|
    ensures StateOk(Do(s, a), p)
  {
    hide HoldsLk, Owns, OwnerOk, NotForgotten, LkBy, Elsewhere, PlockByCpu;
    assert StateOk(s, p) && PlockBy(s, p, p);
    if a.SchedTest? && s.state[s.cpu[a.c].p].Runnable? {
      Chosen(s, a.c);
    }
  }

  lemma OwnerKept(s: Sys, a: Action, p: nat)
    requires Good(s, a) && p < |s.pc|
    ensures OwnerOk(Do(s, a), p)
  {
    hide Locks, HoldsLk, HoldsOwn, StateOk, NotForgotten, LkBy, Elsewhere, PlockByCpu, PlockBy;
    assert OwnerOk(s, p);
    if a.Step? || a.Preempt? {
      assert CpuOk(s, a.c) && OwnerOk(s, s.cpu[a.c].p);
    } else if a.SchedTest? && s.state[s.cpu[a.c].p].Runnable? {
      Chosen(s, a.c);
    }
  }

  lemma NotForgottenStep(s: Sys, c: nat, p: nat)
    requires Good(s, Step(c)) && p < |s.pc|
    ensures NotForgotten(Do(s, Step(c)), p)
  {
    hide Owns, OwnerOk, Elsewhere, PlockByCpu;
    var me := s.cpu[c].p;
    assert CpuOk(s, c) && NotForgotten(s, p) && NotForgotten(s, me) && LkBy(s, me) && LkBy(s, p);
    assert StateOk(s, me) && StateOk(s, p) && PlockBy(s, p, p) && PlockBy(s, me, p);
  }

  lemma NotForgottenOther(s: Sys, a: Action, p: nat)
    requires Good(s, a) && !a.Step? && p < |s.pc|
    ensures NotForgotten(Do(s, a), p)
  {
    hide Owns, OwnerOk, Elsewhere, PlockByCpu, HoldsOwn;
    assert NotForgotten(s, p);
    if a.SchedTest? && s.state[s.cpu[a.c].p].Runnable? {
      Chosen(s, a.c);
      assert LkBy(s, s.cpu[a.c].p);
    }
    if a.Preempt? {
      assert LkBy(s, s.cpu[a.c].p) && StateOk(s, s.cpu[a.c].p) && CpuOk(s, a.c);
    }
  }

  /** Every step of every process, CPU and killer keeps the invariant. */
  lemma StepInv(s: Sys, a: Action)
    requires Inv(s) && Enabled(s, a)
    ensures Inv(Do(s, a))
  {
    hide PlockBy, PlockByCpu, LkBy, PcOk, StateOk, OwnerOk, NotForgotten, CpuOk, Elsewhere, PlockInRange, Do;
    var t := Do(s, a);
    LockRange(s, a);
    forall p: nat, q: nat | p < |s.pc| && q < |s.pc|
      ensures PlockBy(t, p, q)
    {
      PlockKept(s, a, p, q);
    }
    forall d: nat, q: nat | d < |s.cpu| && q < |s.pc|
      ensures PlockByCpu(t, d, q)
    {
      if a.Step? {
        PlockCpuStep(s, a.c, d, q);
      } else {
        PlockCpuOther(s, a, d, q);
      }
    }
    forall d: nat | d < |s.cpu|
      ensures CpuOk(t, d)
    {
      CpuKept(s, a, d);
    }
    forall d: nat, e: nat | d < |s.cpu| && e < |s.cpu| && d != e
      ensures Elsewhere(t, d, e)
    {
      ElsewhereKept(s, a, d, e);
    }
    forall p: nat | p < |s.pc|
      ensures LkBy(t, p) && PcOk(t, p) && StateOk(t, p) && OwnerOk(t, p) && NotForgotten(t, p) && PlockInRange(t, p)
    {
      PlockKept(s, a, p, p);
      LkKept(s, a, p);
      PcKept(s, a, p);
      OwnerKept(s, a, p);
      if a.Step? {
        StateStep(s, a.c, p);
        NotForgottenStep(s, a.c, p);
      } else {
        StateOther(s, a, p);
        NotForgottenOther(s, a, p);
      }
    }
  }

  // ---------------------------------------------------------------- whole runs

  ghost predicate IsRun(s: Sys, run: seq<Action>)
    decreases |run|
  {
    run != [] ==> Enabled(s, run[0]) && IsRun(Do(s, run[0]), run[1..])
  }

  ghost function End(s: Sys, run: seq<Action>): (t: Sys)
    requires IsRun(s, run)
    ensures Shape(s) ==> Shape(t) && |t.pc| == |s.pc| && |t.cpu| == |s.cpu|
    decreases |run|
  {
    if run == [] then s else End(Do(s, run[0]), run[1..])
  }

  lemma {:induction false} RunInv(s: Sys, run: seq<Action>)
    requires Inv(s) && IsRun(s, run)
    ensures Inv(End(s, run))
    decreases |run|
  {
    hide Inv, Enabled, Do;
    if run != [] {
      StepInv(s, run[0]);
      RunInv(Do(s, run[0]), run[1..]);
    }
  }

  /** holdingsleep, as process p would compute it. */
  predicate Holding(s: Sys, p: nat) {
    s.locked && s.pid == p
  }

  /** At any moment of any run: at most one process is inside, and holdingsleep says which. */
  lemma MutualExclusion(nproc: nat, ncpu: nat, run: seq<Action>, p: nat, q: nat)
    requires IsRun(Init(nproc, ncpu), run) && p < nproc && q < nproc
    ensures var s := End(Init(nproc, ncpu), run);
            (Owns(s.pc[p]) && Owns(s.pc[q]) ==> p == q) && (Owns(s.pc[p]) <==> Holding(s, p))
  {
    InitInv(nproc, ncpu);
    RunInv(Init(nproc, ncpu), run);
    var s := End(Init(nproc, ncpu), run);
    assert OwnerOk(s, p) && OwnerOk(s, q);
  }

  /**
   At any moment of any run: whoever waits on a lock that is free has a wakeup coming
   that has not got past it, so that nobody waits once its releaser has let go of lk.
   */
  lemma NoLostWakeup(nproc: nat, ncpu: nat, run: seq<Action>, p: nat)
    requires IsRun(Init(nproc, ncpu), run) && p < nproc
    ensures var s := End(Init(nproc, ncpu), run);
            && (Waiting(s, p) && !s.locked ==> WakeComing(s, p))
            && (!s.locked && s.lk.Nobody? ==> !(s.state[p].Sleeping? && s.onLock[p]))
  {
    InitInv(nproc, ncpu);
    RunInv(Init(nproc, ncpu), run);
    assert NotForgotten(End(Init(nproc, ncpu), run), p);
  }

  /** At any moment of any run: no process runs on two CPUs, and only RUNNING ones run or have a CPU to themselves. */
  lemma OneCpuEach(nproc: nat, ncpu: nat, run: seq<Action>, c: nat, d: nat)
    requires IsRun(Init(nproc, ncpu), run) && c < ncpu && d < ncpu && c != d
    ensures var s := End(Init(nproc, ncpu), run);
            s.cpu[c].InProc? ==> s.cpu[c] != s.cpu[d]
    ensures var s := End(Init(nproc, ncpu), run);
            s.cpu[c].InProc? ==> s.cpu[c].p < |s.pc| && !Off(s.pc[s.cpu[c].p])
  {
    InitInv(nproc, ncpu);
    RunInv(Init(nproc, ncpu), run);
    var s := End(Init(nproc, ncpu), run);
    assert CpuOk(s, c) && Elsewhere(s, c, d);
  }

  /** At any moment of any run: the lock is taken just when some process has it, and nobody goes to sleep otherwise. */
  lemma TakenBySomeone(nproc: nat, ncpu: nat, run: seq<Action>, p: nat)
    requires IsRun(Init(nproc, ncpu), run) && p < nproc
    ensures var s := End(Init(nproc, ncpu), run);
            && (s.locked <==> exists q :: 0 <= q < nproc && Owns(s.pc[q]))
            && (s.pc[p].SleepSpin? ==> exists q :: 0 <= q < nproc && q != p && Owns(s.pc[q]))
  {
    InitInv(nproc, ncpu);
    RunInv(Init(nproc, ncpu), run);
    var s := End(Init(nproc, ncpu), run);
    assert NotForgotten(s, p);
    if s.locked {
      assert OwnerOk(s, s.pid);
    }
    if q :| 0 <= q < nproc && Owns(s.pc[q]) {
      assert OwnerOk(s, q);
    }
  }

  /**
   A turn of the scheduler, at any moment of any run: a process whose lock is free is
   run if it is RUNNABLE, from where it left off, and otherwise nothing changes; a
   sleeper that is killed can be run.
   */
  lemma SchedulerTurn(nproc: nat, ncpu: nat, run: seq<Action>, c: nat, p: nat)
    requires IsRun(Init(nproc, ncpu), run) && c < ncpu && p < nproc
    requires var s := End(Init(nproc, ncpu), run); s.cpu[c].Looking? && s.plock[p].Nobody?
    ensures var s := End(Init(nproc, ncpu), run);
            && Enabled(s, SchedTake(c, p))
            && var t := Do(s, SchedTake(c, p));
            && Enabled(t, SchedTest(c))
            && var u := Do(t, SchedTest(c));
            && (u.cpu[c] == InProc(p) <==> s.state[p].Runnable?)
            && (s.state[p].Runnable? ==>
                  u.state[p].Running? && u.plock[p] == Proc(p) && (u.pc[p].Woken? <==> s.pc[p].SleepOff?)
                  && (s.pc[p].YieldOff? ==> u.pc[p] == YieldBack(s.pc[p].s)))
            && (!s.state[p].Runnable? ==> u == s)
    ensures var s := End(Init(nproc, ncpu), run);
            && Enabled(s, Kill(p)) && Do(s, Kill(p)).state[p] == if s.state[p].Sleeping? then Runnable else s.state[p]
  {
    InitInv(nproc, ncpu);
    RunInv(Init(nproc, ncpu), run);
    var s := End(Init(nproc, ncpu), run);
    assert StateOk(s, p) && PlockBy(s, p, p);
    assert s.plock[p := Nobody] == s.plock && s.cpu[c := Looking] == s.cpu;
  }

  /**
   At any moment of any run: a process on a CPU goes on unless it spins for a lock that
   is taken, and then somebody else has it. Nobody spins for a lock of its own.
   */
  lemma SpinsForOthers(nproc: nat, ncpu: nat, run: seq<Action>, c: nat)
    requires IsRun(Init(nproc, ncpu), run) && c < ncpu && End(Init(nproc, ncpu), run).cpu[c].InProc?
    ensures var s := End(Init(nproc, ncpu), run); var p := s.cpu[c].p;
            && p < nproc
            && (Enabled(s, Step(c)) <==>
                && (s.pc[p] == At(Wanting) || s.pc[p] == At(Leaving) ==> s.lk == Nobody)
                && (s.pc[p].SleepSpin? || s.pc[p].YieldSpin? ==> s.plock[p] == Nobody)
                && (s.pc[p].Wake? && s.pc[p].i < nproc && s.pc[p].i != p ==> s.plock[s.pc[p].i] == Nobody))
            && (!Enabled(s, Step(c)) ==>
                || (s.pc[p].At? && s.lk.Proc? && s.lk.p < nproc && s.lk.p != p && HoldsLk(s.pc[s.lk.p]))
                || (!s.pc[p].At? && !s.pc[p].Wake? && s.plock[p] != Nobody && s.plock[p] != Proc(p))
                || (s.pc[p].Wake? && s.pc[p].i < nproc && s.plock[s.pc[p].i] != Nobody
                    && s.plock[s.pc[p].i] != Proc(p)))
  {
    InitInv(nproc, ncpu);
    RunInv(Init(nproc, ncpu), run);
    var s := End(Init(nproc, ncpu), run);
    assert CpuOk(s, c);
    var p := s.cpu[c].p;
    assert LkBy(s, p) && PlockBy(s, p, p);
    if s.lk.Proc? {
      assert LkBy(s, s.lk.p);
    }
    if s.pc[p].Wake? && s.pc[p].i < nproc {
      assert PlockBy(s, p, s.pc[p].i);
    }
  }
}
