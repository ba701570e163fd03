/**
 The lives of processes in kernel/proc.c: fork, exit, reparent, wait and kill, by
 any number of processes, one lock operation at a time.

 `wait_lock` is modelled as it is. A process's own lock is held by that process
 exactly while its code is between acquiring it and letting the scheduler release
 it (`HoldsOwn`); everybody else takes it only to look or to change one thing, in
 one step that needs it free. The scheduler itself is left to SleepLock.dfy, so
 RUNNABLE and RUNNING are both `Live` here, and so is a process asleep for some
 other reason than wait.
 */
module ProcTree {

  datatype St = Unused | Used | Live | Asleep | Zombie

  datatype Pc =
    | Gone                                  // no code to run: unused, being made, or a switched-away zombie
    | Run
    | ForkParent(np: nat)                   // fork: np allocated, its parent not yet set
    | ForkGo(np: nat)                       // parent set, not yet RUNNABLE
    | ExitLoop(i: nat, status: int)         // exit: holds wait_lock, in reparent
    | ExitWakeInit(i: nat, status: int)     // child i handed over, about to wake init
    | ExitWakeParent(status: int)
    | ExitMark(status: int)                 // about to take its own lock and become a zombie
    | ExitDrop                              // a zombie, holds both locks
    | ExitSched                             // holds its own lock, about to switch away for good
    | WaitScan(i: nat, kids: bool)          // wait: holds wait_lock, looking for exited children
    | WaitOwn                               // in sleep: wants its own lock
    | WaitDrop                              // holds both, releases wait_lock
    | WaitMark                              // holds its own lock, about to sleep
    | WaitAsleep
    | WaitBack                              // woken, wants wait_lock again

  datatype Sys = Sys(
    pc: seq<Pc>, st: seq<St>, parent: seq<int>, pid: seq<nat>, xstate: seq<int>, killed: seq<bool>,
    waitlk: int, nextpid: nat, exited: map<nat, int>, reaped: seq<(nat, int)>)

  const NONE: int := -1
  const INIT: nat := 0

  datatype Action =
    | Fork(p: nat, np: nat)                 // fork up to the end of allocproc and the copies
    | ForkFail(p: nat, np: nat)             // fork that runs out of memory and frees its slot again
    | Exit(p: nat, status: int)             // exit up to acquire(&wait_lock)
    | Wait(p: nat)                          // wait up to acquire(&wait_lock)
    | Step(p: nat, copied: bool)            // go on; `copied` is whether a copyout succeeds
    | Kill(q: nat)

  predicate Shape(s: Sys) {
    |s.st| == |s.parent| == |s.pid| == |s.xstate| == |s.killed| == |s.pc| && |s.pc| > 0
  }

  function Init(nproc: nat): (s: Sys)
    requires nproc > 0
    ensures Shape(s) && |s.pc| == nproc
  {
    Sys(seq(nproc, i => if i == INIT then Run else Gone), seq(nproc, i => if i == INIT then Live else Unused),
        seq(nproc, i => NONE), seq(nproc, i => if i == INIT then 1 else 0), seq(nproc, i => 0), seq(nproc, i => false),
        NONE, 2, map[], [])
  }

  predicate HoldsWait(pc: Pc) {
    pc.ExitLoop? || pc.ExitWakeInit? || pc.ExitWakeParent? || pc.ExitMark? || pc.ExitDrop?
    || pc.WaitScan? || pc.WaitOwn? || pc.WaitDrop?
  }

  predicate HoldsOwn(pc: Pc) {
    pc.ExitDrop? || pc.ExitSched? || pc.WaitDrop? || pc.WaitMark?
  }

  predicate Exiting(pc: Pc) {
    pc.ExitLoop? || pc.ExitWakeInit? || pc.ExitWakeParent? || pc.ExitMark? || pc.ExitDrop? || pc.ExitSched?
  }

  // ---------------------------------------------------------------- steps

  predicate Enabled(s: Sys, a: Action) {
    Shape(s) &&
    match a
    case Fork(p, np) => p < |s.pc| && s.pc[p].Run? && np < |s.pc| && s.st[np].Unused? && !HoldsOwn(s.pc[np])
    case ForkFail(p, np) => p < |s.pc| && s.pc[p].Run? && np < |s.pc| && s.st[np].Unused? && !HoldsOwn(s.pc[np])
    case Exit(p, _) => p < |s.pc| && s.pc[p].Run? && p != INIT && s.waitlk == NONE
    case Wait(p) => p < |s.pc| && s.pc[p].Run? && s.waitlk == NONE
    case Step(p, _) => p < |s.pc| && CanStep(s, p)
    case Kill(q) => q < |s.pc| && !HoldsOwn(s.pc[q])
  }

  predicate CanStep(s: Sys, p: nat)
    requires Shape(s) && p < |s.pc|
  {
    match s.pc[p]
    case Gone => false
    case Run => false
    case WaitAsleep => false
    case ForkParent(np) => s.waitlk == NONE
    case ForkGo(np) => np < |s.pc| && !HoldsOwn(s.pc[np])
    case ExitWakeInit(_, _) => !HoldsOwn(s.pc[INIT])
    case ExitWakeParent(_) => 0 <= s.parent[p] < |s.pc| ==> !HoldsOwn(s.pc[s.parent[p]])
    case WaitScan(i, _) => i < |s.pc| && s.parent[i] == p ==> !HoldsOwn(s.pc[i])
    case WaitBack => s.waitlk == NONE
    case _ => true
  }

  /** wakeup(q), for the channel only q itself ever sleeps on. */
  function Wakeup(s: Sys, q: int): (t: Sys)
    requires Shape(s)
    ensures Shape(t) && |t.pc| == |s.pc|
  {
    if 0 <= q < |s.pc| && s.st[q].Asleep? then s.(st := s.st[q := Live], pc := s.pc[q := WaitBack]) else s
  }

  /** freeproc, for a child found dead. */
  function Reap(s: Sys, p: nat, i: nat): (t: Sys)
    requires Shape(s) && p < |s.pc| && i < |s.pc|
    ensures Shape(t) && |t.pc| == |s.pc|
  {
    s.(reaped := s.reaped + [(s.pid[i], s.xstate[i])],
       st := s.st[i := Unused], parent := s.parent[i := NONE], pid := s.pid[i := 0], xstate := s.xstate[i := 0],
       killed := s.killed[i := false], waitlk := NONE, pc := s.pc[p := Run])
  }

  function Do(s: Sys, a: Action): (t: Sys)
    requires Enabled(s, a)
    ensures Shape(t) && |t.pc| == |s.pc|
  {
    match a
    case Fork(p, np) =>
      s.(pc := s.pc[p := ForkParent(np)], st := s.st[np := Used], pid := s.pid[np := s.nextpid],
          nextpid := s.nextpid + 1)
    case ForkFail(p, np) =>
      s.(nextpid := s.nextpid + 1, parent := s.parent[np := NONE], pid := s.pid[np := 0], xstate := s.xstate[np := 0],
         killed := s.killed[np := false])
    case Exit(p, status) => s.(pc := s.pc[p := ExitLoop(0, status)], waitlk := p)
    case Wait(p) => s.(pc := s.pc[p := WaitScan(0, false)], waitlk := p)
    case Step(p, copied) => DoStep(s, p, copied)
    case Kill(q) => Wakeup(s.(killed := s.killed[q := true]), q)
  }

  function DoStep(s: Sys, p: nat, copied: bool): (t: Sys)
    requires Shape(s) && p < |s.pc| && CanStep(s, p)
    ensures Shape(t) && |t.pc| == |s.pc|
  {
    match s.pc[p]
    case ForkParent(np) =>
      if np >= |s.pc| then s else s.(pc := s.pc[p := ForkGo(np)], parent := s.parent[np := p])
    case ForkGo(np) => s.(pc := s.pc[p := Run][np := Run], st := s.st[np := Live])
    case ExitLoop(i, status) =>
      if i >= |s.pc| then s.(pc := s.pc[p := ExitWakeParent(status)])
      else if s.parent[i] == p then s.(parent := s.parent[i := INIT], pc := s.pc[p := ExitWakeInit(i, status)])
      else s.(pc := s.pc[p := ExitLoop(i + 1, status)])
    case ExitWakeInit(i, status) => Wakeup(s.(pc := s.pc[p := ExitLoop(i + 1, status)]), INIT)
    case ExitWakeParent(status) => Wakeup(s.(pc := s.pc[p := ExitMark(status)]), s.parent[p])
    case ExitMark(status) =>
      s.(pc := s.pc[p := ExitDrop], st := s.st[p := Zombie], xstate := s.xstate[p := status],
         exited := s.exited[s.pid[p] := status])
    case ExitDrop => s.(pc := s.pc[p := ExitSched], waitlk := NONE)
    case ExitSched => s.(pc := s.pc[p := Gone])
    case WaitScan(i, kids) =>
      if i < |s.pc| then
        if s.parent[i] != p then s.(pc := s.pc[p := WaitScan(i + 1, kids)])
        else if !s.st[i].Zombie? then s.(pc := s.pc[p := WaitScan(i + 1, true)])
        else if copied then Reap(s, p, i)
        else s.(pc := s.pc[p := Run], waitlk := NONE)
      else if !kids || s.killed[p] then s.(pc := s.pc[p := Run], waitlk := NONE)
      else s.(pc := s.pc[p := WaitOwn])
    case WaitOwn => s.(pc := s.pc[p := WaitDrop])
    case WaitDrop => s.(pc := s.pc[p := WaitMark], waitlk := NONE)
    case WaitMark => s.(pc := s.pc[p := WaitAsleep], st := s.st[p := Asleep])
    case WaitBack => s.(pc := s.pc[p := WaitScan(0, false)], waitlk := p)
    case _ => s
  }

  // ---------------------------------------------------------------- the invariant

  predicate PcOk(s: Sys, p: nat)
    requires Shape(s) && p < |s.pc|
  {
    && (p == INIT ==> !Exiting(s.pc[p]) && !s.pc[p].Gone?)
    && match s.pc[p]
       case Gone => s.st[p].Unused? || s.st[p].Used? || s.st[p].Zombie?
       case ExitDrop => s.st[p].Zombie?
       case ExitSched => s.st[p].Zombie?
       case WaitAsleep => s.st[p].Asleep?
       case ForkParent(np) => s.st[p].Live? && np < |s.pc| && s.st[np].Used? && s.pc[np].Gone? && s.parent[np] == NONE
       case ForkGo(np) => s.st[p].Live? && np < |s.pc| && s.st[np].Used? && s.pc[np].Gone? && s.parent[np] == p
       case _ => s.st[p].Live?
  }

  /** Two forks never make the same process. */
  predicate ForkApart(s: Sys, p: nat, q: nat)
    requires p < |s.pc| && q < |s.pc|
  {
    Making(s.pc[p]) && Making(s.pc[q]) && s.pc[p].np == s.pc[q].np ==> p == q
  }

  predicate Making(pc: Pc) {
    pc.ForkParent? || pc.ForkGo?
  }

  predicate WaitLockBy(s: Sys, p: nat)
    requires p < |s.pc|
  {
    s.waitlk == p <==> HoldsWait(s.pc[p])
  }

  /** A parent is neither dead nor a free slot, at any moment. */
  predicate ParentOk(s: Sys, p: nat)
    requires Shape(s) && p < |s.pc|
  {
    && (s.parent[p] != NONE ==> 0 <= s.parent[p] < |s.pc| && (s.st[s.parent[p]].Live? || s.st[s.parent[p]].Asleep?))
    && (s.st[p].Unused? || p == INIT ==> s.parent[p] == NONE)
    && ((s.st[p].Live? || s.st[p].Asleep? || s.st[p].Zombie?) && p != INIT ==> s.parent[p] != NONE)
  }

  /** An exiting process has handed over the children it has looked at. */
  predicate HandedOver(s: Sys, p: nat, j: nat)
    requires Shape(s) && p < |s.pc| && j < |s.pc|
  {
    match s.pc[p]
    case ExitLoop(i, _) => j < i ==> s.parent[j] != p
    case ExitWakeInit(i, _) => j <= i ==> s.parent[j] != p
    case ExitWakeParent(_) => s.parent[j] != p
    case ExitMark(_) => s.parent[j] != p
    case _ => true
  }

  /** A handover to init that init has not been told of is under way. */
  predicate TellingInit(s: Sys, q: nat) {
    q == INIT && 0 <= s.waitlk < |s.pc| && s.pc[s.waitlk].ExitWakeInit?
  }

  /** No process sleeps in wait, or is about to, beside a child that has exited. */
  predicate NotMissed(s: Sys, q: nat, j: nat)
    requires Shape(s) && q < |s.pc| && j < |s.pc|
  {
    s.parent[j] == q ==>
      match s.pc[q]
      case WaitScan(i, _) => j < i ==> !s.st[j].Zombie?
      case WaitOwn => !s.st[j].Zombie?
      case WaitDrop => !s.st[j].Zombie?
      case WaitMark => (s.st[j].Zombie? || s.pc[j].ExitMark?) ==> TellingInit(s, q)
      case WaitAsleep => (s.st[j].Zombie? || s.pc[j].ExitMark?) ==> TellingInit(s, q)
      case _ => true
  }

  predicate InSleep(pc: Pc) {
    pc.WaitOwn? || pc.WaitDrop? || pc.WaitMark? || pc.WaitAsleep?
  }

  /** Does p have a child among the first n slots? */
  ghost predicate ChildBelow(s: Sys, p: int, n: nat) {
    exists j :: 0 <= j < n && j < |s.parent| && s.parent[j] == p
  }

  /** The scan's flag tells of a child among the slots it has passed, and whoever goes to sleep has one. */
  ghost predicate ScanOk(s: Sys, p: nat)
    requires p < |s.pc|
  {
    && (s.pc[p].WaitScan? ==> s.pc[p].i <= |s.pc| && (s.pc[p].kids <==> ChildBelow(s, p, s.pc[p].i)))
    && (InSleep(s.pc[p]) ==> ChildBelow(s, p, |s.pc|))
  }

  // ---------------------------------------------------------------- what is recorded

  /** A zombie carries the status it exited with, and has not been reaped. */
  predicate RecordOk(s: Sys, p: nat)
    requires Shape(s) && p < |s.pc|
  {
    && (s.st[p].Unused? <==> s.pid[p] == 0) && (s.st[p].Unused? ==> s.xstate[p] == 0)
    && s.pid[p] < s.nextpid
    && (s.st[p].Zombie? ==> s.pid[p] in s.exited && s.exited[s.pid[p]] == s.xstate[p])
    && (!s.st[p].Zombie? && !s.st[p].Unused? ==> s.pid[p] !in s.exited)
  }

  predicate PidsApart(s: Sys, p: nat, q: nat)
    requires Shape(s) && p < |s.pc| && q < |s.pc|
  {
    s.pid[p] == s.pid[q] != 0 ==> p == q
  }

  /** Each reaped pair is a true one, and no pid is reaped twice or still has a slot. */
  ghost predicate ReapedOk(s: Sys)
    requires Shape(s)
  {
    && (forall k :: 0 <= k < |s.reaped| ==> ReapedAt(s, k))
    && (forall k, p :: 0 <= k < |s.reaped| && 0 <= p < |s.pc| ==> ReapedGone(s, k, p))
    && (forall j, k :: 0 <= j < |s.reaped| && 0 <= k < |s.reaped| && j != k ==> s.reaped[j].0 != s.reaped[k].0)
    && (forall id :: id in s.exited ==> 0 < id < s.nextpid && Accounted(s, id))
  }

  predicate ReapedAt(s: Sys, k: nat)
    requires k < |s.reaped|
  {
    s.reaped[k].0 in s.exited && s.exited[s.reaped[k].0] == s.reaped[k].1 && 0 < s.reaped[k].0 < s.nextpid
  }

  predicate ReapedGone(s: Sys, k: nat, p: nat)
    requires Shape(s) && k < |s.reaped| && p < |s.pc|
  {
    s.pid[p] != s.reaped[k].0
  }

  /** Who has exited is either reaped or waiting to be. */
  ghost predicate Accounted(s: Sys, id: nat)
    requires Shape(s)
  {
    || (exists k :: 0 <= k < |s.reaped| && s.reaped[k].0 == id)
    || (exists p :: 0 <= p < |s.pc| && s.pid[p] == id && s.st[p].Zombie?)
  }

  ghost predicate Inv(s: Sys) {
    && Shape(s) && NONE <= s.waitlk < |s.pc|
    && (forall p :: 0 <= p < |s.pc| ==> PcOk(s, p))
    && (forall p, q :: 0 <= p < |s.pc| && 0 <= q < |s.pc| ==> ForkApart(s, p, q))
    && (forall p :: 0 <= p < |s.pc| ==> WaitLockBy(s, p))
    && (forall p :: 0 <= p < |s.pc| ==> ParentOk(s, p))
    && (forall p, j :: 0 <= p < |s.pc| && 0 <= j < |s.pc| ==> HandedOver(s, p, j))
    && (forall q, j :: 0 <= q < |s.pc| && 0 <= j < |s.pc| ==> NotMissed(s, q, j))
    && (forall p :: 0 <= p < |s.pc| ==> ScanOk(s, p))
    && (forall p :: 0 <= p < |s.pc| ==> RecordOk(s, p))
    && (forall p, q :: 0 <= p < |s.pc| && 0 <= q < |s.pc| ==> PidsApart(s, p, q))
    && ReapedOk(s)
  }

  lemma InitInv(nproc: nat)
    requires nproc > 0
    ensures Inv(Init(nproc))
  {
  }

  // ---------------------------------------------------------------- every step keeps it

  ghost predicate Good(s: Sys, a: Action) {
    Inv(s) && Enabled(s, a)
  }

  lemma PcKept(s: Sys, a: Action, p: nat)
    requires Good(s, a) && p < |s.pc|
    ensures PcOk(Do(s, a), p)
  {
    hide PcOk, Inv;
    match a
    case Step(q, copied) =>
      if Making(s.pc[q]) {
        PcForkStep(s, q, copied, p);
      } else if Exiting(s.pc[q]) {
        if p == q {
          PcExitSelf(s, q, copied);
        } else {
          PcExitOther(s, q, copied, p);
        }
      } else {
        PcWaitStep(s, q, copied, p);
      }
    case _ => PcOther(s, a, p);
  }

  lemma PcOther(s: Sys, a: Action, p: nat)
    requires Good(s, a) && !a.Step? && p < |s.pc|
    ensures PcOk(Do(s, a), p)
  {
    hide ScanOk, ReapedOk, HandedOver, NotMissed, PidsApart, RecordOk, ForkApart, WaitLockBy;
    assert PcOk(s, p);
    match a
    case Fork(q, np) => assert PcOk(s, q) && PcOk(s, np) && ParentOk(s, np);
    case ForkFail(q, np) => assert PcOk(s, q) && PcOk(s, np) && ParentOk(s, np);
    case Exit(q, _) => assert PcOk(s, q);
    case Wait(q) => assert PcOk(s, q);
    case Kill(q) => assert PcOk(s, q);
  }

  lemma PcForkStep(s: Sys, q: nat, copied: bool, p: nat)
    requires Good(s, Step(q, copied)) && Making(s.pc[q]) && p < |s.pc|
    ensures PcOk(Do(s, Step(q, copied)), p)
  {
    hide ScanOk, ReapedOk, HandedOver, NotMissed, PidsApart, RecordOk, WaitLockBy, ParentOk;
    assert PcOk(s, p) && PcOk(s, q) && ForkApart(s, p, q);
  }

  lemma PcExitSelf(s: Sys, q: nat, copied: bool)
    requires Good(s, Step(q, copied)) && Exiting(s.pc[q])
    ensures PcOk(Do(s, Step(q, copied)), q)
  {
    hide ScanOk, ReapedOk, HandedOver, NotMissed, PidsApart, RecordOk, WaitLockBy, ForkApart;
    assert PcOk(s, q) && ParentOk(s, q) && PcOk(s, INIT);
  }

  lemma PcExitOther(s: Sys, q: nat, copied: bool, p: nat)
    requires Good(s, Step(q, copied)) && Exiting(s.pc[q]) && p < |s.pc| && p != q
    ensures PcOk(Do(s, Step(q, copied)), p)
  {
    hide ScanOk, ReapedOk, HandedOver, NotMissed, PidsApart, RecordOk, WaitLockBy, ForkApart;
    assert PcOk(s, p) && PcOk(s, q) && ParentOk(s, q) && PcOk(s, INIT);
  }

  lemma PcWaitStep(s: Sys, q: nat, copied: bool, p: nat)
    requires Good(s, Step(q, copied)) && !Making(s.pc[q]) && !Exiting(s.pc[q]) && p < |s.pc|
    ensures PcOk(Do(s, Step(q, copied)), p)
  {
    if s.pc[q].WaitScan? {
      PcScanStep(s, q, copied, p);
    } else {
      hide ScanOk, ReapedOk, HandedOver, NotMissed, PidsApart, RecordOk, WaitLockBy, ForkApart, ParentOk;
      assert PcOk(s, p) && PcOk(s, q);
    }
  }

  lemma PcScanStep(s: Sys, q: nat, copied: bool, p: nat)
    requires Good(s, Step(q, copied)) && s.pc[q].WaitScan? && p < |s.pc|
    ensures PcOk(Do(s, Step(q, copied)), p)
  {
    hide ScanOk, ReapedOk, HandedOver, NotMissed, PidsApart, RecordOk, WaitLockBy, ForkApart;
    assert PcOk(s, p) && PcOk(s, q) && ParentOk(s, p);
    if p != q {
      PcScanOther(s, q, copied, p);
    }
  }

  lemma PcScanOther(s: Sys, q: nat, copied: bool, p: nat)
    requires Enabled(s, Step(q, copied)) && s.pc[q].WaitScan? && p < |s.pc| && p != q
    requires PcOk(s, p) && ParentOk(s, p)
    ensures PcOk(Do(s, Step(q, copied)), p)
  {
  }

  lemma ForkApartKept(s: Sys, a: Action, p: nat, q: nat)
    requires Good(s, a) && p < |s.pc| && q < |s.pc|
    ensures ForkApart(Do(s, a), p, q)
  {
    hide ScanOk, ReapedOk, HandedOver, NotMissed, PidsApart, RecordOk, ParentOk, WaitLockBy;
    if a.Step? {
      if Making(s.pc[a.p]) {
        ForkApartMaking(s, a.p, a.copied, p, q);
      } else {
        ForkApartOther(s, a.p, a.copied, p, q);
      }
    } else {
      assert ForkApart(s, p, q) && PcOk(s, p) && PcOk(s, q);
    }
  }

  lemma ForkApartMaking(s: Sys, me: nat, copied: bool, p: nat, q: nat)
    requires Good(s, Step(me, copied)) && Making(s.pc[me]) && p < |s.pc| && q < |s.pc|
    ensures ForkApart(Do(s, Step(me, copied)), p, q)
  {
    hide ScanOk, ReapedOk, HandedOver, NotMissed, PidsApart, RecordOk, ParentOk, WaitLockBy, PcOk;
    assert ForkApart(s, p, q);
  }

  lemma ForkApartOther(s: Sys, me: nat, copied: bool, p: nat, q: nat)
    requires Good(s, Step(me, copied)) && !Making(s.pc[me]) && p < |s.pc| && q < |s.pc|
    ensures ForkApart(Do(s, Step(me, copied)), p, q)
  {
    hide ScanOk, ReapedOk, HandedOver, NotMissed, PidsApart, RecordOk, ParentOk, WaitLockBy, PcOk;
    assert ForkApart(s, p, q);
  }

  lemma WaitLockKept(s: Sys, a: Action, p: nat)
    requires Good(s, a) && p < |s.pc|
    ensures WaitLockBy(Do(s, a), p) && NONE <= Do(s, a).waitlk < |s.pc|
  {
    hide ScanOk, ReapedOk, HandedOver, NotMissed, PidsApart, RecordOk, ForkApart;
    assert WaitLockBy(s, p) && PcOk(s, p);
    if a.Step? {
      assert WaitLockBy(s, a.p) && PcOk(s, a.p);
    }
  }

  lemma ParentKept(s: Sys, a: Action, p: nat)
    requires Good(s, a) && p < |s.pc|
    ensures ParentOk(Do(s, a), p)
  {
    if a.Step? {
      ParentStep(s, a.p, a.copied, p);
    } else {
      hide ScanOk, ReapedOk, NotMissed, PidsApart, RecordOk, ForkApart, WaitLockBy, HandedOver;
      assert ParentOk(s, p) && PcOk(s, p);
    }
  }

  lemma ParentStep(s: Sys, q: nat, copied: bool, p: nat)
    requires Good(s, Step(q, copied)) && p < |s.pc|
    ensures ParentOk(Do(s, Step(q, copied)), p)
  {
    if Exiting(s.pc[q]) {
      ParentExitStep(s, q, copied, p);
    } else {
      hide ScanOk, ReapedOk, NotMissed, PidsApart, RecordOk, ForkApart, WaitLockBy, HandedOver;
      assert ParentOk(s, p) && PcOk(s, p) && PcOk(s, q);
    }
  }

  lemma ParentExitStep(s: Sys, q: nat, copied: bool, p: nat)
    requires Good(s, Step(q, copied)) && Exiting(s.pc[q]) && p < |s.pc|
    ensures ParentOk(Do(s, Step(q, copied)), p)
  {
    hide ScanOk, ReapedOk, NotMissed, PidsApart, RecordOk, ForkApart, WaitLockBy;
    assert ParentOk(s, p) && PcOk(s, INIT) && PcOk(s, q) && HandedOver(s, q, p);
  }

  lemma HandedOverKept(s: Sys, a: Action, p: nat, j: nat)
    requires Good(s, a) && p < |s.pc| && j < |s.pc|
    ensures HandedOver(Do(s, a), p, j)
  {
    hide ScanOk, ReapedOk, NotMissed, PidsApart, RecordOk, ForkApart;
    assert HandedOver(s, p, j) && PcOk(s, p) && WaitLockBy(s, p);
    if a.Step? {
      assert PcOk(s, a.p) && WaitLockBy(s, a.p);
    }
  }

  lemma NotMissedStep(s: Sys, p: nat, copied: bool, q: nat, j: nat)
    requires Good(s, Step(p, copied)) && q < |s.pc| && j < |s.pc|
    ensures NotMissed(Do(s, Step(p, copied)), q, j)
  {
    hide PcOk, Inv, NotMissed;
    if Making(s.pc[p]) {
      NotMissedFork(s, p, copied, q, j);
    } else if Exiting(s.pc[p]) {
      NotMissedExit(s, p, copied, q, j);
    } else {
      NotMissedWait(s, p, copied, q, j);
    }
  }

  lemma NotMissedFork(s: Sys, p: nat, copied: bool, q: nat, j: nat)
    requires Good(s, Step(p, copied)) && Making(s.pc[p]) && q < |s.pc| && j < |s.pc|
    ensures NotMissed(Do(s, Step(p, copied)), q, j)
  {
    hide ScanOk, ReapedOk, PidsApart, RecordOk, ForkApart, HandedOver, ParentOk;
    assert NotMissed(s, q, j) && PcOk(s, p) && PcOk(s, j) && WaitLockBy(s, p);
    if 0 <= s.waitlk < |s.pc| {
      assert PcOk(s, s.waitlk);
    }
  }

  lemma NotMissedExit(s: Sys, p: nat, copied: bool, q: nat, j: nat)
    requires Good(s, Step(p, copied)) && Exiting(s.pc[p]) && q < |s.pc| && j < |s.pc|
    ensures NotMissed(Do(s, Step(p, copied)), q, j)
  {
    hide ScanOk, ReapedOk, PidsApart, RecordOk, ForkApart, HandedOver;
    assert NotMissed(s, q, j) && PcOk(s, q) && PcOk(s, p) && PcOk(s, INIT);
    assert WaitLockBy(s, q) && WaitLockBy(s, p) && WaitLockBy(s, j);
  }

  lemma NotMissedWait(s: Sys, p: nat, copied: bool, q: nat, j: nat)
    requires Good(s, Step(p, copied)) && !Exiting(s.pc[p]) && !Making(s.pc[p]) && q < |s.pc| && j < |s.pc|
    ensures NotMissed(Do(s, Step(p, copied)), q, j)
  {
    hide ScanOk, ReapedOk, PidsApart, RecordOk, ForkApart, HandedOver, ParentOk;
    assert NotMissed(s, q, j) && PcOk(s, p) && PcOk(s, j);
    assert WaitLockBy(s, q) && WaitLockBy(s, p) && WaitLockBy(s, j);
  }

  lemma NotMissedOther(s: Sys, a: Action, q: nat, j: nat)
    requires Good(s, a) && !a.Step? && q < |s.pc| && j < |s.pc|
    ensures NotMissed(Do(s, a), q, j)
  {
    hide ScanOk, ReapedOk, PidsApart, RecordOk, ForkApart, HandedOver;
    assert NotMissed(s, q, j) && PcOk(s, q) && PcOk(s, j);
    assert WaitLockBy(s, q) && ParentOk(s, j);
    if a.Kill? {
      assert PcOk(s, a.q);
      if 0 <= s.waitlk < |s.pc| {
        assert WaitLockBy(s, s.waitlk) && PcOk(s, s.waitlk);
      }
    }
  }

  /**
   A process gets a parent by its fork, is handed to init by its exiting parent, and
   loses its parent by being reaped: no other step changes who its parent is.
   */
  ghost predicate ParentMoved(s: Sys, t: Sys, p: nat, j: nat)
    requires Shape(s) && Shape(t) && |t.pc| == |s.pc| && p < |s.pc| && j < |s.pc|
  {
    || (s.pc[p] == ForkParent(j) && s.parent[j] == NONE && t.parent[j] == p)
    || (Exiting(s.pc[p]) && s.waitlk == p && s.parent[j] == p && t.parent[j] == INIT)
    || (s.pc[p].WaitScan? && s.parent[j] == p && s.st[j].Zombie? && t.parent[j] == NONE && t.st[j].Unused?
        && t.reaped == s.reaped + [(s.pid[j], s.xstate[j])])
  }

  lemma ParentMoves(s: Sys, a: Action, j: nat)
    requires Inv(s) && Enabled(s, a) && j < |s.pc| && Do(s, a).parent[j] != s.parent[j]
    ensures a.Step? && ParentMoved(s, Do(s, a), a.p, j)
  {
    hide ReapedOk, NotMissed, PidsApart, RecordOk, ForkApart, HandedOver, ScanOk;
    assert ParentOk(s, j);
    if a.Step? {
      assert PcOk(s, a.p) && WaitLockBy(s, a.p);
    }
  }

  lemma ScanKept(s: Sys, a: Action, p: nat)
    requires Good(s, a) && p < |s.pc|
    ensures ScanOk(Do(s, a), p)
  {
    if a.Step? && a.p == p {
      ScanOwn(s, p, a.copied);
    } else {
      ScanOther(s, a, p);
    }
  }

  lemma ScanOwn(s: Sys, p: nat, copied: bool)
    requires Good(s, Step(p, copied))
    ensures ScanOk(Do(s, Step(p, copied)), p)
  {
    hide ReapedOk, NotMissed, PidsApart, RecordOk, ForkApart, WaitLockBy, HandedOver, ParentOk;
    assert ScanOk(s, p);
    var t := Do(s, Step(p, copied));
    if s.pc[p].WaitScan? && t.pc[p].WaitScan? {
      assert t.parent == s.parent;
      if s.parent[s.pc[p].i] == p {
        assert t.parent[s.pc[p].i] == p;
      }
    }
  }

  lemma ScanOther(s: Sys, a: Action, p: nat)
    requires Good(s, a) && p < |s.pc| && !(a.Step? && a.p == p)
    ensures ScanOk(Do(s, a), p)
  {
    var t := Do(s, a);
    if t.pc[p].WaitScan? || InSleep(t.pc[p]) {
      OthersKeep(s, a, p);
      if a.Wait? && a.p == p {
        assert !ChildBelow(t, p, 0);
      } else {
        assert ScanOk(s, p);
      }
    }
  }

  /** What others do changes neither a scan nor, while it goes on, whose children there are. */
  lemma OthersKeep(s: Sys, a: Action, p: nat)
    requires Good(s, a) && p < |s.pc| && !(a.Step? && a.p == p)
    requires var t := Do(s, a); t.pc[p].WaitScan? || InSleep(t.pc[p])
    ensures var t := Do(s, a); t.pc[p] == s.pc[p] || (a.Wait? && a.p == p)
    ensures var t := Do(s, a); forall j :: 0 <= j < |s.pc| && s.parent[j] == p ==> t.parent[j] == p
    ensures var t := Do(s, a); s.pc[p].WaitScan? ==> t.parent == s.parent
  {
    hide Inv, Do, CanStep;
    var t := Do(s, a);
    OthersLeave(s, a, p);
    forall j | 0 <= j < |s.pc| && s.parent[j] == p
      ensures t.parent[j] == p
    {
      if t.parent[j] != s.parent[j] {
        ParentMoves(s, a, j);
      }
    }
    if s.pc[p].WaitScan? {
      ScanFreezes(s, a, p);
    }
  }

  lemma OthersLeave(s: Sys, a: Action, p: nat)
    requires Good(s, a) && p < |s.pc| && !(a.Step? && a.p == p)
    requires var t := Do(s, a); t.pc[p].WaitScan? || InSleep(t.pc[p])
    ensures Do(s, a).pc[p] == s.pc[p] || (a.Wait? && a.p == p)
  {
    hide ScanOk, ReapedOk, NotMissed, PidsApart, RecordOk, ForkApart, HandedOver, WaitLockBy, ParentOk;
    assert PcOk(s, p);
    if a.Step? {
      assert PcOk(s, a.p);
    }
  }

  lemma NoParent(s: Sys, q: nat)
    requires Inv(s) && q < |s.pc| && s.st[q].Unused?
    ensures s.parent[q := NONE] == s.parent
  {
    assert ParentOk(s, q);
  }

  lemma ScanFreezes(s: Sys, a: Action, p: nat)
    requires Good(s, a) && p < |s.pc| && !(a.Step? && a.p == p) && s.pc[p].WaitScan?
    ensures Do(s, a).parent == s.parent
  {
    hide ScanOk, ReapedOk, NotMissed, PidsApart, RecordOk, ForkApart, HandedOver, PcOk, ParentOk;
    assert WaitLockBy(s, p);
    if a.ForkFail? {
      NoParent(s, a.np);
    }
    if a.Step? {
      assert WaitLockBy(s, a.p);
    }
  }

  lemma RecordKept(s: Sys, a: Action, p: nat)
    requires Good(s, a) && p < |s.pc|
    ensures RecordOk(Do(s, a), p)
  {
    if a.Step? {
      if Exiting(s.pc[a.p]) {
        RecordExitStep(s, a.p, a.copied, p);
      } else {
        RecordWaitStep(s, a.p, a.copied, p);
      }
    } else {
      RecordOther(s, a, p);
    }
  }

  lemma RecordOther(s: Sys, a: Action, p: nat)
    requires Good(s, a) && !a.Step? && p < |s.pc|
    ensures RecordOk(Do(s, a), p)
  {
    hide ScanOk, ReapedAt, ReapedGone, Accounted, NotMissed, ForkApart, WaitLockBy, HandedOver, ParentOk, PidsApart;
    assert RecordOk(s, p);
    if a.Kill? {
      assert PcOk(s, a.q);
    }
  }

  lemma RecordExitStep(s: Sys, q: nat, copied: bool, p: nat)
    requires Good(s, Step(q, copied)) && Exiting(s.pc[q]) && p < |s.pc|
    ensures RecordOk(Do(s, Step(q, copied)), p)
  {
    hide ScanOk, ReapedOk, NotMissed, ForkApart, WaitLockBy, HandedOver, ParentOk;
    assert RecordOk(s, p) && PcOk(s, q) && RecordOk(s, q) && PidsApart(s, p, q);
  }

  lemma RecordWaitStep(s: Sys, q: nat, copied: bool, p: nat)
    requires Good(s, Step(q, copied)) && !Exiting(s.pc[q]) && p < |s.pc|
    ensures RecordOk(Do(s, Step(q, copied)), p)
  {
    hide ScanOk, ReapedOk, NotMissed, ForkApart, WaitLockBy, HandedOver, ParentOk, PidsApart;
    assert RecordOk(s, p) && PcOk(s, q);
  }

  lemma PidsApartKept(s: Sys, a: Action, p: nat, q: nat)
    requires Good(s, a) && p < |s.pc| && q < |s.pc|
    ensures PidsApart(Do(s, a), p, q)
  {
    hide ScanOk, ReapedOk, NotMissed, ForkApart, WaitLockBy, HandedOver, PcOk, ParentOk;
    assert PidsApart(s, p, q) && RecordOk(s, p) && RecordOk(s, q);
  }

  lemma AccountedKept(s: Sys, t: Sys, id: nat)
    requires Shape(s) && Shape(t) && |t.pc| == |s.pc| && Accounted(s, id)
    requires s.reaped <= t.reaped
    requires forall p :: 0 <= p < |s.pc| && s.pid[p] == id && s.st[p].Zombie? ==>
               (t.pid[p] == id && t.st[p].Zombie?) || (|t.reaped| > |s.reaped| && t.reaped[|s.reaped|].0 == id)
    ensures Accounted(t, id)
  {
    if k :| 0 <= k < |s.reaped| && s.reaped[k].0 == id {
      assert t.reaped[k].0 == id;
    } else {
      var p :| 0 <= p < |s.pc| && s.pid[p] == id && s.st[p].Zombie?;
    }
  }

  /** Steps that change no record. */
  lemma RecordsUntouched(s: Sys, t: Sys)
    requires Shape(s) && Shape(t) && |t.pc| == |s.pc| && ReapedOk(s)
    requires t.reaped == s.reaped && t.exited == s.exited && t.pid == s.pid && t.nextpid == s.nextpid
    requires forall p :: 0 <= p < |s.pc| ==> (s.st[p].Zombie? ==> t.st[p].Zombie?)
    ensures ReapedOk(t)
  {
    forall k | 0 <= k < |s.reaped|
      ensures ReapedAt(t, k)
    {
      assert ReapedAt(s, k);
    }
    forall k, p | 0 <= k < |s.reaped| && 0 <= p < |s.pc|
      ensures ReapedGone(t, k, p)
    {
      assert ReapedGone(s, k, p);
    }
    forall id | id in t.exited
      ensures Accounted(t, id)
    {
      AccountedKept(s, t, id);
    }
  }

  lemma ForkRecords(s: Sys, p: nat, np: nat)
    requires Good(s, Fork(p, np))
    ensures ReapedOk(Do(s, Fork(p, np)))
  {
    hide ScanOk, NotMissed, ForkApart, WaitLockBy, HandedOver, ParentOk, PcOk;
    var t := Do(s, Fork(p, np));
    assert RecordOk(s, np);
    forall k | 0 <= k < |s.reaped|
      ensures ReapedAt(t, k)
    {
      assert ReapedAt(s, k);
    }
    forall k, q | 0 <= k < |s.reaped| && 0 <= q < |s.pc|
      ensures ReapedGone(t, k, q)
    {
      assert ReapedGone(s, k, q) && ReapedAt(s, k);
    }
    forall id | id in t.exited
      ensures Accounted(t, id)
    {
      AccountedKept(s, t, id);
    }
  }

  lemma NothingNew(s: Sys, p: nat, np: nat)
    requires Good(s, ForkFail(p, np))
    ensures ReapedOk(Do(s, ForkFail(p, np)))
  {
    hide NotMissed, ForkApart, WaitLockBy, HandedOver, ParentOk, PcOk, ScanOk;
    var t := Do(s, ForkFail(p, np));
    assert RecordOk(s, np) && t.pid == s.pid;
    forall k | 0 <= k < |s.reaped|
      ensures ReapedAt(t, k)
    {
      assert ReapedAt(s, k);
    }
    forall k, q | 0 <= k < |s.reaped| && 0 <= q < |s.pc|
      ensures ReapedGone(t, k, q)
    {
      assert ReapedGone(s, k, q);
    }
    forall id | id in t.exited
      ensures Accounted(t, id)
    {
      AccountedKept(s, t, id);
    }
  }

  lemma ExitRecords(s: Sys, p: nat, copied: bool)
    requires Good(s, Step(p, copied)) && s.pc[p].ExitMark?
    ensures ReapedOk(Do(s, Step(p, copied)))
  {
    hide ScanOk, NotMissed, ForkApart, WaitLockBy, HandedOver, ParentOk;
    var t := Do(s, Step(p, copied));
    assert RecordOk(s, p) && PcOk(s, p);
    forall k | 0 <= k < |s.reaped|
      ensures ReapedAt(t, k)
    {
      assert ReapedAt(s, k) && ReapedGone(s, k, p);
    }
    forall k, q | 0 <= k < |s.reaped| && 0 <= q < |s.pc|
      ensures ReapedGone(t, k, q)
    {
      assert ReapedGone(s, k, q);
    }
    forall id | id in t.exited
      ensures 0 < id < t.nextpid && Accounted(t, id)
    {
      if id == s.pid[p] {
        assert t.pid[p] == id && t.st[p].Zombie?;
      } else {
        AccountedKept(s, t, id);
      }
    }
  }

  lemma ReapRecords(s: Sys, p: nat, i: nat)
    requires Inv(s) && p < |s.pc| && i < |s.pc| && s.st[i].Zombie?
    ensures ReapedOk(Reap(s, p, i))
  {
    hide ScanOk, NotMissed, ForkApart, WaitLockBy, HandedOver, ParentOk, PcOk;
    var t := Reap(s, p, i);
    var n := |s.reaped|;
    assert RecordOk(s, i) && t.reaped[..n] == s.reaped;
    forall k | 0 <= k < |t.reaped|
      ensures ReapedAt(t, k)
    {
      if k < n {
        assert ReapedAt(s, k);
      }
    }
    forall k, q | 0 <= k < |t.reaped| && 0 <= q < |t.pc|
      ensures ReapedGone(t, k, q)
    {
      assert PidsApart(s, i, q) && RecordOk(s, q);
      if k < n {
        assert ReapedGone(s, k, q) && ReapedAt(s, k);
      }
    }
    forall j, k | 0 <= j < |t.reaped| && 0 <= k < |t.reaped| && j != k
      ensures t.reaped[j].0 != t.reaped[k].0
    {
      if j == n {
        assert ReapedGone(s, k, i);
      } else if k == n {
        assert ReapedGone(s, j, i);
      }
    }
    forall id | id in t.exited
      ensures Accounted(t, id)
    {
      forall q | 0 <= q < |s.pc| && s.pid[q] == id && s.st[q].Zombie?
        ensures (t.pid[q] == id && t.st[q].Zombie?) || (|t.reaped| > |s.reaped| && t.reaped[|s.reaped|].0 == id)
      {
        assert PidsApart(s, i, q);
      }
      AccountedKept(s, t, id);
    }
  }

  lemma RecordsKept(s: Sys, a: Action)
    requires Good(s, a)
    ensures ReapedOk(Do(s, a))
  {
    hide ScanOk, ReapedOk, NotMissed, ForkApart, WaitLockBy, HandedOver, ParentOk, PidsApart, RecordOk;
    var t := Do(s, a);
    match a
    case Fork(p, np) => ForkRecords(s, p, np);
    case ForkFail(p, np) =>
      NothingNew(s, p, np);
    case Step(p, copied) =>
      assert PcOk(s, p);
      if s.pc[p].ExitMark? {
        ExitRecords(s, p, copied);
      } else if s.pc[p].WaitScan? && s.pc[p].i < |s.pc| && s.parent[s.pc[p].i] == p && s.st[s.pc[p].i].Zombie?
          && copied {
        ReapRecords(s, p, s.pc[p].i);
      } else {
        RecordsUntouched(s, t);
      }
    case Exit(_, _) => RecordsUntouched(s, t);
    case Wait(_) => RecordsUntouched(s, t);
    case Kill(_) => RecordsUntouched(s, t);
  }

  /** Every step of every process keeps the invariant. */
  lemma StepInv(s: Sys, a: Action)
    requires Inv(s) && Enabled(s, a)
    ensures Inv(Do(s, a))
  {
    hide PcOk, ForkApart, WaitLockBy, ParentOk, HandedOver, NotMissed, RecordOk, PidsApart, ReapedOk, Do, Enabled,
      ScanOk;
    var t := Do(s, a);
    forall p: nat | p < |s.pc|
      ensures PcOk(t, p) && WaitLockBy(t, p) && ParentOk(t, p) && RecordOk(t, p) && ScanOk(t, p)
      ensures NONE <= t.waitlk < |t.pc|
    {
      ScanKept(s, a, p);
      PcKept(s, a, p);
      WaitLockKept(s, a, p);
      ParentKept(s, a, p);
      RecordKept(s, a, p);
    }
    WaitLockKept(s, a, INIT);
    forall p: nat, q: nat | p < |s.pc| && q < |s.pc|
      ensures ForkApart(t, p, q)
    {
      ForkApartKept(s, a, p, q);
    }
    forall p: nat, q: nat | p < |s.pc| && q < |s.pc|
      ensures HandedOver(t, p, q)
    {
      HandedOverKept(s, a, p, q);
    }
    forall p: nat, q: nat | p < |s.pc| && q < |s.pc|
      ensures PidsApart(t, p, q)
    {
      PidsApartKept(s, a, p, q);
    }
    forall p: nat, q: nat | p < |s.pc| && q < |s.pc|
      ensures NotMissed(t, p, q)
    {
      NotMissedKept(s, a, p, q);
    }
    RecordsKept(s, a);
  }

  lemma NotMissedKept(s: Sys, a: Action, q: nat, j: nat)
    requires Good(s, a) && q < |s.pc| && j < |s.pc|
    ensures NotMissed(Do(s, a), q, j)
  {
    if a.Step? {
      NotMissedStep(s, a.p, a.copied, q, j);
    } else {
      NotMissedOther(s, a, q, j);
    }
  }

  // ---------------------------------------------------------------- whole runs

  ghost predicate IsRun(s: Sys, run: seq<Action>)
    decreases |run|
  {
    run != [] ==> Enabled(s, run[0]) && IsRun(Do(s, run[0]), run[1..])
  }

  ghost function End(s: Sys, run: seq<Action>): (t: Sys)
    requires IsRun(s, run)
    ensures Shape(s) ==> Shape(t) && |t.pc| == |s.pc|
    decreases |run|
  {
    if run == [] then s else End(Do(s, run[0]), run[1..])
  }

  lemma {:induction false} RunInv(s: Sys, run: seq<Action>)
    requires Inv(s) && IsRun(s, run)
    ensures Inv(End(s, run))
    decreases |run|
  {
    hide Inv, Enabled, Do;
    if run != [] {
      StepInv(s, run[0]);
      RunInv(Do(s, run[0]), run[1..]);
    }
  }

  /** At any moment of any run, a process's parent is neither a zombie nor a free slot. */
  lemma ParentsAlive(nproc: nat, run: seq<Action>, p: nat)
    requires nproc > 0 && IsRun(Init(nproc), run) && p < nproc
    ensures var s := End(Init(nproc), run);
            s.parent[p] != NONE ==> 0 <= s.parent[p] < nproc && !s.st[s.parent[p]].Zombie? && !s.st[s.parent[p]].Unused?
  {
    InitInv(nproc);
    RunInv(Init(nproc), run);
    assert ParentOk(End(Init(nproc), run), p);
  }

  /** Whenever wait_lock is free, nobody sleeps in wait who has an exited child to collect. */
  lemma NoSleepingBesideZombie(nproc: nat, run: seq<Action>, q: nat, j: nat)
    requires nproc > 0 && IsRun(Init(nproc), run) && q < nproc && j < nproc
    ensures var s := End(Init(nproc), run);
            s.waitlk == NONE && s.parent[j] == q && s.st[j].Zombie? ==> !s.st[q].Asleep? && !s.pc[q].WaitMark?
  {
    InitInv(nproc);
    RunInv(Init(nproc), run);
    var s := End(Init(nproc), run);
    assert NotMissed(s, q, j) && PcOk(s, q);
  }

  /**
   Over any run, each exited process is accounted for exactly once: it is reaped
   once, with its own status, or still there as a zombie with its own status.
   */
  lemma ReapedOnce(nproc: nat, run: seq<Action>, id: nat)
    requires nproc > 0 && IsRun(Init(nproc), run) && id in End(Init(nproc), run).exited
    ensures var s := End(Init(nproc), run);
            (exists k :: 0 <= k < |s.reaped| && s.reaped[k] == (id, s.exited[id])) !=
            (exists p :: 0 <= p < |s.pc| && s.pid[p] == id && s.st[p].Zombie? && s.xstate[p] == s.exited[id])
    ensures var s := End(Init(nproc), run);
            forall j, k :: 0 <= j < |s.reaped| && 0 <= k < |s.reaped| && s.reaped[j].0 == s.reaped[k].0 ==> j == k
  {
    InitInv(nproc);
    RunInv(Init(nproc), run);
    var s := End(Init(nproc), run);
    assert Accounted(s, id);
    if k :| 0 <= k < |s.reaped| && s.reaped[k].0 == id {
      assert ReapedAt(s, k);
      forall p | 0 <= p < |s.pc|
        ensures s.pid[p] != id
      {
        assert ReapedGone(s, k, p);
      }
    } else {
      var p :| 0 <= p < |s.pc| && s.pid[p] == id && s.st[p].Zombie?;
      assert RecordOk(s, p);
    }
  }

  /**
   How a wait ends, at any moment of any run. With the whole table scanned it returns
   -1 if and only if the process has no child or has been killed, and else goes to
   sleep, with no exited child to collect. Before that it returns just when it stands
   at an exited child, the first one there is, with that child freed and its pid and
   status given, or with -1 and nothing changed if the status cannot be copied out.
   */
  lemma WaitEnds(nproc: nat, run: seq<Action>, p: nat, copied: bool)
    requires nproc > 0 && IsRun(Init(nproc), run)
    requires var s := End(Init(nproc), run); Enabled(s, Step(p, copied)) && s.pc[p].WaitScan?
    ensures var s := End(Init(nproc), run); var t := Do(s, Step(p, copied)); var i := s.pc[p].i;
            && i <= nproc
            && (i == nproc ==>
                  && t == s.(pc := t.pc, waitlk := t.waitlk)
                  && (t.pc[p].Run? <==> s.killed[p] || forall j :: 0 <= j < nproc ==> s.parent[j] != p)
                  && (t.pc[p].Run? || t.pc[p].WaitOwn?)
                  && (t.pc[p].WaitOwn? ==> forall j :: 0 <= j < nproc && s.parent[j] == p ==> !s.st[j].Zombie?))
            && (i < nproc ==>
                  && (t.pc[p].Run? <==> s.parent[i] == p && s.st[i].Zombie?)
                  && (t.pc[p].Run? || t.pc[p].WaitScan?)
                  && (t.pc[p].Run? ==> forall j :: 0 <= j < i && s.parent[j] == p ==> !s.st[j].Zombie?)
                  && (t.pc[p].Run? && copied ==>
                        t.reaped == s.reaped + [(s.pid[i], s.xstate[i])] && t.st == s.st[i := Unused])
                  && (!(t.pc[p].Run? && copied) ==> t == s.(pc := t.pc, waitlk := t.waitlk)))
  {
    InitInv(nproc);
    RunInv(Init(nproc), run);
    var s := End(Init(nproc), run);
    assert ScanOk(s, p);
    forall j | 0 <= j < nproc && s.parent[j] == p && j < s.pc[p].i
      ensures !s.st[j].Zombie?
    {
      assert NotMissed(s, p, j);
    }
  }

  /** Whoever sleeps in wait, or is about to, has a child that can wake it. */
  lemma SleeperHasChild(nproc: nat, run: seq<Action>, p: nat)
    requires nproc > 0 && IsRun(Init(nproc), run) && p < nproc && InSleep(End(Init(nproc), run).pc[p])
    ensures exists j :: 0 <= j < nproc && End(Init(nproc), run).parent[j] == p
  {
    InitInv(nproc);
    RunInv(Init(nproc), run);
    assert ScanOk(End(Init(nproc), run), p);
  }

  /** It wants wait_lock next. */
  predicate WantsWait(pc: Pc) {
    pc.ForkParent? || pc.WaitBack?
  }

  /**
   At any moment of any run: a process in the middle of fork, exit or wait goes on
   unless it is asleep, wants wait_lock while another has it, or wants to look at
   another that holds its own lock.
   */
  lemma StopsForOthers(nproc: nat, run: seq<Action>, p: nat, copied: bool)
    requires nproc > 0 && IsRun(Init(nproc), run) && p < nproc
    requires var pc := End(Init(nproc), run).pc[p]; !pc.Gone? && !pc.Run? && !pc.WaitAsleep?
    ensures var s := End(Init(nproc), run);
            && (!Enabled(s, Step(p, copied)) ==>
                || (WantsWait(s.pc[p]) && 0 <= s.waitlk < nproc && s.waitlk != p && HoldsWait(s.pc[s.waitlk]))
                || (!WantsWait(s.pc[p]) && exists q :: 0 <= q < nproc && q != p && HoldsOwn(s.pc[q])))
            && (WantsWait(s.pc[p]) && s.waitlk == NONE ==> Enabled(s, Step(p, copied)))
            && ((forall q :: 0 <= q < nproc ==> !HoldsOwn(s.pc[q])) && !WantsWait(s.pc[p]) ==>
                  Enabled(s, Step(p, copied)))
  {
    hide ReapedOk, NotMissed, PidsApart, RecordOk, ForkApart, HandedOver;
    InitInv(nproc);
    RunInv(Init(nproc), run);
    var s := End(Init(nproc), run);
    assert PcOk(s, p) && PcOk(s, INIT) && WaitLockBy(s, p) && ParentOk(s, p) && ScanOk(s, p);
    if 0 <= s.waitlk < nproc {
      assert WaitLockBy(s, s.waitlk);
    }
    match s.pc[p]
    case WaitScan(i, _) =>
      if i < nproc {
        assert PcOk(s, i) && ParentOk(s, i);
      }
    case _ =>
  }

  // ---------------------------------------------------------------- what was asked for

  /**
   What a run's calls have asked for: the status each pid called exit with, the slots
   killed since they were last freed, and the processes killed after wait's last test
   of that and not awake since.
   */
  datatype Past = Past(asked: map<nat, int>, struck: set<nat>, late: set<nat>)

  const NOTHING := Past(map[], {}, {})

  predicate Freed(s: Sys, t: Sys, q: nat) {
    q < |s.st| && q < |t.st| && !s.st[q].Unused? && t.st[q].Unused?
  }

  function Note(h: Past, s: Sys, a: Action): Past
    requires Enabled(s, a)
  {
    var t := Do(s, a);
    var late := if a.Kill? && s.pc[a.q].WaitOwn? then h.late + {a.q} else h.late;
    var struck := if a.Kill? then h.struck + {a.q} else h.struck;
    Past(if a.Exit? then h.asked[s.pid[a.p] := a.status] else h.asked,
         set q | q in struck && !Freed(s, t, q) && !(a.ForkFail? && a.np == q),
         set q | q in late && q < |t.pc| && InSleep(t.pc[q]))
  }

  ghost function Told(h: Past, s: Sys, run: seq<Action>): Past
    requires IsRun(s, run)
    decreases |run|
  {
    if run == [] then h else Told(Note(h, s, run[0]), Do(s, run[0]), run[1..])
  }

  predicate StatusOk(s: Sys, h: Past, p: nat)
    requires Shape(s) && p < |s.pc|
  {
    match s.pc[p]
    case ExitLoop(_, status) => s.pid[p] in h.asked && h.asked[s.pid[p]] == status
    case ExitWakeInit(_, status) => s.pid[p] in h.asked && h.asked[s.pid[p]] == status
    case ExitWakeParent(status) => s.pid[p] in h.asked && h.asked[s.pid[p]] == status
    case ExitMark(status) => s.pid[p] in h.asked && h.asked[s.pid[p]] == status
    case _ => true
  }

  predicate KillOk(s: Sys, h: Past, p: nat)
    requires Shape(s) && p < |s.pc|
  {
    && (s.killed[p] <==> p in h.struck)
    && (p in h.late ==> InSleep(s.pc[p]))
    && (InSleep(s.pc[p]) ==> (s.killed[p] <==> p in h.late))
  }

  ghost predicate PastOk(s: Sys, h: Past)
    requires Shape(s)
  {
    && (forall p :: 0 <= p < |s.pc| ==> StatusOk(s, h, p))
    && (forall p :: 0 <= p < |s.pc| ==> KillOk(s, h, p))
    && (forall id :: id in s.exited ==> id in h.asked && h.asked[id] == s.exited[id])
  }

  lemma StatusKept(s: Sys, a: Action, h: Past, p: nat)
    requires Enabled(s, a) && p < |s.pc| && PcOk(s, p) && StatusOk(s, h, p)
    requires a.Exit? ==> PidsApart(s, a.p, p) && RecordOk(s, a.p) && PcOk(s, a.p)
    ensures StatusOk(Do(s, a), Note(h, s, a), p)
  {
    if a.Step? {
      if a.p == p {
        StatusOwn(s, p, a.copied, h);
      } else {
        StatusOther(s, a.p, a.copied, h, p);
      }
    }
  }

  lemma StatusOwn(s: Sys, p: nat, copied: bool, h: Past)
    requires Enabled(s, Step(p, copied)) && PcOk(s, p) && StatusOk(s, h, p)
    ensures StatusOk(Do(s, Step(p, copied)), Note(h, s, Step(p, copied)), p)
  {
  }

  lemma StatusOther(s: Sys, q: nat, copied: bool, h: Past, p: nat)
    requires Enabled(s, Step(q, copied)) && p < |s.pc| && p != q && PcOk(s, p) && StatusOk(s, h, p)
    ensures StatusOk(Do(s, Step(q, copied)), Note(h, s, Step(q, copied)), p)
  {
  }

  lemma KillKept(s: Sys, a: Action, h: Past, p: nat)
    requires Enabled(s, a) && p < |s.pc| && PcOk(s, p) && KillOk(s, h, p)
    ensures KillOk(Do(s, a), Note(h, s, a), p)
  {
    if a.Step? {
      if a.p == p {
        KillOwn(s, p, a.copied, h);
      } else {
        KillOther(s, a.p, a.copied, h, p);
      }
    }
  }

  lemma KillOwn(s: Sys, p: nat, copied: bool, h: Past)
    requires Enabled(s, Step(p, copied)) && PcOk(s, p) && KillOk(s, h, p)
    ensures KillOk(Do(s, Step(p, copied)), Note(h, s, Step(p, copied)), p)
  {
  }

  lemma KillOther(s: Sys, q: nat, copied: bool, h: Past, p: nat)
    requires Enabled(s, Step(q, copied)) && p < |s.pc| && p != q && PcOk(s, p) && KillOk(s, h, p)
    ensures KillOk(Do(s, Step(q, copied)), Note(h, s, Step(q, copied)), p)
  {
  }

  lemma ExitedKept(s: Sys, a: Action, h: Past, id: nat)
    requires Good(s, a) && PastOk(s, h) && id in Do(s, a).exited
    ensures var g := Note(h, s, a); id in g.asked && g.asked[id] == Do(s, a).exited[id]
  {
    hide ScanOk, ReapedOk, NotMissed, ForkApart, WaitLockBy, HandedOver, ParentOk, KillOk;
    if a.Step? {
      assert StatusOk(s, h, a.p);
    } else if a.Exit? {
      assert PcOk(s, a.p) && RecordOk(s, a.p);
    }
  }

  lemma InvAt(s: Sys, p: nat)
    requires Inv(s) && p < |s.pc|
    ensures PcOk(s, p) && RecordOk(s, p) && forall q :: 0 <= q < |s.pc| ==> PidsApart(s, p, q)
  {
  }

  lemma ExitsAt(s: Sys, a: Action)
    requires Enabled(s, a) && a.Exit?
    ensures a.p < |s.pc|
  {
  }

  lemma {:induction false} ToldOk(s: Sys, run: seq<Action>, h: Past)
    requires Inv(s) && IsRun(s, run) && PastOk(s, h)
    ensures PastOk(End(s, run), Told(h, s, run))
    decreases |run|
  {
    hide Inv, Enabled, Do, Note, StatusOk, KillOk, PcOk, RecordOk, PidsApart;
    if run != [] {
      var a := run[0];
      var t := Do(s, a);
      var g := Note(h, s, a);
      StepInv(s, a);
      forall p: nat | p < |t.pc|
        ensures StatusOk(t, g, p) && KillOk(t, g, p)
      {
        InvAt(s, p);
        if a.Exit? {
          ExitsAt(s, a);
          InvAt(s, a.p);
        }
        StatusKept(s, a, h, p);
        KillKept(s, a, h, p);
      }
      forall id | id in t.exited
        ensures id in g.asked && g.asked[id] == t.exited[id]
      {
        ExitedKept(s, a, h, id);
      }
      ToldOk(t, run[1..], g);
    }
  }

  /** The status recorded for a process is the one it called exit with. */
  lemma ExitStatus(nproc: nat, run: seq<Action>, id: nat)
    requires nproc > 0 && IsRun(Init(nproc), run) && id in End(Init(nproc), run).exited
    ensures var h := Told(NOTHING, Init(nproc), run);
            id in h.asked && h.asked[id] == End(Init(nproc), run).exited[id]
  {
    InitInv(nproc);
    ToldOk(Init(nproc), run, NOTHING);
  }

  /**
   A slot is marked killed if and only if kill has struck it since it was last freed.
   A killed process sleeps in wait if and only if the kill came after wait had looked
   for one and before it held its own lock: wakeup finds nobody asleep then.
   */
  lemma KilledIff(nproc: nat, run: seq<Action>, p: nat)
    requires nproc > 0 && IsRun(Init(nproc), run) && p < nproc
    ensures var s := End(Init(nproc), run); var h := Told(NOTHING, Init(nproc), run);
            && (s.killed[p] <==> p in h.struck)
            && (s.pc[p].WaitAsleep? ==> (s.killed[p] <==> p in h.late))
  {
    InitInv(nproc);
    ToldOk(Init(nproc), run, NOTHING);
    assert KillOk(End(Init(nproc), run), Told(NOTHING, Init(nproc), run), p);
  }

  /** The actions of a run one by one, each in the state the ones before it left. */
  ghost predicate Through(states: seq<Sys>, run: seq<Action>) {
    && |states| == |run| + 1
    && forall k :: 0 <= k < |run| ==> StepTo(states[k], run[k], states[k + 1])
  }

  predicate StepTo(s: Sys, a: Action, t: Sys) {
    Enabled(s, a) && t == Do(s, a)
  }

  lemma {:induction false} ThroughIsRun(states: seq<Sys>, run: seq<Action>)
    requires Through(states, run)
    ensures IsRun(states[0], run) && End(states[0], run) == states[|run|]
    decreases |run|
  {
    hide Enabled, Do;
    if run != [] {
      assert StepTo(states[0], run[0], states[1]);
      forall k | 0 <= k < |run| - 1
        ensures StepTo(states[1..][k], run[1..][k], states[1..][k + 1])
      {
        assert StepTo(states[k + 1], run[k + 1], states[k + 2]);
      }
      ThroughIsRun(states[1..], run[1..]);
    }
  }

  /** Two processes after init's fork, with init anywhere in its wait. */
  function Pair(pc: Pc, st: St, killed: bool, waitlk: int): Sys {
    Sys([pc, Run], [st, Live], [NONE, INIT], [1, 2], [0, 0], [killed, false], waitlk, 3, map[], [])
  }

  lemma PairForks()
    ensures var s := Init(2);
            var s1 := s.(pc := [ForkParent(1), Gone], st := [Live, Used], pid := [1, 2], nextpid := 3);
            var s2 := s1.(pc := [ForkGo(1), Gone], parent := [NONE, INIT]);
            && StepTo(s, Fork(INIT, 1), s1) && StepTo(s1, Step(INIT, true), s2)
            && StepTo(s2, Step(INIT, true), Pair(Run, Live, false, NONE))
  {
  }

  lemma PairScans()
    ensures StepTo(Pair(Run, Live, false, NONE), Wait(INIT), Pair(WaitScan(0, false), Live, false, INIT))
    ensures StepTo(Pair(WaitScan(0, false), Live, false, INIT), Step(INIT, true),
                   Pair(WaitScan(1, false), Live, false, INIT))
    ensures StepTo(Pair(WaitScan(1, false), Live, false, INIT), Step(INIT, true),
                   Pair(WaitScan(2, true), Live, false, INIT))
    ensures StepTo(Pair(WaitScan(2, true), Live, false, INIT), Step(INIT, true), Pair(WaitOwn, Live, false, INIT))
  {
  }

  lemma PairSleeps()
    ensures StepTo(Pair(WaitOwn, Live, false, INIT), Kill(INIT), Pair(WaitOwn, Live, true, INIT))
    ensures StepTo(Pair(WaitOwn, Live, true, INIT), Step(INIT, true), Pair(WaitDrop, Live, true, INIT))
    ensures StepTo(Pair(WaitDrop, Live, true, INIT), Step(INIT, true), Pair(WaitMark, Live, true, NONE))
    ensures StepTo(Pair(WaitMark, Live, true, NONE), Step(INIT, true), Pair(WaitAsleep, Asleep, true, NONE))
  {
  }

  /** One such kill: init forks, calls wait, is killed on its way to sleep, and sleeps. */
  lemma LateKill() returns (run: seq<Action>)
    ensures IsRun(Init(2), run) && End(Init(2), run).pc[INIT].WaitAsleep? && End(Init(2), run).killed[INIT]
  {
    hide StepTo;
    var go := Step(INIT, true);
    run := [Fork(INIT, 1), go, go, Wait(INIT), go, go, go, Kill(INIT), go, go, go];
    var s1 := Init(2).(pc := [ForkParent(1), Gone], st := [Live, Used], pid := [1, 2], nextpid := 3);
    var s2 := s1.(pc := [ForkGo(1), Gone], parent := [NONE, INIT]);
    PairForks();
    PairScans();
    PairSleeps();
    ThroughIsRun([Init(2), s1, s2, Pair(Run, Live, false, NONE), Pair(WaitScan(0, false), Live, false, INIT),
                  Pair(WaitScan(1, false), Live, false, INIT), Pair(WaitScan(2, true), Live, false, INIT),
                  Pair(WaitOwn, Live, false, INIT), Pair(WaitOwn, Live, true, INIT), Pair(WaitDrop, Live, true, INIT),
                  Pair(WaitMark, Live, true, NONE), Pair(WaitAsleep, Asleep, true, NONE)], run);
  }
}
