/**
 The descriptor rings of kernel/virtio_disk.c, shared by the driver and a device
 that takes requests in order and completes them in any order (sections 2.6 and
 5.2 of Virtio 1.1).

 Each driver method is what a process or the interrupt handler does while it
 holds the disk's lock; the device's steps may come between any two of them. All
 keep `Valid`.
 */
module Virtio {
  import Blocks
  import opened Sequences

  const NUM: nat := 8
  const U16: nat := 0x1_0000

  /** What an address in a descriptor refers to. */
  datatype Ptr = Null | Header(op: nat) | Data(buf: nat) | Status(op: nat)

  datatype Desc = Desc(addr: Ptr, len: nat, more: bool, deviceWrites: bool, next: nat)

  const NODESC: Desc := Desc(Null, 0, false, false, 0)

  datatype Op = Op(write: bool, sector: nat)
  datatype Info = NoBuf(status: nat) | HasBuf(buf: nat, status: nat)

  /** A request in flight: the two descriptors chained to its head, and what it asks. */
  datatype Req = Req(buf: nat, blockno: nat, write: bool, d1: nat, d2: nat)

  datatype Phase = Prepared | Queued | Taken | Done | Acked

  /** What the device may do at any moment: take the next request, or complete one that it has taken. */
  datatype DevAct = TakeNext | Complete(h: int, status: nat)

  // ---------------------------------------------------------------- rings

  /** The ring holds the list q, from running position n on. */
  ghost predicate Queue(ring: seq<int>, n: nat, q: seq<int>)
    ensures Queue(ring, n, q) ==> |ring| == NUM
  {
    |ring| == NUM && |q| <= NUM && forall k :: 0 <= k < |q| ==> Entry(ring, n + k, q[k])
  }

  predicate Entry(ring: seq<int>, n: nat, h: int)
    requires |ring| == NUM
  {
    ring[n % NUM] == h
  }

  lemma Around(j: nat, k: nat)
    requires j < k < j + NUM
    ensures j % NUM != k % NUM
  {
  }

  lemma Push(ring: seq<int>, n: nat, q: seq<int>, h: int)
    requires Queue(ring, n, q) && |q| < NUM
    ensures Queue(ring[(n + |q|) % NUM := h], n, q + [h])
  {
    var ring' := ring[(n + |q|) % NUM := h];
    forall k | 0 <= k < |q + [h]|
      ensures Entry(ring', n + k, (q + [h])[k])
    {
      if k < |q| {
        assert Entry(ring, n + k, q[k]);
        Around(n + k, n + |q|);
      }
    }
  }

  /** An entry written past the end of the list is not part of it until the index moves. */
  lemma PutAside(ring: seq<int>, n: nat, q: seq<int>, h: int)
    requires Queue(ring, n, q) && |q| < NUM
    ensures Queue(ring[(n + |q|) % NUM := h], n, q) && Entry(ring[(n + |q|) % NUM := h], n + |q|, h)
  {
    Push(ring, n, q, h);
    var ring' := ring[(n + |q|) % NUM := h];
    forall k | 0 <= k < |q| ensures Entry(ring', n + k, q[k]) {
      assert Entry(ring', n + k, (q + [h])[k]);
    }
  }

  lemma Append(ring: seq<int>, n: nat, q: seq<int>, h: int)
    requires Queue(ring, n, q) && |q| < NUM && Entry(ring, n + |q|, h)
    ensures Queue(ring, n, q + [h])
  {
    forall k | 0 <= k < |q + [h]| ensures Entry(ring, n + k, (q + [h])[k]) {
      assert k < |q| ==> Entry(ring, n + k, q[k]);
    }
  }

  lemma Pop(ring: seq<int>, n: nat, q: seq<int>)
    requires Queue(ring, n, q) && q != []
    ensures ring[n % NUM] == q[0] && Queue(ring, n + 1, q[1..])
  {
    assert Entry(ring, n + 0, q[0]);
    forall k | 0 <= k < |q| - 1
      ensures Entry(ring, n + 1 + k, q[1..][k])
    {
      assert Entry(ring, n + (k + 1), q[k + 1]);
    }
  }

  /** What a 16-bit index shows of a running count. */
  function Low16(n: nat): nat {
    n % U16
  }

  function Next16(i: nat): nat {
    (i + 1) % U16
  }

  /** The 16-bit indices wrap, but select the right entry and compare as they should. */
  lemma Wrap(n: nat)
    ensures Low16(n) % NUM == n % NUM && Next16(Low16(n)) == Low16(n + 1)
  {
    var q, s := n / U16, n % U16;
    assert n == q * U16 + s;
    assert n == (q * (U16 / NUM)) * NUM + s;
    if s + 1 == U16 {
      assert n + 1 == (q + 1) * U16;
    } else {
      assert n + 1 == q * U16 + (s + 1);
    }
  }

  lemma WrapCompare(a: nat, b: nat)
    requires a <= b <= a + NUM
    ensures Low16(a) == Low16(b) <==> a == b
  {
  }

  // ---------------------------------------------------------------- descriptors

  function CountFree(free: seq<bool>): (n: nat)
    ensures n <= |free|
  {
    if free == [] then 0 else CountFree(free[..|free| - 1]) + if free[|free| - 1] then 1 else 0
  }

  lemma {:induction false} CountUpdate(free: seq<bool>, i: nat, b: bool)
    requires i < |free|
    ensures CountFree(free[i := b]) == CountFree(free) - (if free[i] then 1 else 0) + (if b then 1 else 0)
  {
    var n := |free| - 1;
    if i == n {
      assert free[i := b][..n] == free[..n];
    } else {
      assert free[i := b][..n] == free[..n][i := b];
      CountUpdate(free[..n], i, b);
    }
  }

  lemma {:induction false} CountNone(free: seq<bool>)
    requires forall i :: 0 <= i < |free| ==> !free[i]
    ensures CountFree(free) == 0
  {
    if free != [] {
      CountNone(free[..|free| - 1]);
    }
  }

  /** Who has each descriptor: nobody, or exactly one chain. */
  ghost predicate Owned(free: seq<bool>, owner: seq<int>, reqs: map<int, Req>)
    ensures Owned(free, owner, reqs) ==> |free| == |owner| == NUM
  {
    && |free| == |owner| == NUM
    && (forall i :: 0 <= i < NUM ==> OwnerOf(free, owner, reqs, i))
    && (forall h :: h in reqs ==> Chained(owner, reqs, h))
    && CountFree(free) + 3 * |reqs| == NUM
  }

  ghost predicate OwnerOf(free: seq<bool>, owner: seq<int>, reqs: map<int, Req>, i: nat)
    requires |free| == |owner| == NUM && i < NUM
  {
    if free[i] then owner[i] == -1
    else owner[i] >= 0 && owner[i] in reqs && (i == owner[i] || i == reqs[owner[i]].d1 || i == reqs[owner[i]].d2)
  }

  ghost predicate Chained(owner: seq<int>, reqs: map<int, Req>, h: int)
    requires |owner| == NUM && h in reqs
  {
    var r := reqs[h];
    && 0 <= h < NUM && r.d1 < NUM && r.d2 < NUM && h != r.d1 && h != r.d2 && r.d1 != r.d2
    && owner[h] == owner[r.d1] == owner[r.d2] == h
  }

  /** The three descriptors of a request, as section 5.2 lays a block request out. */
  ghost predicate Formatted(desc: seq<Desc>, ops: seq<Op>, info: seq<Info>, h: int, r: Req) {
    && |desc| == |ops| == |info| == NUM && 0 <= h < NUM && r.d1 < NUM && r.d2 < NUM
    && ops[h] == Op(r.write, r.blockno * (Blocks.BSIZE / 512))
    && desc[h] == Desc(Header(h), 16, true, false, r.d1)
    && desc[r.d1] == Desc(Data(r.buf), Blocks.BSIZE, true, !r.write, r.d2)
    && desc[r.d2] == Desc(Status(h), 1, false, true, 0)
    && info[h].HasBuf? && info[h].buf == r.buf
  }

  /** The descriptors of a chain, as the device follows it (section 2.6.5). */
  function Chain(desc: seq<Desc>, i: nat, most: nat): seq<Desc>
    decreases most
  {
    if most == 0 || i >= |desc| then []
    else [desc[i]] + if desc[i].more then Chain(desc, desc[i].next, most - 1) else []
  }

  datatype Transfer = Nonsense | Transfer(write: bool, offset: nat, buf: nat, len: nat)

  /**
   What a block device makes of the chain at h (section 5.2.6): a header that it reads,
   data that it reads for a write and writes for a read, and a status that it writes;
   the header's sector counts 512 bytes.
   */
  function Meant(desc: seq<Desc>, ops: seq<Op>, h: nat): Transfer {
    var c := Chain(desc, h, NUM);
    if |c| == 3 && c[0].addr.Header? && c[0].addr.op < |ops| && c[0].len == 16 && !c[0].deviceWrites
       && c[1].addr.Data? && c[1].deviceWrites == !ops[c[0].addr.op].write
       && c[2].addr == Status(c[0].addr.op) && c[2].len == 1 && c[2].deviceWrites
    then Transfer(ops[c[0].addr.op].write, ops[c[0].addr.op].sector * 512, c[1].addr.buf, c[1].len)
    else Nonsense
  }

  /** A request laid out so means to the device what the driver asked: one block of the disk, to or from its buffer. */
  lemma DeviceSees(desc: seq<Desc>, ops: seq<Op>, info: seq<Info>, h: int, r: Req)
    requires Formatted(desc, ops, info, h, r) && 0 <= h
    ensures Meant(desc, ops, h) == Transfer(r.write, r.blockno * Blocks.BSIZE, r.buf, Blocks.BSIZE)
  {
    assert Chain(desc, r.d2, NUM - 2) == [desc[r.d2]];
    assert Chain(desc, r.d1, NUM - 1) == [desc[r.d1]] + [desc[r.d2]];
    assert Chain(desc, h, NUM) == [desc[h]] + ([desc[r.d1]] + [desc[r.d2]]);
  }

  /** The request's phase tells which list it is on, and whether the device still has its buffer. */
  ghost predicate PhaseAt(reqs: map<int, Req>, phase: map<int, Phase>, queued: seq<int>, done: seq<int>,
                          info: seq<Info>, owned: set<nat>, h: int)
    requires h in reqs
  {
    && h in phase && 0 <= h < |info|
    && (phase[h] == Queued <==> h in queued) && (phase[h] == Done <==> h in done)
    && (phase[h] == Acked ==> info[h].status == 0)
    && (reqs[h].buf in owned <==> phase[h] != Acked)
  }

  ghost predicate AllPhases(reqs: map<int, Req>, phase: map<int, Phase>, queued: seq<int>, done: seq<int>,
                            info: seq<Info>, owned: set<nat>) {
    forall h :: h in reqs ==> PhaseAt(reqs, phase, queued, done, info, owned, h)
  }

  /** All requests are laid out, and no two use the same buffer. */
  ghost predicate AllFormatted(desc: seq<Desc>, ops: seq<Op>, info: seq<Info>, reqs: map<int, Req>)
    ensures AllFormatted(desc, ops, info, reqs) ==> |desc| == |ops| == |info| == NUM
  {
    && |desc| == |ops| == |info| == NUM
    && (forall h :: h in reqs ==> Formatted(desc, ops, info, h, reqs[h]))
    && (forall g, h :: g in reqs && h in reqs && g != h ==> reqs[g].buf != reqs[h].buf)
  }

  ghost predicate Cleared(free: seq<bool>, desc: seq<Desc>) {
    |free| == |desc| == NUM && forall i :: 0 <= i < NUM && free[i] ==> desc[i] == NODESC
  }

  ghost predicate Within(q: seq<int>, phase: map<int, Phase>) {
    forall k :: 0 <= k < |q| ==> q[k] in phase
  }

  // ---------------------------------------------------------------- driver and device

  class Disk {
    var free: seq<bool>
    var desc: seq<Desc>
    var ops: seq<Op>
    var info: seq<Info>
    var availRing: seq<int>
    var availIdx: nat
    var usedRing: seq<int>
    var usedIdx: nat
    var seenIdx: nat        // used_idx: how far the driver has looked
    var takenIdx: nat       // how far the device has looked
    var owned: set<nat>     // the buffers with b->disk set
    var waiters: set<nat>   // processes asleep for want of descriptors

    ghost var owner: seq<int>
    var reqs: map<int, Req>    // the requests in flight, and how far the device has got with each
    var phase: map<int, Phase>
    ghost var queued: seq<int>
    ghost var done: seq<int>
    ghost var taken: nat
    ghost var seen: nat

    ghost predicate Descriptors()
      reads this
    {
      Owned(free, owner, reqs) && AllFormatted(desc, ops, info, reqs) && Cleared(free, desc)
    }

    ghost predicate Phases()
      reads this
    {
      && phase.Keys == reqs.Keys
      && NoRepeats(queued) && NoRepeats(done)
      && Within(queued, phase) && Within(done, phase)
      && AllPhases(reqs, phase, queued, done, info, owned)
    }

    ghost predicate Rings()
      reads this
    {
      && Queue(availRing, taken, queued) && Queue(usedRing, seen, done)
      && takenIdx == Low16(taken) && availIdx == Low16(taken + |queued|)
      && seenIdx == Low16(seen) && usedIdx == Low16(seen + |done|)
    }

    ghost predicate Valid()
      reads this
    {
      && Descriptors() && Phases() && Rings()
      && (waiters != {} ==> CountFree(free) < 3)
    }

    constructor ()
      ensures Valid() && reqs == map[] && waiters == {} && owned == {}
    {
      free := seq(NUM, i => true);
      desc, ops, info := seq(NUM, i => NODESC), seq(NUM, i => Op(false, 0)), seq(NUM, i => NoBuf(0));
      availRing, usedRing := seq(NUM, i => 0), seq(NUM, i => 0);
      availIdx, usedIdx, seenIdx, takenIdx, owned, waiters := 0, 0, 0, 0, {}, {};
      owner, reqs, phase, queued, done, taken, seen := seq(NUM, i => -1), map[], map[], [], [], 0, 0;
      new;
      AllFree(free);
    }

    /** alloc_desc: the first free descriptor, no longer free; -1 if there is none. */
    method AllocDesc() returns (i: int)
      requires |free| == NUM
      modifies this`free
      ensures -1 <= i < NUM
      ensures i == -1 ==> free == old(free) && CountFree(free) == 0
      ensures i >= 0 ==> old(free)[i] && free == old(free)[i := false] && CountFree(free) == CountFree(old(free)) - 1
    {
      i := 0;
      while i < NUM
        invariant 0 <= i <= NUM && free == old(free)
        invariant forall j :: 0 <= j < i ==> !free[j]
      {
        if free[i] {
          CountUpdate(free, i, false);
          free := free[i := false];
          return;
        }
        i := i + 1;
      }
      CountNone(free);
      i := -1;
    }

    /** free_desc; its two panics are excluded by the precondition. */
    method FreeDesc(i: int)
      requires |free| == |desc| == NUM && 0 <= i < NUM && !free[i]
      modifies this`free, this`desc, this`waiters
      ensures free == old(free)[i := true] && desc == old(desc)[i := NODESC] && waiters == {}
      ensures CountFree(free) == CountFree(old(free)) + 1
    {
      CountUpdate(free, i, true);
      desc := desc[i := NODESC];
      free := free[i := true];
      waiters := {};
    }

    /** alloc3_desc: three descriptors, or none and no change. */
    method Alloc3() returns (idx: seq<int>)
      requires |free| == |desc| == NUM && forall i :: 0 <= i < NUM && free[i] ==> desc[i] == NODESC
      modifies this`free, this`desc, this`waiters
      ensures desc == old(desc) && |idx| <= 3 && (|idx| == 3 <==> CountFree(old(free)) >= 3)
      ensures |idx| != 3 ==> free == old(free) && (waiters == old(waiters) || waiters == {})
      ensures |idx| == 3 ==> waiters == old(waiters) && CountFree(free) == CountFree(old(free)) - 3
      ensures |idx| == 3 ==> Three(old(free), free, idx[0], idx[1], idx[2])
    {
      idx := [];
      while |idx| < 3
        invariant |idx| <= 3 && |free| == NUM && desc == old(desc) && waiters == old(waiters)
        invariant CountFree(free) == CountFree(old(free)) - |idx|
        invariant forall k :: 0 <= k < |idx| ==> 0 <= idx[k] < NUM && old(free)[idx[k]]
        invariant forall j, k :: 0 <= j < k < |idx| ==> idx[j] != idx[k]
        invariant free == Marked(old(free), idx)
        decreases 3 - |idx|
      {
        var i := AllocDesc();
        if i < 0 {
          GiveBack(idx, old(free));
          return;
        }
        MarkedAt(old(free), idx, i);
        idx := idx + [i];
      }
      MarkedThree(old(free), idx);
    }

    /** The undoing loop of alloc3_desc. */
    method GiveBack(idx: seq<int>, ghost before: seq<bool>)
      requires |free| == |desc| == |before| == NUM && |idx| < 3 && free == Marked(before, idx)
      requires forall k :: 0 <= k < |idx| ==> 0 <= idx[k] < NUM && before[idx[k]] && desc[idx[k]] == NODESC
      requires forall j, k :: 0 <= j < k < |idx| ==> idx[j] != idx[k]
      modifies this`free, this`desc, this`waiters
      ensures free == before && desc == old(desc) && (waiters == old(waiters) || waiters == {})
    {
      var j := 0;
      while j < |idx|
        invariant 0 <= j <= |idx| && desc == old(desc) && (waiters == old(waiters) || waiters == {})
        invariant |free| == NUM && forall i :: 0 <= i < NUM ==> free[i] == (before[i] && i !in idx[j..])
      {
        assert idx[j] in idx[j..] && idx[j..] == [idx[j]] + idx[j + 1..];
        FreeDesc(idx[j]);
        assert desc == old(desc);
        j := j + 1;
      }
      assert free == before;
    }

    /** Few requests are in flight, so no list ever fills its ring. */
    lemma FewInFlight()
      requires Valid()
      ensures |reqs| <= 2 && |queued| <= |reqs| && |done| <= |reqs|
    {
      NoRepeatsFits(queued, reqs.Keys);
      NoRepeatsFits(done, reqs.Keys);
    }

    /**
     The first part of virtio_disk_rw, for a buffer that no request in flight
     uses: allocate, format and publish, and go to sleep on the buffer; or, for
     want of three descriptors, go to sleep on those.
     */
    method Submit(b: nat, blockno: nat, write: bool, pid: nat, acts: seq<DevAct>) returns (h: int)
      requires Valid() && pid !in waiters && forall g :: g in reqs ==> reqs[g].buf != b
      modifies this
      ensures Valid() && -1 <= h < NUM
      ensures h == -1 <==> CountFree(old(free)) < 3
      ensures h == -1 ==> pid in waiters && waiters <= old(waiters) + {pid}
      ensures h == -1 ==> reqs == old(reqs) && phase == old(phase) && queued == old(queued) && owned == old(owned)
      ensures h >= 0 ==>
          h !in old(reqs) && h in reqs
          && reqs == old(reqs)[h := Req(b, blockno, write, reqs[h].d1, reqs[h].d2)]
      ensures h >= 0 ==>
          owned == old(owned) + {b} && phase[h] == Queued && queued != [] && queued[|queued| - 1] == h
          && Moves(old(phase), phase - {h}, old(queued), queued[..|queued| - 1], old(done), done)
    {
      hide CountFree, Moves, Owned, AllFormatted, AllPhases, Queue, Three, NoRepeats, Within, Low16, Next16;
      FewInFlight();
      var idx := Alloc3();
      if |idx| != 3 {
        waiters := waiters + {pid};
        return -1;
      }
      h := idx[0];
      Publish(b, blockno, write, idx[0], idx[1], idx[2], old(free), acts);
    }

    /**
     Format the three descriptors, put the head on the avail ring, and only then move
     the index. Whatever the device does in between, it does not see the new entry.
     */
    method Publish(b: nat, blockno: nat, write: bool, d0: nat, d1: nat, d2: nat, ghost before: seq<bool>,
                   acts: seq<DevAct>)
      requires Owned(before, owner, reqs) && Three(before, free, d0, d1, d2) && CountFree(free) == CountFree(before) - 3
      requires AllFormatted(desc, ops, info, reqs) && Cleared(before, desc)
      requires Phases() && Rings() && waiters == {} && |queued| < NUM
      requires forall g :: g in reqs ==> reqs[g].buf != b
      modifies this
      ensures Valid() && d0 !in old(reqs) && reqs == old(reqs)[d0 := Req(b, blockno, write, d1, d2)]
      ensures owned == old(owned) + {b} && phase[d0] == Queued && queued != [] && queued[|queued| - 1] == d0
      ensures Moves(old(phase), phase - {d0}, old(queued), queued[..|queued| - 1], old(done), done)
    {
      hide Valid, CountFree, Owned, AllFormatted, AllPhases, Queue, Cleared, NoRepeats, Within, Low16, Next16, Three,
          Entry, Moves;
      Prepare(b, blockno, write, d0, d1, d2, before);
      WriteEntry(d0);
      ghost var phase1, queued1, done1 := phase, queued, done;
      DeviceActs(acts);
      MovesPrepared(phase1, phase, queued1, queued, done1, done, d0);
      Unreported(d0);
      MovesOthers(old(phase), phase, queued1, queued, done1, done, d0);
      BumpIndex(d0);
    }

    lemma Unreported(h: int)
      requires Valid() && h in phase && phase[h] == Prepared
      ensures h in reqs && |availRing| == NUM && h !in done
    {
      hide CountFree, Owned, Queue, Cleared, AllPhases, AllFormatted, NoRepeats, Within, Low16, Next16;
      KnownTo(reqs, phase, queued, done, info, owned);
    }

    /** The request is in memory, and the device knows nothing of it. */
    method Prepare(b: nat, blockno: nat, write: bool, d0: nat, d1: nat, d2: nat, ghost before: seq<bool>)
      requires Owned(before, owner, reqs) && Three(before, free, d0, d1, d2) && CountFree(free) == CountFree(before) - 3
      requires AllFormatted(desc, ops, info, reqs) && Cleared(before, desc)
      requires Phases() && Rings() && waiters == {}
      requires forall g :: g in reqs ==> reqs[g].buf != b
      modifies this`desc, this`ops, this`info, this`owned, this`owner, this`reqs, this`phase
      ensures Valid() && d0 !in old(reqs) && reqs == old(reqs)[d0 := Req(b, blockno, write, d1, d2)]
      ensures owned == old(owned) + {b} && phase == old(phase)[d0 := Prepared]
    {
      hide CountFree, Owned, AllFormatted, AllPhases, Queue, Cleared, NoRepeats, Within, Low16, Next16, Three, Entry;
      var r := Req(b, blockno, write, d1, d2);
      RequestAdded(before, free, owner, desc, ops, info, reqs, phase, queued, done, owned, d0, r);
      Format(b, blockno, write, d0, d1, d2);
      owner, reqs, phase := owner[d0 := d0][d1 := d0][d2 := d0], reqs[d0 := r], phase[d0 := Prepared];
    }

    /** The entry goes into the ring, past its end. */
    method WriteEntry(h: int)
      requires Valid() && |queued| < NUM
      modifies this`availRing
      ensures Valid() && Entry(availRing, taken + |queued|, h)
    {
      hide CountFree, Owned, AllFormatted, AllPhases, Queue, Cleared, NoRepeats, Within, Low16, Next16;
      Wrap(taken + |queued|);
      PutAside(availRing, taken, queued, h);
      availRing := availRing[availIdx % NUM := h];
    }

    /** The index moves, and the entry is the device's to see. */
    method BumpIndex(h: int)
      requires Valid() && h in reqs && phase[h] == Prepared
      requires |availRing| == NUM && Entry(availRing, taken + |queued|, h)
      modifies this`availIdx, this`queued, this`phase
      ensures Valid() && queued == old(queued) + [h] && phase == old(phase)[h := Queued]
    {
      hide CountFree, Owned, AllFormatted, AllPhases, Queue, Cleared, NoRepeats, Within, Low16, Next16, Entry;
      FewInFlight();
      Wrap(taken + |queued|);
      Append(availRing, taken, queued, h);
      PhasesQueue(reqs, phase, queued, done, info, owned, h);
      availIdx := Next16(availIdx);
      queued, phase := queued + [h], phase[h := Queued];
    }

    /** The device takes and completes requests of its own accord; acts that it cannot do it does not do. */
    method DeviceActs(acts: seq<DevAct>)
      requires Valid()
      modifies this`takenIdx, this`phase, this`queued, this`taken, this`info, this`usedRing, this`usedIdx, this`done
      ensures Valid() && taken + |queued| == old(taken + |queued|)
      ensures Moves(old(phase), phase, old(queued), queued, old(done), done)
    {
      hide CountFree, Owned, AllFormatted, AllPhases, Queue, Cleared, NoRepeats, Within, Low16, Next16, Moves, Rings;
      MovesNone(phase, queued, done);
      for k := 0 to |acts|
        invariant Valid() && taken + |queued| == old(taken + |queued|)
        invariant Moves(old(phase), phase, old(queued), queued, old(done), done)
      {
        ghost var phase1, queued1, done1 := phase, queued, done;
        KnownTo(reqs, phase, queued, done, info, owned);
        match acts[k]
        case TakeNext =>
          var h := DeviceTake();
          if h >= 0 {
            MovesTake(phase1, queued1, done1);
            MovesTwice(old(phase), phase1, phase, old(queued), queued1, queued, old(done), done1, done);
          }
        case Complete(h, status) =>
          if h in phase && phase[h] == Taken {
            DeviceComplete(h, status);
            MovesComplete(phase1, queued1, done1, h);
            MovesTwice(old(phase), phase1, phase, old(queued), queued1, queued, old(done), done1, done);
          }
      }
    }

    method Format(b: nat, blockno: nat, write: bool, d0: nat, d1: nat, d2: nat)
      requires |desc| == |ops| == |info| == NUM && d0 < NUM && d1 < NUM && d2 < NUM && d0 != d1
      modifies this`ops, this`desc, this`info, this`owned
      ensures ops == old(ops)[d0 := Op(write, blockno * (Blocks.BSIZE / 512))]
      ensures info == old(info)[d0 := HasBuf(b, 0xff)]
      ensures desc == old(desc)[d0 := Desc(Header(d0), 16, true, false, d1)]
                               [d1 := Desc(Data(b), Blocks.BSIZE, true, !write, d2)]
                               [d2 := Desc(Status(d0), 1, false, true, 0)]
      ensures owned == old(owned) + {b}
    {
      ops := ops[d0 := Op(write, blockno * (Blocks.BSIZE / 512))];
      desc := desc[d0 := Desc(Header(d0), 16, true, false, d1)];
      if write {
        desc := desc[d1 := Desc(Data(b), Blocks.BSIZE, false, false, d2)];
      } else {
        desc := desc[d1 := Desc(Data(b), Blocks.BSIZE, false, true, d2)];
      }
      desc := desc[d1 := desc[d1].(more := true)];
      info := info[d0 := HasBuf(b, 0xff)];
      desc := desc[d2 := Desc(Status(d0), 1, false, true, 0)];
      owned := owned + {b};
    }

    /**
     The device takes the next request, if there is one. The entry it reads is the
     oldest request published and not yet taken, laid out as published.
     */
    method DeviceTake() returns (h: int)
      requires Valid()
      modifies this`takenIdx, this`phase, this`queued, this`taken
      ensures Valid() && -1 <= h < NUM
      ensures h == -1 <==> old(queued) == []
      ensures h == -1 ==> unchanged(this)
      ensures h >= 0 ==> h == old(queued)[0] && h in reqs && Formatted(desc, ops, info, h, reqs[h])
      ensures h >= 0 ==>
                Meant(desc, ops, h)
                  == Transfer(reqs[h].write, reqs[h].blockno * Blocks.BSIZE, reqs[h].buf, Blocks.BSIZE)
      ensures h >= 0 ==> queued == old(queued)[1..] && phase == old(phase)[h := Taken] && taken == old(taken) + 1
    {
      hide CountFree, Owned, Queue, Cleared, AllPhases, NoRepeats, Within, Low16, Next16;
      FewInFlight();
      WrapCompare(taken, taken + |queued|);
      if takenIdx == availIdx {
        return -1;
      }
      PhasesTake(reqs, phase, queued, done, info, owned);
      h := Dequeue();
      assert h in reqs && Formatted(desc, ops, info, h, reqs[h]);
      DeviceSees(desc, ops, info, h, reqs[h]);
      phase := phase[h := Taken];
    }

    method Dequeue() returns (h: int)
      requires Rings() && queued != []
      modifies this`takenIdx, this`taken, this`queued
      ensures Rings() && h == old(queued)[0] && queued == old(queued)[1..] && taken == old(taken) + 1
    {
      hide Low16, Next16, Queue;
      Wrap(taken);
      Pop(availRing, taken, queued);
      h := availRing[takenIdx % NUM];
      takenIdx := Next16(takenIdx);
      taken, queued := taken + 1, queued[1..];
    }

    /** The device finishes any request it has taken, and reports it with any status. */
    method DeviceComplete(h: int, status: nat)
      requires Valid() && h in reqs && h in phase && phase[h] == Taken
      modifies this`info, this`usedRing, this`usedIdx, this`phase, this`done
      ensures Valid()
      ensures done == old(done) + [h] && phase == old(phase)[h := Done]
      ensures h < |info| && info[h].status == status
    {
      hide CountFree, Owned, Queue, Cleared, AllFormatted, AllPhases, NoRepeats, Within, Low16, Next16;
      FewInFlight();
      FormatsStatus(desc, ops, info, reqs, h, status);
      PhasesComplete(reqs, phase, queued, done, info, owned, h, status);
      info := info[h := info[h].(status := status)];
      phase := phase[h := Done];
      Report(h);
    }

    method Report(h: int)
      requires Rings() && |done| < NUM
      modifies this`usedRing, this`usedIdx, this`done
      ensures Rings() && done == old(done) + [h]
    {
      hide Low16, Next16, Queue;
      Wrap(seen + |done|);
      Push(usedRing, seen, done, h);
      usedRing := usedRing[usedIdx % NUM := h];
      usedIdx := Next16(usedIdx);
      done := done + [h];
    }

    /**
     One turn of the interrupt handler's loop: the buffer whose request was completed
     first, or a panic if the device reports an error.
     */
    method Acknowledge() returns (b: nat, panic: bool)
      requires Valid() && done != []
      modifies this`seenIdx, this`owned, this`phase, this`done, this`seen
      ensures Valid() && old(done)[0] in reqs && 0 <= old(done)[0] < |info|
      ensures panic <==> info[old(done)[0]].status != 0
      ensures panic ==> unchanged(this)
      ensures !panic ==>
                && b == reqs[old(done)[0]].buf && owned == old(owned) - {b}
                && phase == old(phase)[old(done)[0] := Acked]
                && done == old(done)[1..] && seen == old(seen) + 1
    {
      hide CountFree, Owned, Queue, Cleared, AllPhases, NoRepeats, Within, Low16, Next16;
      Reported(reqs, phase, queued, done, info, owned);
      Wrap(seen);
      Pop(usedRing, seen, done);
      var id := usedRing[seenIdx % NUM];
      b := 0;
      panic := info[id].status != 0;
      if panic {
        return;
      }
      PhasesAck(reqs, phase, queued, done, info, owned);
      Collect();
      assert Formatted(desc, ops, info, id, reqs[id]);
      b := info[id].buf;
      owned := owned - {b};
      phase := phase[id := Acked];
    }

    method Collect()
      requires Rings() && done != []
      modifies this`seenIdx, this`seen, this`done
      ensures Rings() && done == old(done)[1..] && seen == old(seen) + 1
    {
      hide Low16, Next16, Queue;
      Wrap(seen);
      Pop(usedRing, seen, done);
      seenIdx := Next16(seenIdx);
      seen, done := seen + 1, done[1..];
    }

    lemma NoneUnseen()
      requires Valid()
      ensures seenIdx == usedIdx <==> done == []
    {
      FewInFlight();
      WrapCompare(seen, seen + |done|);
    }

    /**
     virtio_disk_intr, with the device at work before each turn of its loop: every
     completion, also one reported while the handler runs, wakes the buffer of its
     own request, once, in order; and when the loop ends none is left. Only an error
     that the device reports stops it, at that very completion.
     */
    method Interrupt(acts: nat -> seq<DevAct>) returns (woken: seq<nat>, ghost got: seq<int>, panic: bool)
      requires Valid()
      modifies this`takenIdx, this`phase, this`queued, this`taken, this`info, this`usedRing, this`usedIdx, this`done
      modifies this`seenIdx, this`owned, this`seen
      ensures Valid() && seen == old(seen) + |got| && old(done) <= got + done && NoRepeats(got)
      ensures panic <==> done != []
      ensures panic ==> 0 <= done[0] < |info| && info[done[0]].status != 0
      ensures (forall h :: h in got ==> h in reqs && old(phase)[h] != Acked) && woken == Bufs(reqs, got)
      ensures owned == old(owned) - (set b | b in woken)
      ensures phase.Keys == old(phase).Keys && forall h :: h in phase ==> Handled(old(phase)[h], phase[h], h in got)
    {
      hide Valid, NoRepeats, Bufs, Handling, Open;
      woken, got, panic := [], [], false;
      ghost var phase0, done0 := phase, done;
      Starting();
      var k := 0;
      Meanwhile(acts(k), phase0, done0, got, woken);
      while seenIdx != usedIdx
        invariant !panic && Valid() && seen == old(seen) + |got| && owned == old(owned) - (set b | b in woken)
        invariant seenIdx == usedIdx <==> done == []
        invariant Handling(reqs, phase0, phase, done0, done, got, woken)
        decreases |Open(phase)|
      {
        var b;
        ghost var id := done[0];
        b, panic := Turn(phase0, done0, got, woken);
        if panic {
          break;
        }
        woken, got := woken + [b], got + [id];
        k := k + 1;
        Meanwhile(acts(k), phase0, done0, got, woken);
      }
      HandlingDone(reqs, phase0, phase, done0, done, got, woken);
    }

    lemma Starting()
      requires Valid()
      ensures Handling(reqs, phase, phase, done, done, [], [])
    {
      hide CountFree, Owned, Queue, Cleared, AllPhases, AllFormatted, NoRepeats, Within, Low16, Next16, Handling;
      HandlingNone(reqs, phase, done);
    }

    /** The device works while the handler has collected `got`. */
    method Meanwhile(acts: seq<DevAct>, ghost phase0: map<int, Phase>, ghost done0: seq<int>, ghost got: seq<int>,
                     ghost woken: seq<nat>)
      requires Valid() && Handling(reqs, phase0, phase, done0, done, got, woken)
      modifies this`takenIdx, this`phase, this`queued, this`taken, this`info, this`usedRing, this`usedIdx, this`done
      ensures Valid() && Handling(reqs, phase0, phase, done0, done, got, woken)
      ensures (seenIdx == usedIdx <==> done == []) && |Open(phase)| == |Open(old(phase))|
    {
      hide CountFree, Owned, Queue, Cleared, AllPhases, AllFormatted, NoRepeats, Within, Low16, Next16, Bufs, Moves,
          Handling, Open;
      DeviceActs(acts);
      OpenMoves(old(phase), phase, old(queued), queued, old(done), done);
      HandlingMoves(reqs, phase0, old(phase), phase, old(queued), queued, done0, old(done), done, got, woken);
      NoneUnseen();
    }

    /** One turn of the loop, as a step of the handler that has collected `got`. */
    method Turn(ghost phase0: map<int, Phase>, ghost done0: seq<int>, ghost got: seq<int>, ghost woken: seq<nat>)
      returns (b: nat, panic: bool)
      requires Valid() && done != [] && Handling(reqs, phase0, phase, done0, done, got, woken)
      modifies this`seenIdx, this`owned, this`phase, this`done, this`seen
      ensures Valid() && 0 <= old(done)[0] < |info|
      ensures panic <==> info[old(done)[0]].status != 0
      ensures panic ==> unchanged(this)
      ensures !panic ==>
                && Handling(reqs, phase0, phase, done0, done, got + [old(done)[0]], woken + [b])
                && owned == old(owned) - {b} && seen == old(seen) + 1 && |Open(phase)| < |Open(old(phase))|
    {
      hide CountFree, Owned, Queue, Cleared, AllPhases, AllFormatted, NoRepeats, Within, Low16, Next16, Bufs,
          Handling, Open;
      KnownTo(reqs, phase, queued, done, info, owned);
      OpenAck(phase, done[0]);
      HandlingAck(reqs, phase0, phase, done0, done, got, woken);
      b, panic := Acknowledge();
    }

    /** free_chain: follow the links from the head, freeing each descriptor. */
    method FreeChain(h: int)
      requires Owned(free, owner, reqs) && AllFormatted(desc, ops, info, reqs) && h in reqs
      modifies this`free, this`desc, this`waiters
      ensures free == old(free)[h := true][reqs[h].d1 := true][reqs[h].d2 := true]
      ensures desc == old(desc)[h := NODESC][reqs[h].d1 := NODESC][reqs[h].d2 := NODESC]
      ensures CountFree(free) == CountFree(old(free)) + 3 && waiters == {}
    {
      hide CountFree;
      ghost var r := reqs[h];
      assert Formatted(desc, ops, info, h, r) && Chained(owner, reqs, h);
      assert OwnerOf(free, owner, reqs, h) && OwnerOf(free, owner, reqs, r.d1) && OwnerOf(free, owner, reqs, r.d2);
      var i := h;
      ghost var step := 0;
      while true
        invariant 0 <= step <= 2 && i == (if step == 0 then h else if step == 1 then r.d1 else r.d2)
        invariant |free| == |desc| == NUM && CountFree(free) == CountFree(old(free)) + step
        invariant free == Freed(old(free), h, r, step) && desc == Wiped(old(desc), h, r, step)
        decreases 2 - step
      {
        var flag, nxt := desc[i].more, desc[i].next;
        FreeDesc(i);
        if flag {
          i := nxt;
        } else {
          break;
        }
        step := step + 1;
      }
    }

    /** The end of virtio_disk_rw, once the handler has given the buffer back. */
    method Finish(h: int)
      requires Valid() && h in reqs && reqs[h].buf !in owned
      modifies this`free, this`desc, this`info, this`owner, this`reqs, this`phase, this`waiters
      ensures Valid() && reqs == old(reqs) - {h} && phase == old(phase) - {h}
      ensures free == old(free)[h := true][old(reqs)[h].d1 := true][old(reqs)[h].d2 := true]
      ensures waiters == {}
    {
      hide CountFree, Queue, Owned, AllFormatted, AllPhases, Cleared, NoRepeats, Within, Low16, Next16;
      OwnedRemove(free, owner, reqs, h);
      FormatsRemove(free, desc, ops, info, owner, reqs, h);
      PhasesRemove(reqs, phase, queued, done, info, owned, h);
      FreeChain(h);
      info := info[h := NoBuf(info[h].status)];
      owner := owner[h := -1][reqs[h].d1 := -1][reqs[h].d2 := -1];
      reqs, phase := reqs - {h}, phase - {h};
    }
  }

  /** How far the device may have got with a request. */
  predicate Later(p: Phase, p': Phase) {
    p' == p || (p == Queued && (p' == Taken || p' == Done)) || (p == Taken && p' == Done)
  }

  /** What the device may have changed: requests taken in order, completions added. */
  ghost predicate Moves(phase: map<int, Phase>, phase': map<int, Phase>, queued: seq<int>, queued': seq<int>,
                        done: seq<int>, done': seq<int>) {
    && phase'.Keys == phase.Keys && (forall h :: h in phase ==> Later(phase[h], phase'[h]))
    && |queued'| <= |queued| && queued' == queued[|queued| - |queued'|..] && done <= done'
    && forall k :: |done| <= k < |done'| ==> done'[k] in phase && phase[done'[k]] != Acked && phase[done'[k]] != Done
  }

  lemma MovesNone(phase: map<int, Phase>, queued: seq<int>, done: seq<int>)
    ensures Moves(phase, phase, queued, queued, done, done)
  {
  }

  lemma MovesTake(phase: map<int, Phase>, queued: seq<int>, done: seq<int>)
    requires queued != [] && queued[0] in phase && phase[queued[0]] == Queued
    ensures Moves(phase, phase[queued[0] := Taken], queued, queued[1..], done, done)
  {
  }

  lemma MovesComplete(phase: map<int, Phase>, queued: seq<int>, done: seq<int>, h: int)
    requires h in phase && phase[h] == Taken
    ensures Moves(phase, phase[h := Done], queued, queued, done, done + [h])
  {
  }

  lemma MovesTwice(p: map<int, Phase>, p1: map<int, Phase>, p2: map<int, Phase>, q: seq<int>, q1: seq<int>,
                   q2: seq<int>, d: seq<int>, d1: seq<int>, d2: seq<int>)
    requires Moves(p, p1, q, q1, d, d1) && Moves(p1, p2, q1, q2, d1, d2)
    ensures Moves(p, p2, q, q2, d, d2)
  {
    forall h | h in p ensures Later(p[h], p2[h]) {
      assert Later(p[h], p1[h]) && Later(p1[h], p2[h]);
    }
    forall k | |d| <= k < |d2| ensures d2[k] in p && p[d2[k]] != Acked && p[d2[k]] != Done {
      if k < |d1| {
        assert d2[k] == d1[k];
      } else {
        var h := d2[k];
        assert h in p1.Keys && h in p;
        assert Later(p[h], p1[h]);
      }
    }
  }

  /** A request that is not yet published stays so. */
  lemma MovesPrepared(p: map<int, Phase>, p': map<int, Phase>, q: seq<int>, q': seq<int>, d: seq<int>, d': seq<int>,
                      h: int)
    requires Moves(p, p', q, q', d, d') && h in p && p[h] == Prepared
    ensures h in p' && p'[h] == Prepared
  {
    assert Later(p[h], p'[h]);
  }

  /** The others move by themselves. */
  lemma MovesOthers(p: map<int, Phase>, p': map<int, Phase>, q: seq<int>, q': seq<int>, d: seq<int>, d': seq<int>,
                    h: int)
    requires h !in p && Moves(p[h := Prepared], p', q, q', d, d') && h !in d'
    ensures Moves(p, p' - {h}, q, q', d, d') && p' - {h} == p'[h := Queued] - {h}
  {
    forall g | g in p ensures Later(p[g], p'[g]) {
      assert Later(p[h := Prepared][g], p'[g]);
    }
  }

  /** The lists are of requests in flight, each in the phase it is listed for. */
  lemma KnownTo(reqs: map<int, Req>, phase: map<int, Phase>, queued: seq<int>, done: seq<int>, info: seq<Info>,
                owned: set<nat>)
    requires phase.Keys == reqs.Keys && Within(queued, phase) && Within(done, phase)
    requires AllPhases(reqs, phase, queued, done, info, owned)
    ensures forall k :: 0 <= k < |queued| ==> queued[k] in phase && phase[queued[k]] == Queued
    ensures forall k :: 0 <= k < |done| ==> done[k] in phase && phase[done[k]] == Done
    ensures forall h :: h in phase && phase[h] == Prepared ==> h !in done
  {
    forall k | 0 <= k < |queued| ensures queued[k] in phase && phase[queued[k]] == Queued {
      assert PhaseAt(reqs, phase, queued, done, info, owned, queued[k]);
    }
    forall k | 0 <= k < |done| ensures done[k] in phase && phase[done[k]] == Done {
      assert PhaseAt(reqs, phase, queued, done, info, owned, done[k]);
    }
  }

  lemma Reported(reqs: map<int, Req>, phase: map<int, Phase>, queued: seq<int>, done: seq<int>, info: seq<Info>,
                 owned: set<nat>)
    requires phase.Keys == reqs.Keys && Within(done, phase) && done != []
    requires AllPhases(reqs, phase, queued, done, info, owned)
    ensures done[0] in reqs && 0 <= done[0] < |info|
  {
    assert done[0] in phase;
    assert PhaseAt(reqs, phase, queued, done, info, owned, done[0]);
  }

  /** The requests that have not been acknowledged. */
  ghost function Open(phase: map<int, Phase>): set<int> {
    set h | h in phase && phase[h] != Acked
  }

  lemma OpenAck(phase: map<int, Phase>, h: int)
    requires h in phase && phase[h] != Acked
    ensures |Open(phase[h := Acked])| < |Open(phase)|
  {
    assert Open(phase[h := Acked]) == Open(phase) - {h};
  }

  lemma OpenMoves(p: map<int, Phase>, p': map<int, Phase>, q: seq<int>, q': seq<int>, d: seq<int>, d': seq<int>)
    requires Moves(p, p', q, q', d, d')
    ensures |Open(p')| == |Open(p)|
  {
    forall h | h in p ensures p'[h] == Acked <==> p[h] == Acked {
      assert Later(p[h], p'[h]);
    }
    assert Open(p') == Open(p);
  }

  /** What a handler has done about a request: acknowledged it, or left it to the device. */
  predicate Handled(p: Phase, p': Phase, acked: bool) {
    if acked then p != Acked && p' == Acked else Later(p, p')
  }

  /** Where a handler stands: it has collected `got`, and the rest of what was reported is `done`. */
  ghost predicate Handling(reqs: map<int, Req>, phase0: map<int, Phase>, phase: map<int, Phase>, done0: seq<int>,
                           done: seq<int>, got: seq<int>, woken: seq<nat>) {
    && phase0.Keys == phase.Keys == reqs.Keys && done0 <= got + done && NoRepeats(got + done)
    && (forall h :: h in phase ==> Handled(phase0[h], phase[h], h in got))
    && (forall h :: h in got + done ==> h in reqs)
    && woken == Bufs(reqs, got)
  }

  /** The buffers of the listed requests. */
  function Bufs(reqs: map<int, Req>, q: seq<int>): seq<nat>
    requires forall h :: h in q ==> h in reqs
  {
    seq(|q|, k requires 0 <= k < |q| => if q[k] in reqs then reqs[q[k]].buf else 0)
  }

  lemma HandlingNone(reqs: map<int, Req>, phase: map<int, Phase>, done: seq<int>)
    requires phase.Keys == reqs.Keys && NoRepeats(done) && Within(done, phase)
    ensures Handling(reqs, phase, phase, done, done, [], [])
  {
    assert [] + done == done;
    forall h | h in [] + done ensures h in reqs {
      var k :| 0 <= k < |done| && done[k] == h;
    }
  }

  lemma HandlingMoves(reqs: map<int, Req>, phase0: map<int, Phase>, p: map<int, Phase>, p': map<int, Phase>,
                      q: seq<int>, q': seq<int>, done0: seq<int>, d: seq<int>, d': seq<int>, got: seq<int>,
                      woken: seq<nat>)
    requires Handling(reqs, phase0, p, done0, d, got, woken) && Moves(p, p', q, q', d, d')
    requires NoRepeats(d') && Within(d', p')
    ensures Handling(reqs, phase0, p', done0, d', got, woken)
  {
    forall h | h in p ensures Handled(phase0[h], p'[h], h in got) {
      assert Handled(phase0[h], p[h], h in got) && Later(p[h], p'[h]);
    }
    var a, b := got + d, got + d';
    assert forall k :: 0 <= k < |a| ==> b[k] == a[k];
    forall j, k | 0 <= j < k < |b| ensures b[j] != b[k] {
      if j < |got| && k >= |a| {
        assert b[j] == got[j] && got[j] in got && b[k] == d'[k - |got|];
        assert Handled(phase0[got[j]], p[got[j]], got[j] in got);
      } else if j >= |got| {
        assert b[j] == d'[j - |got|] && b[k] == d'[k - |got|];
      }
    }
    forall h | h in b ensures h in reqs {
      var k :| 0 <= k < |b| && b[k] == h;
      if k >= |got| {
        assert d'[k - |got|] in p';
      } else {
        assert h in a;
      }
    }
  }

  lemma HandlingAck(reqs: map<int, Req>, phase0: map<int, Phase>, p: map<int, Phase>, done0: seq<int>, d: seq<int>,
                    got: seq<int>, woken: seq<nat>)
    requires Handling(reqs, phase0, p, done0, d, got, woken) && d != [] && d[0] in p && p[d[0]] == Done
    ensures d[0] in reqs
    ensures Handling(reqs, phase0, p[d[0] := Acked], done0, d[1..], got + [d[0]], woken + [reqs[d[0]].buf])
  {
    var h, a := d[0], got + d;
    assert got + [h] + d[1..] == a;
    assert a[|got|] == h;
    assert h !in got;
    forall g | g in p ensures Handled(phase0[g], p[h := Acked][g], g in got + [h]) {
      assert Handled(phase0[g], p[g], g in got);
    }
    assert Bufs(reqs, got + [h]) == Bufs(reqs, got) + [reqs[h].buf];
  }

  lemma HandlingDone(reqs: map<int, Req>, phase0: map<int, Phase>, p: map<int, Phase>, done0: seq<int>, done: seq<int>,
                     got: seq<int>, woken: seq<nat>)
    requires Handling(reqs, phase0, p, done0, done, got, woken)
    ensures done0 <= got + done && NoRepeats(got) && woken == Bufs(reqs, got)
    ensures forall h :: h in got ==> h in reqs && phase0[h] != Acked
    ensures phase0.Keys == p.Keys && forall h :: h in p ==> Handled(phase0[h], p[h], h in got)
  {
    var all := got + done;
    assert forall k :: 0 <= k < |got| ==> got[k] == all[k];
    forall h | h in got ensures h in reqs && phase0[h] != Acked {
      assert h in all;
      assert Handled(phase0[h], p[h], h in got);
    }
  }

  function Freed(free: seq<bool>, h: int, r: Req, step: int): seq<bool>
    requires |free| == NUM && 0 <= h < NUM && r.d1 < NUM && r.d2 < NUM
  {
    if step == 0 then free else if step == 1 then free[h := true] else free[h := true][r.d1 := true]
  }

  function Wiped(desc: seq<Desc>, h: int, r: Req, step: int): seq<Desc>
    requires |desc| == NUM && 0 <= h < NUM && r.d1 < NUM && r.d2 < NUM
  {
    if step == 0 then desc else if step == 1 then desc[h := NODESC] else desc[h := NODESC][r.d1 := NODESC]
  }

  /** The map of free descriptors with those of idx taken. */
  function Marked(free: seq<bool>, idx: seq<int>): (r: seq<bool>)
    ensures |r| == |free| && forall i :: 0 <= i < |free| ==> r[i] == (free[i] && i !in idx)
  {
    seq(|free|, i requires 0 <= i < |free| => free[i] && i !in idx)
  }

  lemma MarkedAt(free: seq<bool>, idx: seq<int>, i: int)
    requires 0 <= i < |free| && Marked(free, idx)[i]
    ensures free[i] && i !in idx && Marked(free, idx)[i := false] == Marked(free, idx + [i])
  {
  }

  ghost predicate Three(free: seq<bool>, free': seq<bool>, a: int, b: int, c: int) {
    && |free| == |free'| == NUM && 0 <= a < NUM && 0 <= b < NUM && 0 <= c < NUM
    && free[a] && free[b] && free[c] && a != b && a != c && b != c
    && free' == free[a := false][b := false][c := false]
  }

  lemma MarkedThree(free: seq<bool>, idx: seq<int>)
    requires |free| == NUM && |idx| == 3 && (forall k :: 0 <= k < 3 ==> 0 <= idx[k] < NUM && free[idx[k]])
    requires forall j, k :: 0 <= j < k < 3 ==> idx[j] != idx[k]
    ensures Three(free, Marked(free, idx), idx[0], idx[1], idx[2])
  {
    assert Marked(free, idx) == free[idx[0] := false][idx[1] := false][idx[2] := false];
  }

  lemma AllFree(free: seq<bool>)
    requires |free| == NUM && forall i :: 0 <= i < NUM ==> free[i]
    ensures CountFree(free) == NUM
  {
    CountAll(free);
  }

  lemma {:induction false} CountAll(free: seq<bool>)
    requires forall i :: 0 <= i < |free| ==> free[i]
    ensures CountFree(free) == |free|
  {
    if free != [] {
      CountAll(free[..|free| - 1]);
    }
  }

  // ---------------------------------------------------------------- the invariant, step by step

  lemma RequestAdded(before: seq<bool>, free: seq<bool>, owner: seq<int>, desc: seq<Desc>, ops: seq<Op>,
                     info: seq<Info>, reqs: map<int, Req>, phase: map<int, Phase>, queued: seq<int>, done: seq<int>,
                     owned: set<nat>, h: nat, r: Req)
    requires Owned(before, owner, reqs) && Three(before, free, h, r.d1, r.d2)
    requires CountFree(free) == CountFree(before) - 3
    requires AllFormatted(desc, ops, info, reqs) && Cleared(before, desc)
    requires phase.Keys == reqs.Keys && NoRepeats(queued) && Within(queued, phase) && Within(done, phase)
    requires AllPhases(reqs, phase, queued, done, info, owned) && forall g :: g in reqs ==> reqs[g].buf != r.buf
    ensures h !in reqs && h < NUM && r.d1 < NUM && r.d2 < NUM && h != r.d1
    ensures Owned(free, owner[h := h][r.d1 := h][r.d2 := h], reqs[h := r])
    ensures var desc' := desc[h := Desc(Header(h), 16, true, false, r.d1)]
                             [r.d1 := Desc(Data(r.buf), Blocks.BSIZE, true, !r.write, r.d2)]
                             [r.d2 := Desc(Status(h), 1, false, true, 0)];
            AllFormatted(desc', ops[h := Op(r.write, r.blockno * (Blocks.BSIZE / 512))],
                         info[h := HasBuf(r.buf, 0xff)], reqs[h := r]) &&
            Cleared(free, desc')
    ensures Within(queued, phase[h := Prepared]) && Within(done, phase[h := Prepared])
    ensures AllPhases(reqs[h := r], phase[h := Prepared], queued, done, info[h := HasBuf(r.buf, 0xff)], owned + {r.buf})
  {
    hide CountFree, Owned, AllFormatted, AllPhases, Cleared, NoRepeats, Within;
    OwnedAdd(before, free, owner, reqs, h, r);
    FormatsAdd(desc, ops, info, owner, reqs, before, free, h, r);
    PhasesAdd(reqs, phase, queued, done, info, owned, h, r);
  }

  lemma OwnedAdd(before: seq<bool>, free: seq<bool>, owner: seq<int>, reqs: map<int, Req>, h: int, r: Req)
    requires Owned(before, owner, reqs) && Three(before, free, h, r.d1, r.d2)
    requires CountFree(free) == CountFree(before) - 3
    ensures h !in reqs && Owned(free, owner[h := h][r.d1 := h][r.d2 := h], reqs[h := r])
  {
    hide CountFree;
    assert OwnerOf(before, owner, reqs, h);
    assert h in reqs ==> Chained(owner, reqs, h);
    var reqs' := reqs[h := r];
    assert reqs'.Keys == reqs.Keys + {h} && |reqs'| == |reqs'.Keys| && |reqs| == |reqs.Keys|;
    var owner' := owner[h := h][r.d1 := h][r.d2 := h];
    OwnersAdd(before, free, owner, owner', reqs, reqs', h, r);
    ChainsAdd(before, free, owner, owner', reqs, reqs', h, r);
  }

  lemma OwnersAdd(before: seq<bool>, free: seq<bool>, owner: seq<int>, owner': seq<int>,
                  reqs: map<int, Req>, reqs': map<int, Req>, h: int, r: Req)
    requires |owner| == NUM && Three(before, free, h, r.d1, r.d2) && h !in reqs
    requires owner' == owner[h := h][r.d1 := h][r.d2 := h] && reqs' == reqs[h := r]
    requires forall i :: 0 <= i < NUM ==> OwnerOf(before, owner, reqs, i)
    ensures forall i :: 0 <= i < NUM ==> OwnerOf(free, owner', reqs', i)
  {
    forall i: nat | i < NUM
      ensures OwnerOf(free, owner', reqs', i)
    {
      assert OwnerOf(before, owner, reqs, i);
    }
  }

  lemma ChainsAdd(before: seq<bool>, free: seq<bool>, owner: seq<int>, owner': seq<int>,
                  reqs: map<int, Req>, reqs': map<int, Req>, h: int, r: Req)
    requires |owner| == NUM && Three(before, free, h, r.d1, r.d2) && h !in reqs
    requires owner' == owner[h := h][r.d1 := h][r.d2 := h] && reqs' == reqs[h := r]
    requires forall i :: 0 <= i < NUM ==> OwnerOf(before, owner, reqs, i)
    requires forall g :: g in reqs ==> Chained(owner, reqs, g)
    ensures forall g :: g in reqs || g == h ==> Chained(owner', reqs', g)
  {
    assert OwnerOf(before, owner, reqs, h) && OwnerOf(before, owner, reqs, r.d1) && OwnerOf(before, owner, reqs, r.d2);
    forall g | g in reqs || g == h
      ensures Chained(owner', reqs', g)
    {
      if g != h {
        assert Chained(owner, reqs, g);
      }
    }
  }

  lemma FormatsAdd(desc: seq<Desc>, ops: seq<Op>, info: seq<Info>, owner: seq<int>, reqs: map<int, Req>,
                   before: seq<bool>, free: seq<bool>, h: int, r: Req)
    requires Owned(before, owner, reqs) && Three(before, free, h, r.d1, r.d2)
    requires AllFormatted(desc, ops, info, reqs) && Cleared(before, desc)
    requires forall g :: g in reqs ==> reqs[g].buf != r.buf
    ensures var desc' := desc[h := Desc(Header(h), 16, true, false, r.d1)]
                             [r.d1 := Desc(Data(r.buf), Blocks.BSIZE, true, !r.write, r.d2)]
                             [r.d2 := Desc(Status(h), 1, false, true, 0)];
            AllFormatted(desc', ops[h := Op(r.write, r.blockno * (Blocks.BSIZE / 512))],
                         info[h := HasBuf(r.buf, 0xff)], reqs[h := r]) &&
            Cleared(free, desc')
  {
    hide CountFree;
    var desc' := desc[h := Desc(Header(h), 16, true, false, r.d1)]
                     [r.d1 := Desc(Data(r.buf), Blocks.BSIZE, true, !r.write, r.d2)]
                     [r.d2 := Desc(Status(h), 1, false, true, 0)];
    var ops', info', reqs' := ops[h := Op(r.write, r.blockno * (Blocks.BSIZE / 512))], info[h := HasBuf(r.buf, 0xff)],
        reqs[h := r];
    forall g | g in reqs'
      ensures Formatted(desc', ops', info', g, reqs'[g])
    {
      if g != h {
        assert Formatted(desc, ops, info, g, reqs[g]) && Chained(owner, reqs, g);
        assert OwnerOf(before, owner, reqs, g) && OwnerOf(before, owner, reqs, reqs[g].d1)
            && OwnerOf(before, owner, reqs, reqs[g].d2);
      }
    }
  }

  lemma PhasesAdd(reqs: map<int, Req>, phase: map<int, Phase>, queued: seq<int>, done: seq<int>,
                  info: seq<Info>, owned: set<nat>, h: nat, r: Req)
    requires h !in reqs && phase.Keys == reqs.Keys && h < |info|
    requires NoRepeats(queued) && Within(queued, phase) && Within(done, phase)
    requires AllPhases(reqs, phase, queued, done, info, owned) && forall g :: g in reqs ==> reqs[g].buf != r.buf
    ensures Within(queued, phase[h := Prepared]) && Within(done, phase[h := Prepared])
    ensures AllPhases(reqs[h := r], phase[h := Prepared], queued, done, info[h := HasBuf(r.buf, 0xff)], owned + {r.buf})
  {
    var reqs' := reqs[h := r];
    forall g | g in reqs'
      ensures PhaseAt(reqs', phase[h := Prepared], queued, done, info[h := HasBuf(r.buf, 0xff)], owned + {r.buf}, g)
    {
      if g != h {
        assert PhaseAt(reqs, phase, queued, done, info, owned, g);
      }
    }
  }

  lemma PhasesQueue(reqs: map<int, Req>, phase: map<int, Phase>, queued: seq<int>, done: seq<int>, info: seq<Info>,
                    owned: set<nat>, h: int)
    requires phase.Keys == reqs.Keys && h in reqs && phase[h] == Prepared && NoRepeats(queued)
    requires Within(queued, phase) && Within(done, phase) && AllPhases(reqs, phase, queued, done, info, owned)
    ensures NoRepeats(queued + [h]) && Within(queued + [h], phase[h := Queued]) && Within(done, phase[h := Queued])
    ensures AllPhases(reqs, phase[h := Queued], queued + [h], done, info, owned)
  {
    assert PhaseAt(reqs, phase, queued, done, info, owned, h);
    forall g | g in reqs ensures PhaseAt(reqs, phase[h := Queued], queued + [h], done, info, owned, g) {
      assert PhaseAt(reqs, phase, queued, done, info, owned, g);
    }
  }

  /** The device's status byte is not part of how a request is laid out. */
  lemma FormatsStatus(desc: seq<Desc>, ops: seq<Op>, info: seq<Info>, reqs: map<int, Req>, h: int,
                      status: nat)
    requires AllFormatted(desc, ops, info, reqs) && h in reqs
    ensures 0 <= h < NUM && AllFormatted(desc, ops, info[h := info[h].(status := status)], reqs)
  {
    assert Formatted(desc, ops, info, h, reqs[h]);
    forall g | g in reqs
      ensures Formatted(desc, ops, info[h := info[h].(status := status)], g, reqs[g])
    {
      assert Formatted(desc, ops, info, g, reqs[g]);
    }
  }

  lemma PhasesTake(reqs: map<int, Req>, phase: map<int, Phase>, queued: seq<int>, done: seq<int>, info: seq<Info>,
                   owned: set<nat>)
    requires phase.Keys == reqs.Keys && queued != [] && NoRepeats(queued)
    requires Within(queued, phase)
    requires AllPhases(reqs, phase, queued, done, info, owned)
    ensures NoRepeats(queued[1..]) && Within(queued[1..], phase[queued[0] := Taken]) && queued[0] in phase
    ensures Within(done, phase) ==> Within(done, phase[queued[0] := Taken])
    ensures AllPhases(reqs, phase[queued[0] := Taken], queued[1..], done, info, owned)
  {
    var h, rest := queued[0], queued[1..];
    assert queued == [h] + rest;
    forall g | g in reqs
      ensures PhaseAt(reqs, phase[h := Taken], rest, done, info, owned, g)
    {
      assert PhaseAt(reqs, phase, queued, done, info, owned, g);
      assert g in queued <==> g == h || g in rest;
      assert h !in rest;
    }
  }

  lemma PhasesComplete(reqs: map<int, Req>, phase: map<int, Phase>, queued: seq<int>, done: seq<int>, info: seq<Info>,
                       owned: set<nat>, h: int, status: nat)
    requires phase.Keys == reqs.Keys && h in reqs && phase[h] == Taken && NoRepeats(done)
    requires Within(done, phase)
    requires AllPhases(reqs, phase, queued, done, info, owned) && 0 <= h < |info|
    ensures NoRepeats(done + [h]) && h !in done && Within(done + [h], phase[h := Done])
    ensures Within(queued, phase) ==> Within(queued, phase[h := Done])
    ensures AllPhases(reqs, phase[h := Done], queued, done + [h], info[h := info[h].(status := status)], owned)
  {
    assert PhaseAt(reqs, phase, queued, done, info, owned, h);
    forall g | g in reqs
      ensures PhaseAt(reqs, phase[h := Done], queued, done + [h], info[h := info[h].(status := status)], owned, g)
    {
      assert PhaseAt(reqs, phase, queued, done, info, owned, g);
    }
  }

  lemma PhasesAck(reqs: map<int, Req>, phase: map<int, Phase>, queued: seq<int>, done: seq<int>, info: seq<Info>,
                  owned: set<nat>)
    requires phase.Keys == reqs.Keys && done != [] && NoRepeats(done)
    requires Within(done, phase)
    requires forall g, h :: g in reqs && h in reqs && g != h ==> reqs[g].buf != reqs[h].buf
    requires AllPhases(reqs, phase, queued, done, info, owned)
    requires 0 <= done[0] < |info| ==> info[done[0]].status == 0
    ensures NoRepeats(done[1..]) && Within(done[1..], phase[done[0] := Acked])
    ensures Within(queued, phase) ==> Within(queued, phase[done[0] := Acked])
    ensures done[0] in reqs
    ensures AllPhases(reqs, phase[done[0] := Acked], queued, done[1..], info, owned - {reqs[done[0]].buf})
  {
    var h, rest := done[0], done[1..];
    assert done == [h] + rest && h in phase;
    forall g | g in reqs
      ensures PhaseAt(reqs, phase[h := Acked], queued, rest, info, owned - {reqs[h].buf}, g)
    {
      assert PhaseAt(reqs, phase, queued, done, info, owned, g);
      assert g in done <==> g == h || g in rest;
      assert h !in rest;
    }
  }

  lemma OwnedRemove(free: seq<bool>, owner: seq<int>, reqs: map<int, Req>, h: int)
    requires Owned(free, owner, reqs) && h in reqs
    ensures Chained(owner, reqs, h)
    ensures var free' := free[h := true][reqs[h].d1 := true][reqs[h].d2 := true];
            CountFree(free') == CountFree(free) + 3 ==>
            Owned(free', owner[h := -1][reqs[h].d1 := -1][reqs[h].d2 := -1], reqs - {h})
  {
    hide CountFree;
    var r := reqs[h];
    assert Chained(owner, reqs, h);
    var free', owner', reqs' := free[h := true][r.d1 := true][r.d2 := true], owner[h := -1][r.d1 := -1][r.d2 := -1],
        reqs - {h};
    assert reqs'.Keys == reqs.Keys - {h} && |reqs'| == |reqs'.Keys| && |reqs| == |reqs.Keys|;
    forall g | g in reqs'
      ensures Chained(owner', reqs', g)
    {
      assert Chained(owner, reqs, g);
    }
    forall i: nat | i < NUM
      ensures OwnerOf(free', owner', reqs', i)
    {
      assert OwnerOf(free, owner, reqs, i);
    }
  }

  lemma FormatsRemove(free: seq<bool>, desc: seq<Desc>, ops: seq<Op>, info: seq<Info>, owner: seq<int>,
                      reqs: map<int, Req>, h: int)
    requires Owned(free, owner, reqs) && AllFormatted(desc, ops, info, reqs) && Cleared(free, desc) && h in reqs
    ensures Chained(owner, reqs, h)
    ensures var r := reqs[h];
            var desc' := desc[h := NODESC][r.d1 := NODESC][r.d2 := NODESC];
            AllFormatted(desc', ops, info[h := NoBuf(info[h].status)], reqs - {h}) &&
            Cleared(free[h := true][r.d1 := true][r.d2 := true], desc')
  {
    hide CountFree;
    var r, reqs' := reqs[h], reqs - {h};
    assert Chained(owner, reqs, h);
    var desc' := desc[h := NODESC][r.d1 := NODESC][r.d2 := NODESC];
    forall g | g in reqs'
      ensures Formatted(desc', ops, info[h := NoBuf(info[h].status)], g, reqs'[g])
    {
      assert Formatted(desc, ops, info, g, reqs[g]) && Chained(owner, reqs, g);
    }
  }

  lemma PhasesRemove(reqs: map<int, Req>, phase: map<int, Phase>, queued: seq<int>, done: seq<int>, info: seq<Info>,
                     owned: set<nat>, h: int)
    requires phase.Keys == reqs.Keys && h in reqs && reqs[h].buf !in owned && 0 <= h < |info|
    requires Within(queued, phase) && Within(done, phase)
    requires AllPhases(reqs, phase, queued, done, info, owned)
    ensures h !in queued && h !in done
    ensures Within(queued, phase - {h}) && Within(done, phase - {h})
    ensures AllPhases(reqs - {h}, phase - {h}, queued, done, info[h := NoBuf(info[h].status)], owned)
  {
    assert PhaseAt(reqs, phase, queued, done, info, owned, h);
    forall g | g in reqs && g != h
      ensures PhaseAt(reqs - {h}, phase - {h}, queued, done, info[h := NoBuf(info[h].status)], owned, g)
    {
      assert PhaseAt(reqs, phase, queued, done, info, owned, g);
    }
  }
}
