/**
 The pipe of kernel/pipe.c: a ring of PIPESIZE bytes with two 32-bit counters.

 Each method is what a process does between taking the pipe's lock and giving it
 up, whether by returning or by going to sleep; any order of such sessions is a
 run. `Valid` is kept by all of them, so it holds at every lock release of every
 run: what has been removed is a prefix of what was inserted, at most PIPESIZE
 bytes behind, also after the counters wrap around.

 A reader sleeps only beside an empty pipe, except that a writer which is killed
 after inserting bytes returns without a wakeup. Each session says exactly whether
 it leaves a reader asleep beside bytes.
 */
module Pipe {
  import opened Params

  const PIPESIZE: nat := 512

  datatype Outcome = Slept | Returned(value: int)

  // ---------------------------------------------------------------- wrapping counters

  function Inc(x: nat): nat {
    (x + 1) % UINT
  }

  /** The tests the code makes on wrapped counters say what they should of the true ones. */
  lemma Wrapped(r: nat, w: nat)
    requires r <= w <= r + PIPESIZE
    ensures w % UINT == r % UINT <==> w == r
    ensures w % UINT == (r % UINT + PIPESIZE) % UINT <==> w == r + PIPESIZE
  {
    var s, d := r % UINT, w - r;
    var q := r / UINT;
    assert r == q * UINT + s;
    if s + d < UINT {
      ModIs(w, q, s + d);
    } else {
      ModIs(w, q + 1, s + d - UINT);
    }
    if s + PIPESIZE < UINT {
      ModIs(s + PIPESIZE, 0, s + PIPESIZE);
    } else {
      ModIs(s + PIPESIZE, 1, s + PIPESIZE - UINT);
    }
  }

  lemma ModIs(x: nat, q: nat, s: nat)
    requires x == q * UINT + s && s < UINT
    ensures x % UINT == s
  {
  }

  lemma WrappedStep(x: nat)
    ensures Inc(x % UINT) == (x + 1) % UINT
    ensures x % UINT % PIPESIZE == x % PIPESIZE
  {
    var q, s := x / UINT, x % UINT;
    assert x == q * UINT + s;
    assert x == (q * (UINT / PIPESIZE)) * PIPESIZE + s;
    if s + 1 < UINT {
      ModIs(x + 1, q, s + 1);
    } else {
      ModIs(x + 1, q + 1, 0);
    }
  }

  lemma Apart(j: nat, k: nat)
    requires j < k < j + PIPESIZE
    ensures j % PIPESIZE != k % PIPESIZE
  {
  }

  // ---------------------------------------------------------------- where a write stops

  /** Whether a write of n bytes goes on at byte j: `room` is the first byte that does not fit. */
  predicate Goes(j: nat, n: nat, room: nat, readable: nat, open: bool, killed: set<nat>) {
    j < n && open && j !in killed && j < room && j < readable
  }

  /** A write that begins at byte i0 goes on up to byte i and no further. */
  predicate StopsAt(i0: nat, i: nat, n: nat, room: nat, readable: nat, open: bool, killed: set<nat>) {
    && i0 <= i && (forall j :: i0 <= j < i ==> Goes(j, n, room, readable, open, killed))
    && !Goes(i, n, room, readable, open, killed)
  }

  predicate FirstKill(i0: nat, j: nat, killed: set<nat>) {
    j in killed && forall k :: i0 <= k < j ==> k !in killed
  }

  /** The first kill is seen after at least one byte has gone in, before the bytes, the room or the buffer end. */
  predicate KilledMidway(i0: nat, n: nat, room: nat, readable: nat, killed: set<nat>) {
    exists j :: i0 < j < n && j <= room && j <= readable && FirstKill(i0, j, killed)
  }

  /** A write dies with bytes inserted exactly if it was killed midway in an open pipe. */
  lemma DiesMidway(i0: nat, i: nat, n: nat, room: nat, readable: nat, open: bool, killed: set<nat>)
    requires StopsAt(i0, i, n, room, readable, open, killed) && i <= n
    ensures i > i0 && i < n && (!open || i in killed)
            <==> open && KilledMidway(i0, n, room, readable, killed)
  {
    if i > i0 {
      assert Goes(i - 1, n, room, readable, open, killed);
      forall k | i0 <= k < i ensures k !in killed {
        assert Goes(k, n, room, readable, open, killed);
      }
      assert i in killed ==> FirstKill(i0, i, killed);
    }
    if open && KilledMidway(i0, n, room, readable, killed) {
      var j :| i0 < j < n && j <= room && j <= readable && FirstKill(i0, j, killed);
      assert i < j ==> Goes(i, n, room, readable, open, killed);
      assert !Goes(j, n, room, readable, open, killed);
      assert i == j;
    }
  }

  // ---------------------------------------------------------------- the pipe

  class Pipe {
    const data: array<int>
    var nread: nat
    var nwrite: nat
    var readopen: bool
    var writeopen: bool
    var readers: set<nat>
    var writers: set<nat>
    ghost var inserted: seq<int>
    ghost var removed: nat

    /** The bytes in the ring are those inserted and not yet removed, in their places. */
    ghost predicate Ring()
      reads this, data
    {
      && data.Length == PIPESIZE
      && removed <= |inserted| <= removed + PIPESIZE
      && nread == removed % UINT && nwrite == |inserted| % UINT
      && forall k :: removed <= k < |inserted| ==> data[k % PIPESIZE] == inserted[k]
    }

    ghost predicate EmptyPipe()
      reads this
    {
      |inserted| == removed
    }

    ghost predicate FullPipe()
      reads this
    {
      |inserted| == removed + PIPESIZE
    }

    /** The first byte that does not fit, of bytes inserted from the i0-th on. */
    ghost function Room(i0: nat): nat
      requires Ring()
      reads this, data
    {
      i0 + PIPESIZE - (|inserted| - removed)
    }

    /** A reader sleeps although there are bytes to read. */
    ghost predicate LeftAsleep()
      reads this
    {
      readers != {} && !EmptyPipe()
    }

    ghost predicate Valid()
      reads this, data
    {
      && Ring()
      && (readers != {} ==> writeopen)
      && (writers != {} ==> FullPipe() && readopen)
    }

    constructor ()
      ensures Valid() && inserted == [] && removed == 0 && readopen && writeopen
      ensures readers == {} && writers == {} && fresh(data)
    {
      data := new int[PIPESIZE];
      nread, nwrite, readopen, writeopen, readers, writers := 0, 0, true, true, {}, {};
      inserted, removed := [], 0;
    }

    method WakeReaders()
      modifies this`readers
      ensures readers == {}
    {
      readers := {};
    }

    method WakeWriters()
      modifies this`writers
      ensures writers == {}
    {
      writers := {};
    }

    /** A kill takes a sleeping process out of its sleep without a wakeup. */
    method KillSleeper(p: nat)
      requires Valid()
      modifies this`readers, this`writers
      ensures Valid() && readers == old(readers) - {p} && writers == old(writers) - {p}
      ensures LeftAsleep() ==> old(LeftAsleep())
    {
      readers, writers := readers - {p}, writers - {p};
    }

    /** Closes one end; the page goes back to the allocator with the second. */
    method Close(writable: bool) returns (freed: bool)
      requires Valid()
      modifies this`readopen, this`writeopen, this`readers, this`writers
      ensures Valid() && freed == (!readopen && !writeopen)
      ensures writable ==> !writeopen && readers == {} && readopen == old(readopen) && writers == old(writers)
      ensures !writable ==> !readopen && writers == {} && writeopen == old(writeopen) && readers == old(readers)
      ensures LeftAsleep() ==> old(LeftAsleep())
    {
      if writable {
        writeopen := false;
        WakeReaders();
      } else {
        readopen := false;
        WakeWriters();
      }
      freed := !readopen && !writeopen;
    }

    method PutByte(ch: int)
      requires Ring() && !FullPipe()
      modifies this`nwrite, this`inserted, data
      ensures Ring() && inserted == old(inserted) + [ch]
    {
      WrappedStep(|inserted|);
      forall k | removed <= k < |inserted|
        ensures k % PIPESIZE != |inserted| % PIPESIZE
      {
        Apart(k, |inserted|);
      }
      data[nwrite % PIPESIZE] := ch;
      nwrite := Inc(nwrite);
      inserted := inserted + [ch];
    }

    method TakeByte() returns (ch: int)
      requires Ring() && !EmptyPipe()
      modifies this`nread, this`removed
      ensures Ring() && removed == old(removed) + 1 && ch == inserted[old(removed)]
    {
      WrappedStep(removed);
      ch := data[nread % PIPESIZE];
      nread := Inc(nread);
      removed := removed + 1;
    }

    /**
     One session of pipewrite by process p, which has written i0 of its bytes.
     The first `readable` bytes of the user's buffer can be read; `killed`
     holds the bytes before which p is seen to be killed. A write that dies wakes
     nobody, so a reader may be left asleep beside the bytes it inserted.
     */
    method Write(p: nat, bytes: seq<int>, i0: nat, readable: nat, killed: set<nat>) returns (i: nat, r: Outcome)
      requires Valid() && p !in writers && i0 <= |bytes|
      modifies this, data
      ensures Valid() && i <= |bytes|
      ensures i0 <= i && (i0 < i ==> readopen && i <= readable) && forall j :: i0 <= j < i ==> j !in killed
      ensures r == Returned(-1) || r == Slept || r == Returned(i)
      ensures r == Returned(-1) <==> i < |bytes| && (!readopen || i in killed)
      ensures r == Slept <==> i < |bytes| && readopen && i !in killed && FullPipe()
      ensures r == Returned(i) <==> i == |bytes| || (readopen && i !in killed && !FullPipe() && readable <= i)
      ensures inserted == old(inserted) + bytes[i0..i] && removed == old(removed)
      ensures readopen == old(readopen) && writeopen == old(writeopen)
      ensures writers == if r == Slept then old(writers) + {p} else old(writers)
      ensures readers == if r == Returned(-1) then old(readers) else {}
      ensures !old(LeftAsleep()) ==>
                (LeftAsleep()
                 <==> old(readers) != {} && readopen
                      && KilledMidway(i0, |bytes|, i0 + PIPESIZE, readable, killed))
      ensures old(LeftAsleep()) ==> (LeftAsleep() <==> r == Returned(-1))
    {
      i := i0;
      assert bytes[i0..i] == [];
      ghost var room := Room(i0);
      while i < |bytes|
        invariant i0 <= i <= |bytes| && Ring()
        invariant inserted == old(inserted) + bytes[i0..i] && removed == old(removed)
        invariant readopen == old(readopen) && writeopen == old(writeopen)
        invariant writers == old(writers) && readers == old(readers)
        invariant (i0 < i ==> readopen && i <= readable) && forall j :: i0 <= j < i ==> j !in killed
        invariant forall j :: i0 <= j < i ==> Goes(j, |bytes|, room, readable, readopen, killed)
        invariant writers != {} ==> i == i0
      {
        if !readopen || i in killed {
          DiesMidway(i0, i, |bytes|, room, readable, readopen, killed);
          return i, Returned(-1);
        }
        Wrapped(removed, |inserted|);
        if nwrite == (nread + PIPESIZE) % UINT {
          DiesMidway(i0, i, |bytes|, room, readable, readopen, killed);
          WakeReaders();
          writers := writers + {p};
          return i, Slept;
        }
        if i >= readable {
          break;
        }
        PutByte(bytes[i]);
        assert bytes[i0..i + 1] == bytes[i0..i] + [bytes[i]];
        i := i + 1;
      }
      DiesMidway(i0, i, |bytes|, room, readable, readopen, killed);
      WakeReaders();
      r := Returned(i);
    }

    /**
     One session of piperead by process p for n bytes, of which the user's buffer
     can take the first `writable`; a byte that cannot be delivered is lost.
     */
    method Read(p: nat, n: nat, writable: nat, killed: bool) returns (out: seq<int>, r: Outcome)
      requires Valid() && p !in readers
      modifies this
      ensures Valid() && inserted == old(inserted)
      ensures readopen == old(readopen) && writeopen == old(writeopen)
      ensures r == Slept <==> old(EmptyPipe()) && writeopen && !killed
      ensures r == Returned(-1) <==> old(EmptyPipe()) && writeopen && killed
      ensures r == Slept ==> readers == old(readers) + {p} && writers == old(writers)
      ensures r == Returned(-1) ==> readers == old(readers) && writers == old(writers)
      ensures LeftAsleep() ==> old(LeftAsleep())
      ensures r == Slept || r == Returned(-1) ==> out == [] && removed == old(removed)
      ensures r.Returned? && r.value >= 0 ==> r.value == |out| && writers == {} && readers == old(readers)
      ensures r.Returned? && r.value >= 0 ==> |out| == Least(n, writable, |inserted| - old(removed))
      ensures r.Returned? && r.value >= 0 ==> out == inserted[old(removed)..old(removed) + |out|]
      ensures r.Returned? && r.value >= 0 ==>
                removed == old(removed) + |out| + if |out| == writable < n
                    && old(removed) + |out| < |inserted| then 1 else 0
    {
      out := [];
      Wrapped(removed, |inserted|);
      if nread == nwrite && writeopen {
        if killed {
          return out, Returned(-1);
        }
        readers := readers + {p};
        return out, Slept;
      }
      assert inserted[removed..removed] == [];
      while |out| < n
        invariant |out| <= n && |out| <= writable && Ring() && removed == old(removed) + |out|
        invariant inserted == old(inserted) && out == inserted[old(removed)..removed]
        invariant readopen == old(readopen) && writeopen == old(writeopen)
        invariant readers == old(readers) && writers == old(writers)
        decreases n - |out|
      {
        Wrapped(removed, |inserted|);
        if nread == nwrite {
          break;
        }
        var ch := TakeByte();
        if |out| >= writable {
          break;
        }
        out := out + [ch];
      }
      WakeWriters();
      r := Returned(|out|);
    }
  }

  /** A reader asleep beside a byte: the writer of two bytes was killed after the first. */
  method KilledWriter() returns (pipe: Pipe)
    ensures pipe.Valid() && pipe.inserted == [7] && pipe.removed == 0 && pipe.readers == {1} && pipe.LeftAsleep()
  {
    pipe := new Pipe();
    var out, asleep := pipe.Read(1, 1, 1, false);
    var i, r := pipe.Write(2, [7, 8], 0, 2, {1});
    assert i == 1;
  }

  function Least(a: nat, b: nat, c: nat): nat {
    if a <= b && a <= c then a else if b <= c then b else c
  }
}
