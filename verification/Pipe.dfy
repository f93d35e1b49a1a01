/**
 Pipes: a ring of 512 bytes with two 32-bit counters that run on and wrap.
 Readers and writers hold the pipe's lock from one sleep to the next.
 */
module Pipe {
  import opened Blocks
  import opened Collections

  const PIPESIZE := 512

  datatype Ring = Ring(data: seq<byte>, nread: nat, nwrite: nat)

  predicate Full(r: Ring) {
    r.nwrite == (r.nread + PIPESIZE) % UINT_RANGE
  }

  predicate Empty(r: Ring) {
    r.nread == r.nwrite
  }

  function Put(r: Ring, b: byte): Ring
    requires |r.data| == PIPESIZE
  {
    r.(data := r.data[r.nwrite % PIPESIZE := b], nwrite := (r.nwrite + 1) % UINT_RANGE)
  }

  function Next(r: Ring): byte
    requires |r.data| == PIPESIZE
  {
    r.data[r.nread % PIPESIZE]
  }

  function Take(r: Ring): Ring {
    r.(nread := (r.nread + 1) % UINT_RANGE)
  }

  /** Of all bytes ever written, those not yet read are in the ring, in order. */
  ghost predicate Carries(r: Ring, read: seq<byte>, written: seq<byte>) {
    && |r.data| == PIPESIZE && read <= written && |written| - |read| <= PIPESIZE
    && r.nread == |read| % UINT_RANGE && r.nwrite == |written| % UINT_RANGE
    && forall k: nat {:trigger written[k]} :: |read| <= k < |written| ==> r.data[k % PIPESIZE] == written[k]
  }

  // ----- counters that wrap -----

  lemma WrapSlot(n: nat)
    ensures n % UINT_RANGE % PIPESIZE == n % PIPESIZE && (n % UINT_RANGE + 1) % UINT_RANGE == (n + 1) % UINT_RANGE
  {
    assert n == n / UINT_RANGE * UINT_RANGE + n % UINT_RANGE;
  }

  lemma WrapCompare(a: nat, b: nat)
    requires a <= b <= a + PIPESIZE
    ensures a % UINT_RANGE == b % UINT_RANGE <==> a == b
    ensures b % UINT_RANGE == (a % UINT_RANGE + PIPESIZE) % UINT_RANGE <==> b == a + PIPESIZE
    ensures (b % UINT_RANGE - a % UINT_RANGE) % UINT_RANGE == b - a
  {
  }

  /** The tests for full and empty, and nwrite - nread modulo 2^32, are right
      however often the counters have wrapped. */
  lemma CountersRight(r: Ring, read: seq<byte>, written: seq<byte>)
    requires Carries(r, read, written)
    ensures Empty(r) <==> read == written
    ensures Full(r) <==> |written| == |read| + PIPESIZE
    ensures 0 <= (r.nwrite - r.nread) % UINT_RANGE == |written| - |read| <= PIPESIZE
  {
    WrapCompare(|read|, |written|);
  }

  lemma PutCarries(r: Ring, read: seq<byte>, written: seq<byte>, b: byte)
    requires Carries(r, read, written) && !Full(r)
    ensures Carries(Put(r, b), read, written + [b])
  {
    CountersRight(r, read, written);
    WrapSlot(|written|);
    forall k: nat | |read| <= k < |written| ensures k % PIPESIZE != |written| % PIPESIZE {
      SlotsDiffer(k, |written|, PIPESIZE);
    }
  }

  lemma TakeCarries(r: Ring, read: seq<byte>, written: seq<byte>)
    requires Carries(r, read, written) && !Empty(r)
    ensures |read| < |written| && Next(r) == written[|read|] && Carries(Take(r), read + [Next(r)], written)
  {
    CountersRight(r, read, written);
    WrapSlot(|read|);
    assert read + [written[|read|]] <= written;
  }

  // ----- runs -----

  /** One byte offered by some writer, or asked for by some reader. */
  datatype Op = Write(b: byte) | Read

  datatype State = State(ring: Ring, read: seq<byte>, written: seq<byte>)

  /** A writer sleeps while the ring is full, a reader while it is empty. */
  function Step(s: State, op: Op): State
    requires |s.ring.data| == PIPESIZE
  {
    match op
    case Write(b) => if Full(s.ring) then s else State(Put(s.ring, b), s.read, s.written + [b])
    case Read => if Empty(s.ring) then s else State(Take(s.ring), s.read + [Next(s.ring)], s.written)
  }

  function Run(s: State, ops: seq<Op>): (s': State)
    requires |s.ring.data| == PIPESIZE
    ensures |s'.ring.data| == PIPESIZE
    decreases |ops|
  {
    if ops == [] then s else Run(Step(s, ops[0]), ops[1..])
  }

  /** In every interleaving of readers and writers, what has been read is a prefix
      of what has been written and at most PIPESIZE bytes behind it. */
  lemma {:induction false} FirstInFirstOut(s: State, ops: seq<Op>)
    requires Carries(s.ring, s.read, s.written)
    ensures var s' := Run(s, ops); Carries(s'.ring, s'.read, s'.written) && s.written <= s'.written && s.read <= s'.read
    decreases |ops|
  {
    if ops != [] {
      StepCarries(s, ops[0]);
      FirstInFirstOut(Step(s, ops[0]), ops[1..]);
    }
  }

  lemma StepCarries(s: State, op: Op)
    requires Carries(s.ring, s.read, s.written)
    ensures var s' := Step(s, op); Carries(s'.ring, s'.read, s'.written) && s.written <= s'.written && s.read <= s'.read
  {
    match op
    case Write(b) =>
      if !Full(s.ring) {
        PutCarries(s.ring, s.read, s.written, b);
      }
    case Read =>
      if !Empty(s.ring) {
        TakeCarries(s.ring, s.read, s.written);
      }
  }

  lemma {:induction false} RunOn(s: State, ops: seq<Op>, more: seq<Op>)
    requires |s.ring.data| == PIPESIZE
    ensures Run(s, ops + more) == Run(Run(s, ops), more)
    decreases |ops|
  {
    if ops == [] {
      assert ops + more == more;
    } else {
      assert (ops + more)[1..] == ops[1..] + more;
      RunOn(Step(s, ops[0]), ops[1..], more);
    }
  }

  /** As many reads as there are bytes in the ring get them all. */
  lemma {:induction false} ReadsDrain(s: State) returns (ops: seq<Op>)
    requires Carries(s.ring, s.read, s.written)
    ensures |ops| == |s.written| - |s.read| && forall k :: 0 <= k < |ops| ==> ops[k] == Read
    ensures Run(s, ops).read == s.written == Run(s, ops).written
    decreases |s.written| - |s.read|
  {
    CountersRight(s.ring, s.read, s.written);
    if |s.read| == |s.written| {
      ops := [];
    } else {
      StepCarries(s, Read);
      var more := ReadsDrain(Step(s, Read));
      ops := [Read] + more;
      assert ops[1..] == more;
    }
  }

  /** Bytes that there is room for are taken as they are offered. */
  lemma {:induction false} WritesFit(s: State, data: seq<byte>)
    requires Carries(s.ring, s.read, s.written) && |s.written| + |data| <= |s.read| + PIPESIZE
    ensures var s' := Run(s, Writes(data)); s'.written == s.written + data && s'.read == s.read
    decreases |data|
  {
    if data != [] {
      CountersRight(s.ring, s.read, s.written);
      var s1 := Step(s, Write(data[0]));
      StepCarries(s, Write(data[0]));
      assert Writes(data)[1..] == Writes(data[1..]);
      WritesFit(s1, data[1..]);
      assert s.written + [data[0]] + data[1..] == s.written + data;
    }
  }

  function Writes(data: seq<byte>): seq<Op> {
    seq(|data|, k requires 0 <= k < |data| => Write(data[k]))
  }

  /** Data of any length gets through, after what was in the pipe and in order. */
  lemma {:induction false} AllGetsThrough(s: State, data: seq<byte>) returns (ops: seq<Op>)
    requires Carries(s.ring, s.read, s.written)
    ensures Run(s, ops).read == s.written + data == Run(s, ops).written
    decreases |data|
  {
    var first := ReadsDrain(s);
    var s1 := Run(s, first);
    FirstInFirstOut(s, first);
    var n := if |data| < PIPESIZE then |data| else PIPESIZE;
    var piece := data[..n];
    WritesFit(s1, piece);
    FirstInFirstOut(s1, Writes(piece));
    RunOn(s, first, Writes(piece));
    var s2 := Run(s, first + Writes(piece));
    if n == 0 {
      ops := first + Writes(piece);
    } else {
      var rest := AllGetsThrough(s2, data[n..]);
      RunOn(s, first + Writes(piece), rest);
      ops := first + Writes(piece) + rest;
      assert s.written + piece + data[n..] == s.written + data;
    }
  }

  // ----- the pipe in memory -----

  /** How a call of pipewrite or piperead leaves the pipe's lock: it returns, or sleeps. */
  datatype Outcome = Returned(n: int) | Asleep

  class PipeBuffer {
    const data: array<byte>
    var nread: nat
    var nwrite: nat
    var readopen: bool
    var writeopen: bool
    ghost var read: seq<byte>
    ghost var written: seq<byte>

    ghost function Now(): Ring
      reads this, data
    {
      Ring(data[..], nread, nwrite)
    }

    ghost predicate Valid()
      reads this, data
    {
      Carries(Now(), read, written)
    }

    constructor ()
      ensures Valid() && fresh(data) && read == [] && written == [] && readopen && writeopen
    {
      data := new byte[PIPESIZE](i => 0);
      nread, nwrite, readopen, writeopen, read, written := 0, 0, true, true, [], [];
    }

    /** pipewrite from byte `i` of `src` on, until it returns or sleeps for room;
        `killed` says whether the process has been killed when byte k is tried. */
    method Write(src: seq<byte>, i: nat, killed: nat -> bool) returns (r: Outcome, next: nat)
      requires Valid() && i <= |src|
      modifies this`nwrite, this`written, data
      ensures Valid() && i <= next <= |src| && written == old(written) + src[i..next]
      ensures match r
              case Asleep => next < |src| && readopen && !killed(next) && |written| == |read| + PIPESIZE
              case Returned(n) =>
                if n < 0 then n == -1 && next < |src| && (!readopen || killed(next)) else n == next == |src|
    {
      next := i;
      assert old(written) + src[i..i] == old(written);
      while next < |src|
        invariant Valid() && i <= next <= |src| && written == old(written) + src[i..next]
      {
        if !readopen || killed(next) {
          return Returned(-1), next;
        }
        CountersRight(Now(), read, written);
        if nwrite == (nread + PIPESIZE) % UINT_RANGE {
          return Asleep, next;
        }
        PutCarries(Now(), read, written, src[next]);
        data[nwrite % PIPESIZE] := src[next];
        nwrite := (nwrite + 1) % UINT_RANGE;
        written := written + [src[next]];
        assert src[i..next + 1] == src[i..next] + [src[next]];
        next := next + 1;
      }
      return Returned(next), next;
    }

    /** piperead of up to `n` bytes: it sleeps while there are none and someone may still write. */
    method Read(n: int, killed: bool) returns (r: Outcome, dst: seq<byte>)
      requires Valid()
      modifies this`nread, this`read
      ensures Valid() && read == old(read) + dst
      ensures match r
              case Asleep => dst == [] && old(read) == written && writeopen && !killed
              case Returned(k) =>
                if k < 0 then k == -1 && dst == [] && old(read) == written && writeopen && killed
                else k == |dst| == if n < 0 then 0 else if n < |written| - |old(read)| then n
                                   else |written| - |old(read)|
      ensures old(read) + dst <= written
    {
      dst := [];
      CountersRight(Now(), read, written);
      if nread == nwrite && writeopen {
        r := if killed then Returned(-1) else Asleep;
        return;
      }
      while |dst| < n
        invariant Valid() && read == old(read) + dst && (|dst| <= n || dst == [])
        decreases n - |dst|
      {
        CountersRight(Now(), read, written);
        if nread == nwrite {
          break;
        }
        TakeCarries(Now(), read, written);
        var ch := data[nread % PIPESIZE];
        nread := (nread + 1) % UINT_RANGE;
        read := read + [ch];
        dst := dst + [ch];
      }
      return Returned(|dst|), dst;
    }

    /** pipeclose; true when both ends are closed and the pipe is freed. */
    method Close(writable: bool) returns (freed: bool)
      modifies this`readopen, this`writeopen
      ensures writeopen == (old(writeopen) && !writable) && readopen == (old(readopen) && writable)
      ensures freed <==> !readopen && !writeopen
    {
      if writable {
        writeopen := false;
      } else {
        readopen := false;
      }
      freed := !readopen && !writeopen;
    }

    /** The last writer closes its end, and a reader reads on until it gets nothing. It
        gets all that was left in the pipe, and neither sleeps nor fails on the way. */
    method CloseAndDrain(n: nat) returns (rest: seq<byte>, freed: bool)
      requires Valid() && n > 0
      modifies this`readopen, this`writeopen, this`nread, this`read
      ensures Valid() && !writeopen && readopen == old(readopen) && (freed <==> !readopen)
      ensures read == written && old(read) + rest == written
    {
      freed := Close(true);
      rest := [];
      while true
        invariant Valid() && !writeopen && readopen == old(readopen) && read == old(read) + rest && read <= written
        decreases |written| - |read|
      {
        var r, dst := Read(n, false);
        assert r.Returned?;
        if dst == [] {
          break;
        }
        rest := rest + dst;
      }
    }
  }
}
