/** The pipe's ring of PIPESIZE bytes with its two 32-bit counters. */
module Pipe {
  import opened Blocks
  import opened Counters

  const PIPESIZE := 512

  /** The shared fields of struct pipe. */
  datatype Ring = Ring(data: seq<Byte>, nread: nat, nwrite: nat, readopen: bool, writeopen: bool)

  predicate Empty(d: Ring) {
    d.nread == d.nwrite
  }

  /** nwrite == nread + PIPESIZE in 32-bit arithmetic. */
  predicate Full(d: Ring) {
    d.nwrite == Plus(d.nread, PIPESIZE)
  }

  function Put(d: Ring, ch: Byte): (r: Ring)
    requires |d.data| == PIPESIZE
  {
    d.(data := d.data[d.nwrite % PIPESIZE := ch], nwrite := Plus(d.nwrite, 1))
  }

  function Take(d: Ring): (r: Ring) {
    d.(nread := Plus(d.nread, 1))
  }

  /** The slot of the byte k places after position n. */
  function Slot(n: nat, k: nat): (i: nat)
    ensures i < PIPESIZE
  {
    (n + k) % PIPESIZE
  }

  /** Everything sent and not yet received is in the ring, in order. */
  ghost predicate Fifo(d: Ring, sent: seq<Byte>, received: seq<Byte>) {
    && |d.data| == PIPESIZE && d.nread < WRAP && d.nwrite < WRAP
    && |received| <= |sent| <= |received| + PIPESIZE && received == sent[..|received|]
    && d.nwrite == Plus(d.nread, |sent| - |received|)
    && forall k :: 0 <= k < |sent| - |received| ==> d.data[Slot(d.nread, k)] == sent[|received| + k]
  }

  /** The tests in the code see exactly an empty and a full ring, wrapped counters or not. */
  lemma TestsAreExact(d: Ring, sent: seq<Byte>, received: seq<Byte>)
    requires Fifo(d, sent, received)
    ensures Empty(d) <==> |sent| == |received|
    ensures Full(d) <==> |sent| == |received| + PIPESIZE
  {
    hide Plus;
    var n: nat := |sent| - |received|;
    PlusZero(d.nread);
    PlusInjective(d.nread, n, 0);
    PlusInjective(d.nread, n, PIPESIZE);
  }

  lemma SlotOfCounter(c: nat, n: nat)
    ensures Plus(c, n) % PIPESIZE == Slot(c, n)
  {
    hide Plus;
    var q := PlusIs(c, n);
    Remainder512(c + n, Plus(c, n), q);
  }

  lemma DifferentSlots(base: nat, j: nat, k: nat)
    requires j < k < j + PIPESIZE
    ensures Slot(base, j) != Slot(base, k)
  {
  }

  lemma NextSlot(n: nat, k: nat)
    ensures Slot(Plus(n, 1), k) == Slot(n, k + 1)
  {
    hide Plus;
    var q := PlusIs(n, 1);
    Remainder512(n + 1 + k, Plus(n, 1) + k, q);
  }

  lemma PutKeepsFifo(d: Ring, sent: seq<Byte>, received: seq<Byte>, ch: Byte)
    requires Fifo(d, sent, received) && !Full(d)
    ensures Fifo(Put(d, ch), sent + [ch], received)
  {
    hide Plus, Slot;
    var n: nat := |sent| - |received|;
    TestsAreExact(d, sent, received);
    SlotOfCounter(d.nread, n);
    PlusPlus(d.nread, n, 1);
    var r := Put(d, ch);
    forall k: nat | 0 <= k < n + 1 ensures r.data[Slot(r.nread, k)] == (sent + [ch])[|received| + k] {
      if k < n {
        DifferentSlots(d.nread, k, n);
        assert d.data[Slot(d.nread, k)] == sent[|received| + k];
      }
    }
  }

  lemma TakeKeepsFifo(d: Ring, sent: seq<Byte>, received: seq<Byte>)
    requires Fifo(d, sent, received) && !Empty(d)
    ensures |received| < |sent| && d.data[d.nread % PIPESIZE] == sent[|received|]
    ensures Fifo(Take(d), sent, received + [d.data[d.nread % PIPESIZE]])
  {
    hide Plus, Slot;
    var n: nat := |sent| - |received|;
    TestsAreExact(d, sent, received);
    PlusZero(d.nread);
    SlotOfCounter(d.nread, 0);
    assert d.data[Slot(d.nread, 0)] == sent[|received|];
    assert sent[..|received| + 1] == received + [sent[|received|]];
    PlusPlus(d.nread, 1, n - 1);
    var r := Take(d);
    forall k: nat | 0 <= k < n - 1 ensures r.data[Slot(r.nread, k)] == sent[|received| + 1 + k] {
      NextSlot(d.nread, k);
      assert d.data[Slot(d.nread, k + 1)] == sent[|received| + (k + 1)];
    }
  }

  lemma FifoSizes(d: Ring, sent: seq<Byte>, received: seq<Byte>)
    requires Fifo(d, sent, received)
    ensures |d.data| == PIPESIZE && |received| <= |sent|
  {
  }

  /** What the loop of pipewrite stopped at. */
  datatype Stop = AllWritten | NoReader | RingFull | CopyFailed

  class Buffer {
    const data: array<Byte>
    var nread: nat
    var nwrite: nat
    var readopen: bool
    var writeopen: bool
    ghost var sent: seq<Byte>
    ghost var received: seq<Byte>

    ghost function Now(): (d: Ring)
      reads this, data
    {
      Ring(data[..], nread, nwrite, readopen, writeopen)
    }

    ghost predicate Valid()
      reads this, data
    {
      Fifo(Now(), sent, received)
    }

    constructor ()
      ensures Valid() && readopen && writeopen && sent == [] && received == [] && fresh(data)
    {
      data := new Byte[PIPESIZE](_ => 0);
      nread, nwrite, readopen, writeopen := 0, 0, true, true;
      sent, received := [], [];
    }

    /** The loop of pipewrite between two sleeps: bytes go in while there is room. It stops short
        only without a reader, with a full ring, or when a byte cannot be fetched. */
    method Write(src: seq<Byte>, from: nat, fails: nat -> bool) returns (i: nat, why: Stop)
      requires Valid() && from <= |src|
      modifies this`nwrite, this`sent, data
      ensures Valid() && from <= i <= |src| && sent == old(sent) + src[from..i]
      ensures match why
              case AllWritten => i == |src|
              case NoReader => i < |src| && !readopen
              case RingFull => i < |src| && |sent| == |received| + PIPESIZE
              case CopyFailed => i < |src| && fails(i)
    {
      hide Plus, Fifo;
      FifoSizes(Now(), sent, received);
      i := from;
      while i < |src|
        modifies this`nwrite, this`sent, data
        invariant Valid() && from <= i <= |src| && sent == old(sent) + src[from..i] && data.Length == PIPESIZE
      {
        if !readopen {
          return i, NoReader;
        }
        TestsAreExact(Now(), sent, received);
        if nwrite == Plus(nread, PIPESIZE) {
          return i, RingFull;
        }
        if fails(i) {
          return i, CopyFailed;
        }
        PutKeepsFifo(Now(), sent, received, src[i]);
        ghost var was := Now();
        data[nwrite % PIPESIZE] := src[i];
        nwrite := Plus(nwrite, 1);
        assert Now() == Put(was, src[i]);
        sent := sent + [src[i]];
        i := i + 1;
      }
      why := AllWritten;
    }

    /** The copying loop of piperead: the oldest unread bytes, up to n. The result is their number,
        or -1 if the very first could not be delivered. */
    method Read(n: int, fails: nat -> bool) returns (r: int, dst: seq<Byte>)
      requires Valid()
      modifies this`nread, this`received
      ensures Valid() && received == old(received) + dst
      ensures if r == -1 then dst == [] && 0 < n && fails(0) && |sent| > |received| else r == |dst|
      ensures r != -1 && |dst| < n ==> |received| == |sent| || (0 < |dst| && fails(|dst|))
      ensures |dst| <= if n < 0 then 0 else n
    {
      hide Plus, Fifo;
      FifoSizes(Now(), sent, received);
      dst := [];
      r := 0;
      while r < n
        modifies this`nread, this`received
        invariant Valid() && received == old(received) + dst && r == |dst| && data.Length == PIPESIZE
                  && |received| <= |sent|
        invariant |dst| <= if n < 0 then 0 else n
      {
        TestsAreExact(Now(), sent, received);
        if nread == nwrite {
          return;
        }
        var ch := data[nread % PIPESIZE];
        if fails(r) {
          if r == 0 {
            r := -1;
          }
          return;
        }
        TakeKeepsFifo(Now(), sent, received);
        ghost var was := Now();
        nread := Plus(nread, 1);
        assert Now() == Take(was);
        received := received + [ch];
        dst := dst + [ch];
        r := r + 1;
      }
    }
  }
}
