/** The console's input line discipline: a ring of 128 bytes with read, write and edit counters of 32 bits. */
module ConsoleInput {
  import opened Blocks
  import opened Counters
  import opened ProxyFrames

  const SIZE := 128
  const CTRL_D: Byte := 4
  const CTRL_H: Byte := 8
  const CTRL_P: Byte := 16
  const CTRL_U: Byte := 21
  const DEL: Byte := 127
  const CR: Byte := 13

  function Slot(n: nat, k: nat): (i: nat)
    ensures i < SIZE
  {
    (n + k) % SIZE
  }

  /** `pending` is in the ring from r on: the first `ready` bytes may be read, the rest may still be edited. */
  ghost predicate Holds(buf: seq<Byte>, r: nat, w: nat, e: nat, pending: Bytes, ready: nat) {
    && |buf| == SIZE && r < WRAP && ready <= |pending| <= SIZE && w == Plus(r, ready) && e == Plus(r, |pending|)
    && forall k :: 0 <= k < |pending| ==> buf[Slot(r, k)] == pending[k]
  }

  lemma SlotOfCounter(c: nat, n: nat)
    ensures Plus(c, n) % SIZE == Slot(c, n)
  {
    hide Plus;
    var q := PlusIs(c, n);
    Remainder128(c + n, Plus(c, n), q);
  }

  lemma Apart(base: nat, j: nat, k: nat)
    requires j < k < j + SIZE
    ensures Slot(base, j) != Slot(base, k)
  {
  }

  lemma Shifted(n: nat, k: nat)
    ensures Slot(Plus(n, 1), k) == Slot(n, k + 1)
  {
    hide Plus;
    var q := PlusIs(n, 1);
    Remainder128(n + 1 + k, Plus(n, 1) + k, q);
  }

  lemma Added(buf: seq<Byte>, r: nat, w: nat, e: nat, pending: Bytes, ready: nat, c: Byte)
    requires Holds(buf, r, w, e, pending, ready) && |pending| < SIZE
    ensures Holds(buf[e % SIZE := c], r, w, Plus(e, 1), pending + [c], ready)
  {
    hide Plus, Slot;
    var n := |pending|;
    SlotOfCounter(r, n);
    PlusPlus(r, n, 1);
    var buf' := buf[e % SIZE := c];
    forall k: nat | 0 <= k < n + 1 ensures buf'[Slot(r, k)] == (pending + [c])[k] {
      if k < n {
        Apart(r, k, n);
        assert buf[Slot(r, k)] == pending[k];
      }
    }
  }

  lemma Taken(buf: seq<Byte>, r: nat, w: nat, e: nat, pending: Bytes, ready: nat)
    requires Holds(buf, r, w, e, pending, ready) && ready > 0
    ensures buf[r % SIZE] == pending[0] && Holds(buf, Plus(r, 1), w, e, pending[1..], ready - 1)
  {
    hide Plus, Slot;
    PlusZero(r);
    SlotOfCounter(r, 0);
    assert buf[Slot(r, 0)] == pending[0];
    PlusPlus(r, 1, ready - 1);
    PlusPlus(r, 1, |pending| - 1);
    forall k: nat | 0 <= k < |pending| - 1 ensures buf[Slot(Plus(r, 1), k)] == pending[1..][k] {
      Shifted(r, k);
      assert buf[Slot(r, k + 1)] == pending[k + 1];
    }
  }

  lemma Counted(buf: seq<Byte>, r: nat, w: nat, e: nat, pending: Bytes, ready: nat)
    requires Holds(buf, r, w, e, pending, ready)
    ensures |buf| == SIZE && ready <= |pending| <= SIZE && r < WRAP && Distance(r, e) == |pending|
  {
    hide Plus, Distance;
    DistanceIs(r, |pending|);
  }

  lemma AllReady(buf: seq<Byte>, r: nat, w: nat, e: nat, pending: Bytes, ready: nat)
    requires Holds(buf, r, w, e, pending, ready)
    ensures Holds(buf, r, e, e, pending, |pending|)
  {
    hide Plus;
  }

  /** One byte erased from the editable end. */
  lemma Erased(buf: seq<Byte>, r: nat, w: nat, e: nat, pending: Bytes, ready: nat)
    requires Holds(buf, r, w, e, pending, ready)
    ensures e == w <==> |pending| == ready
    ensures |pending| > ready ==> buf[Minus1(e) % SIZE] == pending[|pending| - 1]
                                  && Holds(buf, r, w, Minus1(e), pending[..|pending| - 1], ready)
  {
    hide Plus, Slot, Minus1;
    PlusInjective(r, |pending|, ready);
    if |pending| > ready {
      var n := |pending| - 1;
      PlusBack(r, n + 1);
      SlotOfCounter(r, n);
      assert buf[Slot(r, n)] == pending[n];
    }
  }

  /** What is left after ^U: everything up to the last newline, and at least what may be read. */
  function Killed(pending: Bytes, ready: nat): (r: Bytes)
    requires ready <= |pending|
    ensures ready <= |r| <= |pending| && r == pending[..|r|]
    decreases |pending|
  {
    if |pending| == ready || pending[|pending| - 1] == NL then pending else Killed(pending[..|pending| - 1], ready)
  }

  /** What n erased characters send to the screen: back, blank, back. */
  function Rubout(n: nat): (r: Bytes) {
    if n == 0 then [] else Rubout(n - 1) + [CTRL_H, 32, CTRL_H]
  }

  predicate Ordinary(c: Byte) {
    c != CTRL_P && c != CTRL_U && c != CTRL_H && c != DEL && c != 0
  }

  /** The input line, how much of it may be read, and what an input byte writes back. */
  datatype Input = Input(pending: Bytes, ready: nat, echo: Bytes)

  /** One input byte. An ordinary byte is kept if there is room, and becomes readable with the end of
      its line, with ^D, or when the ring is full; the erase keys take back what may still be edited. */
  function Received(pending: Bytes, ready: nat, c0: Byte): (r: Input)
    requires ready <= |pending|
    ensures ready <= r.ready <= |r.pending| && r.pending[..ready] == pending[..ready]
    ensures |pending| <= SIZE ==> |r.pending| <= SIZE
  {
    if c0 == CTRL_U then
      var left := Killed(pending, ready);
      Input(left, ready, Rubout(|pending| - |left|))
    else if c0 == CTRL_H || c0 == DEL then
      if |pending| > ready then Input(pending[..|pending| - 1], ready, Rubout(1)) else Input(pending, ready, [])
    else if c0 == CTRL_P || c0 == 0 || |pending| >= SIZE then Input(pending, ready, [])
    else
      var c := if c0 == CR then NL else c0;
      var more := pending + [c];
      Input(more, if c == NL || c == CTRL_D || |more| == SIZE then |more| else ready, [c])
  }

  class Console {
    const buf: array<Byte>
    var r: nat
    var w: nat
    var e: nat
    ghost var pending: Bytes
    ghost var ready: nat

    ghost predicate Valid()
      reads this, buf
    {
      Holds(buf[..], r, w, e, pending, ready)
    }

    constructor ()
      ensures Valid() && pending == [] && ready == 0 && fresh(buf)
    {
      buf := new Byte[SIZE](_ => 0);
      r, w, e := 0, 0, 0;
      pending, ready := [], 0;
    }

    /** consoleintr for one input byte; `echo` is what it writes back. */
    method Intr(c0: Byte) returns (echo: Bytes)
      requires Valid()
      modifies this, buf
      ensures Valid() && old(ready) <= |old(pending)|
      ensures Input(pending, ready, echo) == Received(old(pending), old(ready), c0)
    {
      hide Holds, Killed, Distance, Plus;
      echo := [];
      Counted(buf[..], r, w, e, pending, ready);
      if c0 == CTRL_P {
      } else if c0 == CTRL_U {
        echo := KillLine();
      } else if c0 == CTRL_H || c0 == DEL {
        echo := Backspace();
      } else if c0 != 0 && Distance(r, e) < SIZE {
        var c := if c0 == CR then NL else c0;
        echo := [c];
        Store(c);
      }
    }

    /** The byte is stored; the end of a line or a full ring makes everything readable. */
    method Store(c: Byte)
      requires Valid() && |pending| < SIZE
      modifies this, buf
      ensures Valid() && pending == old(pending) + [c]
      ensures ready == if c == NL || c == CTRL_D || |pending| == SIZE then |pending| else old(ready)
    {
      hide Holds, Distance, Plus;
      Added(buf[..], r, w, e, pending, ready, c);
      ghost var was := buf[..];
      Counted(buf[..], r, w, e, pending, ready);
      buf[e % SIZE] := c;
      assert buf[..] == was[e % SIZE := c];
      e := Plus(e, 1);
      pending := pending + [c];
      Counted(buf[..], r, w, e, pending, ready);
      if c == NL || c == CTRL_D || Distance(r, e) == SIZE {
        AllReady(buf[..], r, w, e, pending, ready);
        w := e;
        ready := |pending|;
      }
    }

    method Backspace() returns (echo: Bytes)
      requires Valid()
      modifies this`e, this`pending
      ensures Valid() && pending == if |old(pending)| > ready then old(pending)[..|old(pending)| - 1] else old(pending)
      ensures echo == Rubout(if |old(pending)| > ready then 1 else 0)
    {
      hide Holds, Minus1;
      echo := [];
      Erased(buf[..], r, w, e, pending, ready);
      Counted(buf[..], r, w, e, pending, ready);
      if e != w {
        e := Minus1(e);
        echo := echo + [CTRL_H, 32, CTRL_H];
        pending := pending[..|pending| - 1];
      }
    }

    method KillLine() returns (echo: Bytes)
      requires Valid()
      modifies this`e, this`pending
      ensures Valid() && ready <= |old(pending)| && pending == Killed(old(pending), ready)
      ensures |pending| <= |old(pending)| && echo == Rubout(|old(pending)| - |pending|)
    {
      hide Minus1, Holds;
      echo := [];
      Erased(buf[..], r, w, e, pending, ready);
      Counted(buf[..], r, w, e, pending, ready);
      while e != w && buf[Minus1(e) % SIZE] != NL
        invariant Valid() && ready <= |pending| <= |old(pending)| && buf.Length == SIZE
        invariant Killed(pending, ready) == Killed(old(pending), ready)
        invariant echo == Rubout(|old(pending)| - |pending|)
        invariant e == w <==> |pending| == ready
        invariant |pending| > ready ==> buf[Minus1(e) % SIZE] == pending[|pending| - 1]
        decreases |pending|
      {
        Erased(buf[..], r, w, e, pending, ready);
        e := Minus1(e);
        echo := echo + [CTRL_H, 32, CTRL_H];
        pending := pending[..|pending| - 1];
        Erased(buf[..], r, w, e, pending, ready);
        Counted(buf[..], r, w, e, pending, ready);
      }
    }

    /** consoleread of one byte, once there is something to read: the oldest byte, or end of file for ^D. */
    method ReadOne() returns (n: nat, c: Byte)
      requires Valid() && ready > 0
      modifies this`r, this`pending, this`ready
      ensures Valid() && pending == old(pending)[1..] && ready == old(ready) - 1 && c == old(pending)[0]
      ensures n == if c == CTRL_D then 0 else 1
    {
      hide Holds, Plus;
      Counted(buf[..], r, w, e, pending, ready);
      Taken(buf[..], r, w, e, pending, ready);
      c := buf[r % SIZE];
      r := Plus(r, 1);
      pending, ready := pending[1..], ready - 1;
      n := if c == CTRL_D then 0 else 1;
    }
  }
}
