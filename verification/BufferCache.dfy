/** The buffer cache: NBUF buffers on an LRU ring over one disk.

    Claim, Lock, Fill, Bwrite, Releasesleep, Drop, Bpin and Bunpin are each one step of one process, so
    a sequence of them is an interleaving. A buffer's sleep-lock is its `locked`/`pid` pair;
    `users` holds the processes whose gets are not yet released and `pins` the log's pins. */
module BufferCache {
  import opened Blocks
  import opened Counting
  import opened LruRing
  import opened CrashRecovery

  const ROOTDEV := 1

  datatype Buf = Buf(dev: nat, blockno: nat, valid: bool, refcnt: nat, locked: bool, pid: nat, data: Block)

  ghost predicate BufOk(b: Buf, users: multiset<nat>, pins: nat, disk: Disk, view: Disk) {
    && b.refcnt == |users| + pins
    && (b.locked ==> b.pid in users)
    && (b.dev == 0 ==> b.refcnt == 0 && !b.valid)
    && (b.dev != 0 ==> b.dev == ROOTDEV && b.blockno < |disk| == |view|)
    && (b.dev != 0 && b.valid ==> b.data == view[b.blockno])
    // an unreferenced copy is a clean copy, so recycling it loses nothing
    && (b.dev != 0 && b.valid && b.refcnt == 0 ==> b.data == disk[b.blockno])
  }

  /** Buffer b is claimed for block k. */
  ghost predicate Names(b: Buf, k: nat) {
    b.dev != 0 && b.blockno == k
  }

  /** Process q holds the sleep-lock of buffer b. */
  predicate Holds(b: Buf, q: nat) {
    b.dev != 0 && b.locked && b.pid == q
  }

  /** What a step of another process leaves to process q of one buffer: its claims, the block
      it claimed the buffer for, and everything about a buffer it holds. */
  ghost predicate KeptAt(b0: Buf, u0: multiset<nat>, b1: Buf, u1: multiset<nat>, q: nat) {
    && u1[q] == u0[q]
    && (q in u0 ==> b1.dev == b0.dev && b1.blockno == b0.blockno)
    && (Holds(b0, q) ==> b1 == b0.(refcnt := b1.refcnt))
    && (Holds(b1, q) ==> Holds(b0, q))
  }

  ghost predicate Kept(buf0: seq<Buf>, users0: seq<multiset<nat>>, buf1: seq<Buf>, users1: seq<multiset<nat>>, q: nat) {
    && |buf0| == |users0| == |buf1| == |users1| == NBUF
    && forall i :: 0 <= i < NBUF ==> KeptAt(buf0[i], users0[i], buf1[i], users1[i], q)
  }

  /** A step of process pid on one buffer, seen by every other process. */
  lemma StepKept(buf0: seq<Buf>, users0: seq<multiset<nat>>, buf1: seq<Buf>, users1: seq<multiset<nat>>, i: nat,
                 pid: nat)
    requires |buf0| == |users0| == |buf1| == |users1| == NBUF && i < NBUF
    requires buf1 == buf0[i := buf1[i]] && users1 == users0[i := users1[i]]
    requires forall q :: q != pid ==> KeptAt(buf0[i], users0[i], buf1[i], users1[i], q)
    ensures forall q :: q != pid ==> Kept(buf0, users0, buf1, users1, q)
  {
  }

  /** The ring is a circular permutation of all NBUF buffers. */
  ghost predicate RingOk(order: seq<nat>, next: seq<nat>, prev: seq<nat>) {
    && |order| == NBUF && Ring(order, next, prev)
    && forall i :: 0 <= i < NBUF ==> i in order
  }

  /** At most one buffer is claimed for a block, and `at` says which. */
  ghost predicate IndexOk(buf: seq<Buf>, at: seq<int>, blocks: nat) {
    && |at| == blocks && |buf| == NBUF
    && (forall k :: 0 <= k < |at| ==> at[k] == -1 || (0 <= at[k] < NBUF && Names(buf[at[k]], k)))
    && (forall i :: 0 <= i < NBUF && buf[i].dev != 0 ==> buf[i].blockno < |at| && at[buf[i].blockno] == i)
  }

  /** A block is newest in its valid buffer if it has one, on disk otherwise. */
  ghost predicate ViewOk(buf: seq<Buf>, at: seq<int>, disk: Disk, view: Disk) {
    && |view| == |disk| == |at| && |buf| == NBUF
    && forall k :: 0 <= k < |at| ==>
         (at[k] == -1 || (0 <= at[k] < NBUF && !buf[at[k]].valid) ==> view[k] == disk[k])
  }

  ghost predicate BufsOk(buf: seq<Buf>, users: seq<multiset<nat>>, pins: seq<nat>, disk: Disk, view: Disk) {
    && |buf| == |users| == |pins| == NBUF
    && forall i :: 0 <= i < NBUF ==> BufOk(buf[i], users[i], pins[i], disk, view)
  }

  ghost predicate HistoryOk(boot: Disk, writes: seq<Write>, disk: Disk) {
    (forall w :: w in writes ==> w.bno < |boot|) && disk == Apply(boot, writes)
  }

  lemma HistoryExtends(boot: Disk, writes: seq<Write>, disk: Disk, w: Write)
    requires HistoryOk(boot, writes, disk) && w.bno < |disk|
    ensures HistoryOk(boot, writes + [w], disk[w.bno := w.data])
  {
    assert (writes + [w])[..|writes|] == writes;
  }

  /** The history since some earlier point carries the disk from there to here. */
  lemma HistorySince(boot: Disk, before: seq<Write>, was: Disk, more: seq<Write>, now: Disk)
    requires HistoryOk(boot, before, was) && HistoryOk(boot, before + more, now)
    ensures (forall w :: w in more ==> w.bno < |was|) && now == Apply(was, more)
  {
    ApplyConcat(boot, before, more);
  }

  /** Writing a buffer's contents home makes it clean and disturbs no other copy. */
  lemma WriteKeeps(buf: seq<Buf>, users: seq<multiset<nat>>, pins: seq<nat>, at: seq<int>, disk: Disk, view: Disk,
                   i: nat)
    requires IndexOk(buf, at, |disk|) && ViewOk(buf, at, disk, view) && BufsOk(buf, users, pins, disk, view)
    requires i < NBUF && buf[i].dev != 0 && buf[i].valid
    ensures var d := disk[buf[i].blockno := buf[i].data];
            ViewOk(buf, at, d, view) && BufsOk(buf, users, pins, d, view)
  {
    var k := buf[i].blockno;
    var d := disk[k := buf[i].data];
    forall j | 0 <= j < NBUF ensures BufOk(buf[j], users[j], pins[j], d, view) {
      if buf[j].dev != 0 && j != i { assert buf[j].blockno != k; }
    }
  }

  /** The index after buffer u is re-keyed to a block no buffer was claimed for. */
  ghost function Rekeyed(buf: seq<Buf>, at: seq<int>, u: nat, k: nat): (r: seq<int>)
    requires u < |buf| && (buf[u].dev != 0 ==> buf[u].blockno < |at|) && k < |at|
  {
    (if buf[u].dev != 0 then at[buf[u].blockno := -1] else at)[k := u]
  }

  /** Re-keying an unreferenced buffer changes no block's newest version. */
  lemma RekeyKeeps(buf: seq<Buf>, users: seq<multiset<nat>>, pins: seq<nat>, at: seq<int>, disk: Disk, view: Disk,
                   u: nat, k: nat, pid: nat)
    requires IndexOk(buf, at, |disk|) && ViewOk(buf, at, disk, view) && BufsOk(buf, users, pins, disk, view)
    requires u < NBUF && buf[u].refcnt == 0 && k < |disk|
    requires forall i :: 0 <= i < NBUF ==> !Names(buf[i], k)
    ensures var b := buf[u := buf[u].(dev := ROOTDEV, blockno := k, valid := false, refcnt := 1)];
            var a := Rekeyed(buf, at, u, k);
            IndexOk(b, a, |disk|) && ViewOk(b, a, disk, view) && BufsOk(b, users[u := multiset{pid}], pins, disk, view)
  {
    assert at[k] == -1;
  }

  class Bcache {
    var buf: seq<Buf>
    var prev: seq<nat>
    var next: seq<nat>
    var disk: Disk
    var users: seq<multiset<nat>>   // the processes between their bget and brelse of each buffer

    ghost var order: seq<nat>   // the buffers, most recently used first
    ghost var pins: seq<nat>
    ghost var at: seq<int>      // the buffer claimed for each block, or -1
    ghost var view: Disk        // the newest version of each block
    ghost const boot: Disk
    ghost var writes: seq<Write>

    ghost predicate Valid()
      reads this
      ensures Valid() ==> |buf| == |users| == |pins| == NBUF && |view| == |disk|
    {
      && RingOk(order, next, prev)
      && IndexOk(buf, at, |disk|)
      && ViewOk(buf, at, disk, view)
      && BufsOk(buf, users, pins, disk, view)
      && HistoryOk(boot, writes, disk)
    }

    /** No two claimed buffers hold the same block. */
    lemma OneBufferPerBlock(i: nat, j: nat)
      requires Valid() && i < NBUF && j < NBUF && buf[i].dev != 0 && buf[j].dev != 0
      requires buf[i].blockno == buf[j].blockno
      ensures i == j
    {
      assert at[buf[i].blockno] == i && at[buf[j].blockno] == j;
    }

    /** binit: the NBUF static buffers, pushed one by one onto an empty ring. */
    constructor (d: Disk)
      ensures Valid() && disk == d && view == d && boot == d && writes == []
      ensures forall i :: 0 <= i < NBUF ==> buf[i].dev == 0 && users[i] == multiset{} && pins[i] == 0
    {
      disk, boot, writes := d, d, [];
      view, at := d, seq(|d|, _ => -1);
      buf := seq(NBUF, _ => Buf(0, 0, false, 0, false, 0, ZERO_BLOCK));
      users, pins := seq(NBUF, _ => multiset{}), seq(NBUF, _ => 0);
      next, prev := seq(NBUF + 1, _ => HEAD), seq(NBUF + 1, _ => HEAD);
      order := [];
      new;
      LinkAll();
    }

    /** The loop of binit: each buffer in turn is pushed onto the ring. */
    method LinkAll()
      requires order == [] && |next| == |prev| == NBUF + 1 && next[HEAD] == prev[HEAD] == HEAD
      modifies this`next, this`prev, this`order
      ensures RingOk(order, next, prev)
    {
      assert At(order, 0) == HEAD;
      for b := 0 to NBUF
        invariant |order| == b && Ring(order, next, prev)
        invariant forall i :: 0 <= i < b ==> i in order
        invariant forall i :: 0 <= i < |order| ==> order[i] < b
      {
        PushFront(order, next, prev, b);
        var first := next[HEAD];
        next := next[b := first];
        prev := prev[b := HEAD];
        prev := prev[first := b];
        next := next[HEAD := b];
        order := [b] + order;
      }
    }

    /** First loop of bget: the block's buffer, or -1 if it is not cached. */
    method FindCached(dev: nat, blockno: nat) returns (r: int)
      requires Valid() && dev == ROOTDEV
      ensures -1 <= r < NBUF
      ensures r >= 0 ==> Names(buf[r], blockno)
      ensures r == -1 ==> forall i :: 0 <= i < NBUF ==> !Names(buf[i], blockno)
    {
      r := next[HEAD];
      ghost var i := 0;
      assert At(order, 0) == HEAD;
      while r != HEAD && !(buf[r].dev == dev && buf[r].blockno == blockno)
        invariant 0 <= i <= NBUF && r == At(order, i + 1)
        invariant forall j :: 0 <= j < i ==> !Names(buf[order[j]], blockno)
        decreases NBUF - i
      {
        r := next[r];
        i := i + 1;
      }
      if r == HEAD {
        r := -1;
        forall x | 0 <= x < NBUF ensures !Names(buf[x], blockno) {
          assert x in order;
        }
      }
    }

    /** Second loop of bget: the least recently used buffer nobody references, or -1. */
    method FindUnused() returns (r: int)
      requires Valid()
      ensures -1 <= r < NBUF
      ensures r >= 0 ==> buf[r].refcnt == 0
      ensures r >= 0 ==> forall j :: 0 <= j < NBUF && order[j] == r ==>
                             forall m :: j < m < NBUF ==> buf[order[m]].refcnt > 0
      ensures r == -1 ==> forall i :: 0 <= i < NBUF ==> buf[i].refcnt > 0
    {
      r := prev[HEAD];
      ghost var i := NBUF;
      assert At(order, NBUF + 1) == HEAD;
      while r != HEAD && buf[r].refcnt != 0
        invariant 0 <= i <= NBUF && r == At(order, i)
        invariant forall j :: i <= j < NBUF ==> buf[order[j]].refcnt > 0
        decreases i
      {
        r := prev[r];
        i := i - 1;
      }
      if r == HEAD {
        r := -1;
        forall x | 0 <= x < NBUF ensures buf[x].refcnt > 0 {
          assert x in order;
        }
      }
    }

    /** The block is cached: one more reference to its buffer. */
    method Refer(r: nat, pid: nat)
      requires Valid() && r < NBUF && buf[r].dev != 0
      modifies this`buf, this`users
      ensures Valid() && buf == old(buf)[r := old(buf[r]).(refcnt := old(buf[r].refcnt) + 1)]
      ensures users == old(users)[r := old(users[r]) + multiset{pid}]
      ensures forall q :: q != pid ==> Kept(old(buf), old(users), buf, users, q)
    {
      hide RingOk, HistoryOk, Kept;
      buf := buf[r := buf[r].(refcnt := buf[r].refcnt + 1)];
      users := users[r := users[r] + multiset{pid}];
      StepKept(old(buf), old(users), buf, users, r, pid);
    }

    /** Re-key an unreferenced buffer. Its old contents are clean, so no block's newest version changes. */
    method Recycle(u: nat, dev: nat, blockno: nat, pid: nat)
      requires Valid() && dev == ROOTDEV && blockno < |disk| && u < NBUF && buf[u].refcnt == 0
      requires forall i :: 0 <= i < NBUF ==> !Names(buf[i], blockno)
      modifies this`buf, this`users, this`at
      ensures Valid()
      ensures buf == old(buf)[u := old(buf[u]).(dev := dev, blockno := blockno, valid := false, refcnt := 1)]
      ensures users == old(users)[u := old(users[u]) + multiset{pid}] && pins[u] == 0 && !buf[u].locked
      ensures forall q :: q != pid ==> Kept(old(buf), old(users), buf, users, q)
    {
      hide RingOk, HistoryOk, Kept, ViewOk;
      assert |users[u]| == 0 && pins[u] == 0 && !buf[u].locked;
      assert old(users[u]) + multiset{pid} == multiset{pid};
      RekeyKeeps(buf, users, pins, at, disk, view, u, blockno, pid);
      at := Rekeyed(buf, at, u, blockno);
      buf := buf[u := buf[u].(dev := dev, blockno := blockno, valid := false, refcnt := 1)];
      users := users[u := multiset{pid}];
      assert users == old(users)[u := old(users[u]) + multiset{pid}];
      StepKept(old(buf), old(users), buf, users, u, pid);
    }

    /** bget, up to the release of bcache.lock: find the block's buffer or recycle the least
        recently used unreferenced one. -1 is the "no buffers" panic. */
    method Claim(dev: nat, blockno: nat, pid: nat) returns (r: int)
      requires Valid() && dev == ROOTDEV && blockno < |disk|
      modifies this`buf, this`users, this`at
      ensures Valid()
      ensures -1 <= r < NBUF
      ensures r == -1 <==> (forall i :: 0 <= i < NBUF ==> !Names(old(buf[i]), blockno) && old(buf[i]).refcnt > 0)
      ensures r == -1 ==> buf == old(buf) && users == old(users) && at == old(at)
      ensures r >= 0 ==> Names(buf[r], blockno) && users == old(users)[r := old(users[r]) + multiset{pid}]
      ensures forall i :: 0 <= i < NBUF && i != r ==> buf[i] == old(buf[i])
      ensures r >= 0 && Names(old(buf[r]), blockno) ==>
                buf[r] == old(buf[r]).(refcnt := old(buf[r].refcnt) + 1) && at == old(at)
      ensures r >= 0 && !Names(old(buf[r]), blockno) ==>
                && (forall i :: 0 <= i < NBUF ==> !Names(old(buf[i]), blockno))
                && old(buf[r]).refcnt == 0 && pins[r] == 0 && !buf[r].valid && !buf[r].locked
                && forall j :: 0 <= j < NBUF && order[j] == r ==>
                     forall m :: j < m < NBUF ==> old(buf[order[m]].refcnt) > 0
      ensures forall q :: q != pid ==> Kept(old(buf), old(users), buf, users, q)
    {
      hide RingOk, HistoryOk, Kept, ViewOk, BufsOk;
      r := FindCached(dev, blockno);
      if r >= 0 {
        Refer(r, pid);
      } else {
        r := FindUnused();
        if r >= 0 {
          Recycle(r, dev, blockno, pid);
        } else {
          StepKept(buf, users, buf, users, 0, pid);
        }
      }
    }

    /** acquiresleep by a process that has claimed the buffer. False means that another process
        holds the lock: the caller sleeps and tries again. */
    method Lock(i: nat, pid: nat) returns (granted: bool)
      requires Valid() && i < NBUF && pid in users[i]
      modifies this`buf
      ensures Valid() && granted == !old(buf[i].locked)
      ensures buf == if granted then old(buf)[i := old(buf[i]).(locked := true, pid := pid)] else old(buf)
      ensures forall q :: q != pid ==> Kept(old(buf), old(users), buf, users, q)
    {
      granted := !buf[i].locked;
      if granted {
        buf := buf[i := buf[i].(locked := true, pid := pid)];
      }
    }

    /** The rest of bread: read the block from disk unless the copy is valid. */
    method Fill(i: nat, pid: nat)
      requires Valid() && i < NBUF && Holds(buf[i], pid)
      modifies this`buf
      ensures Valid() && buf[i].valid && buf == old(buf)[i := old(buf[i]).(valid := true, data := buf[i].data)]
      ensures buf[i].data == view[buf[i].blockno]
      ensures forall q :: q != pid ==> Kept(old(buf), old(users), buf, users, q)
    {
      if !buf[i].valid {
        buf := buf[i := buf[i].(data := disk[buf[i].blockno], valid := true)];
      }
    }

    /** bread: claim, lock, fill. Not granted leaves the caller waiting for the lock with its claim. */
    method Bread(dev: nat, blockno: nat, pid: nat) returns (r: int, granted: bool)
      requires Valid() && dev == ROOTDEV && blockno < |disk|
      modifies this`buf, this`users, this`at
      ensures Valid() && -1 <= r < NBUF
      ensures r == -1 <==> (forall i :: 0 <= i < NBUF ==> !Names(old(buf[i]), blockno) && old(buf[i]).refcnt > 0)
      ensures granted <==> r >= 0 && (Names(old(buf[r]), blockno) ==> !old(buf[r].locked))
      ensures r >= 0 ==> Names(buf[r], blockno) && users == old(users)[r := old(users[r]) + multiset{pid}]
      ensures granted ==> Holds(buf[r], pid) && buf[r].valid && buf[r].data == view[blockno]
      ensures forall i :: 0 <= i < NBUF && i != r ==> buf[i] == old(buf[i])
      ensures r >= 0 && !Names(old(buf[r]), blockno) ==>
                old(buf[r]).refcnt == 0 && forall i :: 0 <= i < NBUF ==> !Names(old(buf[i]), blockno)
    {
      hide RingOk, HistoryOk, ViewOk, Kept;
      r := Claim(dev, blockno, pid);
      granted := false;
      if r >= 0 {
        granted := Lock(r, pid);
        if granted {
          Fill(r, pid);
        }
      }
    }

    /** The lock holder's assignments to b->data. */
    method SetData(i: nat, d: Block, pid: nat)
      requires Valid() && i < NBUF && Holds(buf[i], pid) && buf[i].valid
      modifies this`buf, this`view
      ensures Valid() && buf == old(buf)[i := old(buf[i]).(data := d)]
      ensures view == old(view)[buf[i].blockno := d]
      ensures forall q :: q != pid ==> Kept(old(buf), old(users), buf, users, q)
    {
      hide RingOk, HistoryOk;
      buf := buf[i := buf[i].(data := d)];
      view := view[buf[i].blockno := d];
    }

    /** bwrite: the one place a block reaches the disk. */
    method Bwrite(i: nat, pid: nat)
      requires Valid() && i < NBUF && Holds(buf[i], pid) && buf[i].valid
      modifies this`disk, this`writes
      ensures Valid() && disk == old(disk)[buf[i].blockno := buf[i].data]
      ensures writes == old(writes) + [Write(buf[i].blockno, buf[i].data)]
    {
      WriteKeeps(buf, users, pins, at, disk, view, i);
      HistoryExtends(boot, writes, disk, Write(buf[i].blockno, buf[i].data));
      disk := disk[buf[i].blockno := buf[i].data];
      writes := writes + [Write(buf[i].blockno, buf[i].data)];
    }

    /** brelse where nobody else takes a step between its two critical sections. */
    method Brelse(i: nat, pid: nat)
      requires Valid() && i < NBUF && Holds(buf[i], pid)
      requires buf[i].valid && buf[i].refcnt == 1 ==> buf[i].data == disk[buf[i].blockno]
      modifies this`buf, this`users, this`prev, this`next, this`order
      ensures Valid()
      ensures buf == old(buf)[i := old(buf[i]).(refcnt := old(buf[i].refcnt) - 1, locked := false, pid := 0)]
      ensures users == old(users)[i := old(users[i]) - multiset{pid}]
      ensures buf[i].refcnt == 0 ==> order[0] == i
      ensures buf[i].refcnt > 0 ==> order == old(order)
      ensures forall x, y :: x != i && y != i ==> (Before(order, x, y) <==> Before(old(order), x, y))
    {
      hide RingOk, HistoryOk, Kept, Before, ViewOk, BufsOk;
      Releasesleep(i, pid);
      Drop(i, pid);
    }

    /** releasesleep, the first half of brelse. The claim stays; a waiter takes the lock in its own step. */
    method Releasesleep(i: nat, pid: nat)
      requires Valid() && i < NBUF && Holds(buf[i], pid)
      modifies this`buf
      ensures Valid() && pid in users[i] && buf == old(buf)[i := old(buf[i]).(locked := false, pid := 0)]
      ensures forall q :: q != pid ==> Kept(old(buf), old(users), buf, users, q)
    {
      hide RingOk, HistoryOk, Kept;
      buf := buf[i := buf[i].(locked := false, pid := 0)];
      StepKept(old(buf), old(users), buf, users, i, pid);
    }

    /** The second half of brelse, under bcache.lock. By now another process may hold the buffer's lock.
        A holder that changed the data has written it or had it pinned by the log. */
    method Drop(i: nat, pid: nat)
      requires Valid() && i < NBUF && pid in users[i] && !Holds(buf[i], pid)
      requires buf[i].valid && buf[i].refcnt == 1 ==> buf[i].data == disk[buf[i].blockno]
      modifies this`buf, this`users, this`prev, this`next, this`order
      ensures Valid() && old(buf[i].refcnt) > 0
      ensures buf == old(buf)[i := old(buf[i]).(refcnt := old(buf[i].refcnt) - 1)]
      ensures users == old(users)[i := old(users[i]) - multiset{pid}]
      ensures forall q :: q != pid ==> Kept(old(buf), old(users), buf, users, q)
      ensures buf[i].refcnt == 0 ==> order[0] == i
      ensures buf[i].refcnt > 0 ==> order == old(order)
      ensures forall x, y :: x != i && y != i ==> (Before(order, x, y) <==> Before(old(order), x, y))
    {
      hide RingOk, HistoryOk, Kept, Before, ViewOk, BufsOk;
      Decrement(i, pid);
      if buf[i].refcnt == 0 {
        MoveToFront(i);
      }
    }

    method Decrement(i: nat, pid: nat)
      requires Valid() && i < NBUF && pid in users[i] && !Holds(buf[i], pid)
      requires buf[i].valid && buf[i].refcnt == 1 ==> buf[i].data == disk[buf[i].blockno]
      modifies this`buf, this`users
      ensures Valid() && old(buf[i].refcnt) > 0
      ensures buf == old(buf)[i := old(buf[i]).(refcnt := old(buf[i].refcnt) - 1)]
      ensures users == old(users)[i := old(users[i]) - multiset{pid}]
      ensures forall q :: q != pid ==> Kept(old(buf), old(users), buf, users, q)
    {
      hide RingOk, HistoryOk, Kept;
      buf := buf[i := buf[i].(refcnt := buf[i].refcnt - 1)];
      users := users[i := users[i] - multiset{pid}];
      StepKept(old(buf), old(users), buf, users, i, pid);
    }

    /** The relinking in brelse: out of the ring, then in again right after the head. */
    method MoveToFront(i: nat)
      requires RingOk(order, next, prev) && i < NBUF
      modifies this`prev, this`next, this`order
      ensures RingOk(order, next, prev) && order[0] == i
      ensures forall x, y :: x != i && y != i ==> (Before(order, x, y) <==> Before(old(order), x, y))
    {
      assert i in order;
      ghost var k :| 0 <= k < NBUF && order[k] == i;
      ghost var w := Without(order, k);
      Unlink(order, next, prev, k);
      MoveToFrontKeeps(order, k);
      MoveToFrontOrder(order, k);
      var nx, pv := next[i], prev[i];
      prev := prev[nx := pv];
      next := next[pv := nx];
      PushFront(w, next, prev, i);
      var first := next[HEAD];
      next := next[i := first];
      prev := prev[i := HEAD];
      prev := prev[first := i];
      next := next[HEAD := i];
      order := [i] + w;
    }

    method Bpin(i: nat)
      requires Valid() && i < NBUF && buf[i].dev != 0
      modifies this`buf, this`pins
      ensures Valid() && buf == old(buf)[i := old(buf[i]).(refcnt := old(buf[i].refcnt) + 1)]
      ensures pins == old(pins)[i := old(pins[i]) + 1]
    {
      buf := buf[i := buf[i].(refcnt := buf[i].refcnt + 1)];
      pins := pins[i := pins[i] + 1];
    }

    method Bunpin(i: nat)
      requires Valid() && i < NBUF && pins[i] > 0
      requires buf[i].valid && buf[i].refcnt == 1 ==> buf[i].data == disk[buf[i].blockno]
      modifies this`buf, this`pins
      ensures Valid() && buf == old(buf)[i := old(buf[i]).(refcnt := old(buf[i].refcnt) - 1)]
      ensures pins == old(pins)[i := old(pins[i]) - 1]
    {
      buf := buf[i := buf[i].(refcnt := buf[i].refcnt - 1)];
      pins := pins[i := pins[i] - 1];
    }
  }

  /** x is more recently used than y. */
  ghost predicate Before(order: seq<nat>, x: nat, y: nat) {
    exists i, j :: 0 <= i < j < |order| && order[i] == x && order[j] == y
  }

  lemma MoveToFrontOrder(order: seq<nat>, k: nat)
    requires Distinct(order) && k < |order|
    ensures var o := [order[k]] + Without(order, k);
            forall x, y :: x != order[k] && y != order[k] ==> (Before(o, x, y) <==> Before(order, x, y))
  {
    var o := [order[k]] + Without(order, k);
    forall x, y | x != order[k] && y != order[k]
      ensures Before(o, x, y) <==> Before(order, x, y)
    {
      if i, j :| 0 <= i < j < |order| && order[i] == x && order[j] == y {
        assert o[if i < k then i + 1 else i] == x && o[if j < k then j + 1 else j] == y;
      }
      if i, j :| 0 <= i < j < |o| && o[i] == x && o[j] == y {
        assert order[if i <= k then i - 1 else i] == x && order[if j <= k then j - 1 else j] == y;
      }
    }
  }
}
