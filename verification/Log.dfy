/** The redo log over the buffer cache: begin_op, log_write, end_op and the steps of commit.

    Every method of the three groups below is one step of one process and keeps `Inv`, so `Inv`
    holds between any two steps of any interleaving. */
module Log {
  import opened Blocks
  import opened Counting
  import opened LruRing
  import opened CrashRecovery
  import opened BufferCache
  import opened LogSpace
  import opened CommitPhase
  import LogRecovery

  datatype LogWriteResult = LogOk | PanicTooBig | PanicOutside

  ghost predicate Logged(b: Buf, pinned: seq<nat>) {
    b.dev != 0 && b.blockno in pinned
  }

  /** A logged block's buffer is pinned once; any other valid copy is clean unless its holder
      has changed it and not logged it yet. */
  ghost predicate PinOk(b: Buf, pins: nat, pinned: seq<nat>, disk: Disk, dirty: bool) {
    if Logged(b, pinned) then pins == 1
    else pins == 0 && (!dirty && b.dev != 0 && b.valid && b.blockno < |disk| ==> b.data == disk[b.blockno])
  }

  ghost predicate PinsOk(buf: seq<Buf>, pins: seq<nat>, at: seq<int>, disk: Disk, pinned: seq<nat>, dirty: set<nat>) {
    && |buf| == |pins| == NBUF
    && (forall t :: 0 <= t < |pinned| ==>
          pinned[t] < |at| && 0 <= at[pinned[t]] < NBUF && buf[at[pinned[t]]].valid)
    && (forall i :: 0 <= i < NBUF ==> PinOk(buf[i], pins[i], pinned, disk, i in dirty))
  }

  /** Changed, unlogged buffers are locked: home blocks by processes in an operation, log blocks
      by the committer during a commit. */
  ghost predicate DirtyOk(lay: Layout, buf: seq<Buf>, dirty: set<nat>, owner: seq<nat>, committing: bool,
                          committer: nat) {
    && |buf| == NBUF
    && forall i :: i in dirty ==>
         && i < NBUF && buf[i].dev != 0 && buf[i].valid && buf[i].locked
         && (if committing then InLog(lay, buf[i].blockno) && buf[i].pid == committer
             else !InLog(lay, buf[i].blockno) && buf[i].pid in owner)
  }

  ghost predicate Took(used: seq<nat>, took: seq<set<nat>>, blocks: seq<nat>)
    ensures Took(used, took, blocks) ==> |took| == |used|
  {
    && |took| == |used|
    && forall i :: 0 <= i < |used| ==> |took[i]| == used[i] && forall b :: b in took[i] ==> b in blocks
  }

  lemma OneLessTaken(used: seq<nat>, took: seq<set<nat>>, blocks: seq<nat>, op: nat)
    requires Took(used, took, blocks) && op < |used|
    ensures Took(used[..op] + used[op + 1..], took[..op] + took[op + 1..], blocks)
  {
  }

  lemma OneMoreTaken(used: seq<nat>, took: seq<set<nat>>, blocks: seq<nat>,
                     used1: seq<nat>, took1: seq<set<nat>>, blocks1: seq<nat>, op: nat, b: nat)
    requires Took(used, took, blocks) && b !in blocks && blocks1 == blocks + [b] && op < |used|
    requires used1 == used[op := used[op] + 1] && took1 == took[op := took[op] + {b}]
    ensures Took(used1, took1, blocks1)
  {
  }

  /** Process q holds buffer i, valid, for block k with contents d. */
  ghost predicate Mine(buf: seq<Buf>, i: nat, k: nat, d: Block, q: nat) {
    i < |buf| && Holds(buf[i], q) && buf[i].blockno == k && buf[i].valid && buf[i].data == d
  }

  class Log {
    const lay: Layout
    const cache: Bcache
    var n: nat
    var block: seq<nat>
    var outstanding: nat
    var committing: bool
    var dirty: set<nat>         // buffers whose holder has changed them and not yet logged or written them
    ghost var used: seq<nat>    // log slots taken by each open operation
    ghost var took: seq<set<nat>>   // the blocks it took them for
    ghost var owner: seq<nat>   // the process of each open operation
    ghost var committed: Disk   // the home blocks as of the last committed transaction
    ghost var tx: Tx            // the commit under way

    ghost function Blocks(): (r: seq<nat>)
      requires n <= |block|
      reads this
    {
      block[..n]
    }

    /** The blocks whose buffers the log keeps pinned. */
    ghost function Pinned(): (r: seq<nat>)
      reads this
    {
      if committing then (if tx.unpinned <= |tx.blocks| then tx.blocks[tx.unpinned..] else [])
      else if n <= |block| then block[..n] else []
    }

    /** The in-memory header names distinct home blocks. */
    ghost predicate HeaderOk()
      reads this`n, this`block, cache`disk
    {
      && |block| == LOGBLOCKS && n <= LOGBLOCKS
      && Distinct(block[..n])
      && forall t :: 0 <= t < n ==> block[t] < |cache.disk| && block[t] < 0x1_0000_0000 && !InLog(lay, block[t])
    }

    /** Log space is reserved for every open operation. Outside a commit the log on disk is empty
        and the homes are the committed ones; inside, the disk is as far as the commit has got. */
    ghost predicate Core()
      reads this`n, this`block, this`outstanding, this`committing, this`used, this`owner, this`committed, this`tx
      reads cache`disk, cache`view, cache`writes
    {
      && lay.size == LOGBLOCKS && DiskOk(lay, cache.disk) && |cache.view| == |cache.disk|
      && HeaderOk()
      && outstanding == |used| == |owner| && LogSpace.Inv(Space(n, used, committing), MAXOPBLOCKS - 1)
      && if committing then
           && InCommit(lay, tx, cache.disk, cache.view, cache.boot, cache.writes, committed)
           && (n == |tx.blocks| || (n == 0 && tx.done > 2 * |tx.blocks| && tx.unpinned == |tx.blocks|))
           && (tx.done > 2 * |tx.blocks| + 1 ==> n == 0)
           && block[..n] == tx.blocks[..n]
         else
           && (n > 0 ==> outstanding > 0)
           && Word(cache.disk[lay.start], 0) == 0 && SameHomes(lay, cache.disk, committed)
    }

    /** An operation takes one slot for each block that it is the first to log. */
    ghost predicate TookOk()
      reads this`n, this`block, this`used, this`took
    {
      n <= |block| && Took(used, took, block[..n])
    }

    ghost predicate Inv()
      reads this, cache
      ensures Inv() ==> |cache.buf| == |cache.users| == NBUF && |cache.view| == |cache.disk| && n <= |block|
      ensures Inv() ==> |took| == |used| == |owner| == outstanding
    {
      && cache.Valid() && Core() && TookOk()
      && PinsOk(cache.buf, cache.pins, cache.at, cache.disk, Pinned(), dirty)
      && DirtyOk(lay, cache.buf, dirty, owner, committing, tx.pid)
    }

    /** initlog: the cache has not been used yet, and the log on disk is replayed. The disk
        writes are exactly RecoverWrites of what the disk held. */
    constructor (l: Layout, c: Bcache, pid: nat)
      requires c.Valid() && l.size == LOGBLOCKS && Recoverable(l, c.disk)
      requires forall i :: 0 <= i < NBUF ==> c.users[i] == multiset{} && c.pins[i] == 0
      modifies c
      ensures Inv() && lay == l && cache == c && n == 0 && outstanding == 0 && !committing && used == [] && dirty == {}
      ensures c.writes == old(c.writes) + RecoverWrites(l, old(c.disk))
      ensures SameHomes(l, committed, Replayed(l, old(c.disk)))
    {
      hide Bcache.Valid, RecoverWrites, Recoverable;
      lay, cache := l, c;
      outstanding, committing, used, took, owner, dirty := 0, false, [], [], [], {};
      var n0, block0 := LogRecovery.RecoverFromLog(l, c, pid);
      n, block, committed := n0, block0, c.disk;
      tx := Tx(0, [], [], [], [], 0, 0);
      new;
      hide Core;
      CleanPins();
      assert Core();
    }

    lemma CleanPins()
      requires LogRecovery.Clean(lay, cache)
      ensures PinsOk(cache.buf, cache.pins, cache.at, cache.disk, [], {})
    {
    }

    // ---- steps of any process, in or out of an operation, before, during and after a commit ----

    /** bget up to the release of bcache.lock. -1 is the "no buffers" panic. */
    method Get(bno: nat, pid: nat) returns (r: int)
      requires Inv() && bno < |cache.disk|
      modifies cache`buf, cache`users, cache`at
      ensures Inv() && -1 <= r < NBUF
      ensures r == -1 <==> forall i :: 0 <= i < NBUF ==> !Names(old(cache.buf[i]), bno) && old(cache.buf[i]).refcnt > 0
      ensures r == -1 ==> cache.buf == old(cache.buf) && cache.users == old(cache.users)
      ensures r >= 0 ==> && Names(cache.buf[r], bno)
                         && cache.users == old(cache.users)[r := old(cache.users[r]) + multiset{pid}]
      ensures forall i :: 0 <= i < NBUF && i != r ==> cache.buf[i] == old(cache.buf[i])
      ensures r >= 0 && !Names(old(cache.buf[r]), bno) ==> pid !in old(cache.users[r])
      ensures r >= 0 && Holds(cache.buf[r], pid) ==> Holds(old(cache.buf[r]), pid)
      ensures forall q :: q != pid ==> Kept(old(cache.buf), old(cache.users), cache.buf, cache.users, q)
    {
      hide Bcache.Valid, Core, TookOk, PinsOk, DirtyOk, Pinned, Kept;
      CacheFacts(pid);
      r := cache.Claim(ROOTDEV, bno, pid);
      CacheFacts(pid);
      if r >= 0 {
        ClaimKeepsPins(old(cache.buf), old(cache.at), cache.buf, cache.at, cache.pins, cache.disk, Pinned(), dirty, r,
                       bno);
        ClaimKeepsDirty(old(cache.buf), cache.buf, r, bno);
      }
    }

    lemma CacheFacts(pid: nat)
      requires cache.Valid()
      ensures IndexOk(cache.buf, cache.at, |cache.disk|) && |cache.buf| == |cache.users| == |cache.pins| == NBUF
      ensures forall i :: 0 <= i < NBUF && cache.buf[i].refcnt == 0 ==> pid !in cache.users[i] && !cache.buf[i].locked
      ensures forall i :: 0 <= i < NBUF && cache.buf[i].dev != 0 && !cache.buf[i].valid ==>
                cache.buf[i].blockno < |cache.disk|
                && cache.view[cache.buf[i].blockno] == cache.disk[cache.buf[i].blockno]
    {
      hide RingOk, HistoryOk;
      forall i | 0 <= i < NBUF && cache.buf[i].refcnt == 0
        ensures pid !in cache.users[i] && !cache.buf[i].locked
      {
        assert |cache.users[i]| == 0;
      }
    }

    lemma ClaimKeepsDirty(buf0: seq<Buf>, buf1: seq<Buf>, r: nat, bno: nat)
      requires DirtyOk(lay, buf0, dirty, owner, committing, tx.pid) && |buf1| == NBUF && r < NBUF
      requires forall i :: 0 <= i < NBUF && i != r ==> buf1[i] == buf0[i]
      requires if Names(buf0[r], bno) then buf1[r] == buf0[r].(refcnt := buf1[r].refcnt) else !buf0[r].locked
      ensures DirtyOk(lay, buf1, dirty, owner, committing, tx.pid)
    {
    }

    /** acquiresleep. False means that another process holds the buffer: the caller waits. */
    method Acquire(i: nat, pid: nat) returns (granted: bool)
      requires Inv() && i < NBUF && pid in cache.users[i]
      modifies cache`buf
      ensures Inv() && granted == !old(cache.buf[i].locked)
      ensures cache.buf == if granted then old(cache.buf)[i := old(cache.buf[i]).(locked := true, pid := pid)]
                           else old(cache.buf)
      ensures granted ==> Holds(cache.buf[i], pid)
      ensures forall q :: q != pid ==> Kept(old(cache.buf), old(cache.users), cache.buf, cache.users, q)
    {
      hide Bcache.Valid, Core, Kept;
      ClaimedHasBlock(i, pid);
      granted := cache.Lock(i, pid);
    }

    lemma ClaimedHasBlock(i: nat, pid: nat)
      requires cache.Valid() && i < NBUF && pid in cache.users[i]
      ensures cache.buf[i].dev != 0
    {
    }

    /** The rest of bread: the holder sees the newest version of the block. */
    method Load(i: nat, pid: nat)
      requires Inv() && i < NBUF && Holds(cache.buf[i], pid)
      modifies cache`buf
      ensures Inv() && Mine(cache.buf, i, old(cache.buf[i].blockno), cache.view[old(cache.buf[i].blockno)], pid)
      ensures cache.buf == old(cache.buf)[i := old(cache.buf[i]).(valid := true, data := cache.buf[i].data)]
      ensures forall q :: q != pid ==> Kept(old(cache.buf), old(cache.users), cache.buf, cache.users, q)
    {
      hide Bcache.Valid, Core, TookOk, PinsOk, Pinned, Kept;
      BufHeld(i);
      CacheFacts(pid);
      cache.Fill(i, pid);
      CopyKeepsPins(old(cache.buf), cache.buf, cache.pins, cache.at, cache.disk, Pinned(), dirty, dirty, i);
    }

    /** The first half of brelse, for a buffer whose changes, if any, are logged or written. */
    method Unlock(i: nat, pid: nat)
      requires Inv() && i < NBUF && Holds(cache.buf[i], pid) && i !in dirty
      modifies cache`buf
      ensures Inv() && pid in cache.users[i]
      ensures cache.buf == old(cache.buf)[i := old(cache.buf[i]).(locked := false, pid := 0)]
      ensures forall q :: q != pid ==> Kept(old(cache.buf), old(cache.users), cache.buf, cache.users, q)
    {
      hide Bcache.Valid, Core, TookOk, PinsOk, Kept, Pinned;
      cache.Releasesleep(i, pid);
      ReleaseKeepsPins(old(cache.buf), cache.buf, cache.pins, cache.at, cache.disk, Pinned(), dirty, i);
    }

    /** The second half: the claim is given up, whoever holds the buffer by now. */
    method Put(i: nat, pid: nat)
      requires Inv() && i < NBUF && pid in cache.users[i] && !Holds(cache.buf[i], pid)
      modifies cache`buf, cache`users, cache`prev, cache`next, cache`order
      ensures Inv()
      ensures cache.buf == old(cache.buf)[i := old(cache.buf[i]).(refcnt := cache.buf[i].refcnt)]
      ensures cache.users == old(cache.users)[i := old(cache.users[i]) - multiset{pid}]
      ensures forall q :: q != pid ==> Kept(old(cache.buf), old(cache.users), cache.buf, cache.users, q)
    {
      hide Bcache.Valid, Core, TookOk, PinsOk, Kept, Before, Pinned;
      PutFacts(i, pid);
      cache.Drop(i, pid);
      ReleaseKeepsPins(old(cache.buf), cache.buf, cache.pins, cache.at, cache.disk, Pinned(), dirty, i);
    }

    /** The last reference is to a clean copy: nobody holds it, and the log has not pinned it. */
    lemma PutFacts(i: nat, pid: nat)
      requires Inv() && i < NBUF && pid in cache.users[i] && !Holds(cache.buf[i], pid)
      ensures cache.buf[i].blockno < |cache.disk|
      ensures cache.buf[i].valid && cache.buf[i].refcnt == 1 ==> cache.buf[i].data == cache.disk[cache.buf[i].blockno]
    {
      hide RingOk, HistoryOk, ViewOk, Core, TookOk, Pinned;
      assert PinOk(cache.buf[i], cache.pins[i], Pinned(), cache.disk, i in dirty);
      assert BufOk(cache.buf[i], cache.users[i], cache.pins[i], cache.disk, cache.view);
      if cache.buf[i].refcnt == 1 && i in dirty {
        OnlyUser(cache.users[i], pid, cache.buf[i].pid);
      }
    }

    // ---- steps of processes in an operation ----------------------------------------------------

    /** begin_op's test. False means that the caller sleeps and tests again. */
    method BeginOp(pid: nat) returns (started: bool)
      requires Inv()
      modifies this`outstanding, this`used, this`took, this`owner
      ensures Inv()
      ensures started == (!committing && n + (old(outstanding) + 1) * MAXOPBLOCKS <= LOGBLOCKS)
      ensures outstanding == old(outstanding) + if started then 1 else 0
      ensures used == old(used) + if started then [0] else []
      ensures owner == old(owner) + if started then [pid] else []
      ensures took == old(took) + if started then [{}] else []
    {
      hide Bcache.Valid, LogSpace.Inv, PinsOk, HeaderOk, InCommit;
      if committing {
        started := false;
      } else if n + (outstanding + 1) * MAXOPBLOCKS > LOGBLOCKS {
        started := false;
      } else {
        StepKeepsInv(Space(n, used, committing), Begin, MAXOPBLOCKS - 1);
        outstanding := outstanding + 1;
        used := used + [0];
        took := took + [{}];
        owner := owner + [pid];
        started := true;
      }
    }

    /** A process in an operation changes a home block it holds. */
    method Change(i: nat, d: Block, pid: nat)
      requires Inv() && i < NBUF && Holds(cache.buf[i], pid) && cache.buf[i].valid
      requires !InLog(lay, cache.buf[i].blockno) && pid in owner
      modifies cache`buf, cache`view, this`dirty
      ensures Inv() && dirty == old(dirty) + {i}
      ensures cache.buf == old(cache.buf)[i := old(cache.buf[i]).(data := d)]
      ensures cache.view == old(cache.view)[old(cache.buf[i].blockno) := d]
      ensures forall q :: q != pid ==> Kept(old(cache.buf), old(cache.users), cache.buf, cache.users, q)
    {
      hide Bcache.Valid, PinsOk, Kept, LogSpace.Inv, HeaderOk, TookOk;
      NotCommitting(pid);
      BufHeld(i);
      cache.SetData(i, d, pid);
      CopyKeepsPins(old(cache.buf), cache.buf, cache.pins, cache.at, cache.disk, Pinned(), dirty, dirty + {i}, i);
      dirty := dirty + {i};
    }

    lemma NotCommitting(pid: nat)
      requires Core() && pid in owner
      ensures !committing
    {
      CommittingMeansClosed();
    }

    lemma CommittingMeansClosed()
      requires LogSpace.Inv(Space(n, used, committing), MAXOPBLOCKS - 1)
      ensures committing ==> used == []
      ensures n < LOGBLOCKS
    {
    }

    /** log_write of held buffer i by open operation op. An operation logs fewer distinct
        blocks than it reserved, and then neither panic is reachable. */
    method LogWrite(i: nat, pid: nat, ghost op: nat) returns (r: LogWriteResult)
      requires Inv() && i < NBUF && Holds(cache.buf[i], pid) && cache.buf[i].valid
      requires !InLog(lay, cache.buf[i].blockno) && cache.buf[i].blockno < 0x1_0000_0000
      requires op < |used| && (cache.buf[i].blockno in Blocks() || used[op] < MAXOPBLOCKS - 1)
      modifies this`n, this`block, this`used, this`took, this`dirty, cache`buf, cache`pins
      ensures Inv() && r == LogOk && dirty == old(dirty) - {i}
      ensures var b := old(cache.buf[i].blockno);
              if b in old(Blocks())
              then Blocks() == old(Blocks()) && cache.buf == old(cache.buf) && used == old(used) && took == old(took)
              else && Blocks() == old(Blocks()) + [b] && used == old(used)[op := old(used[op]) + 1]
                   && |old(took)| == |old(used)| && took == old(took)[op := old(took[op]) + {b}]
                   && cache.buf == old(cache.buf)[i := old(cache.buf[i]).(refcnt := old(cache.buf[i].refcnt) + 1)]
    {
      hide Bcache.Valid, Core, PinsOk, DirtyOk;
      RoomForBlock(op);
      if n >= LOGBLOCKS {
        return PanicTooBig;
      }
      if outstanding < 1 {
        return PanicOutside;
      }
      var b := cache.buf[i].blockno;
      var k := 0;
      while k < n && block[k] != b
        invariant 0 <= k <= n && b !in block[..k]
      {
        k := k + 1;
      }
      if k == n {
        assert b !in Blocks();
        AddBlock(i, pid, op);
      } else {
        Absorb(i, k);
      }
      r := LogOk;
    }

    /** An operation all of whose blocks lie in a set of at most nine never runs out of its reservation. */
    lemma ReservationSuffices(op: nat, b: nat, all: set<nat>)
      requires Inv() && op < |used| && op < |took| && took[op] <= all && b in all && |all| <= MAXOPBLOCKS - 1
      ensures b in Blocks() || used[op] < MAXOPBLOCKS - 1
    {
      if b !in Blocks() {
        Subset(took[op] + {b}, all);
      }
    }

    lemma RoomForBlock(op: nat)
      requires Core() && op < |used|
      ensures !committing && n < LOGBLOCKS == |block| && outstanding >= 1
    {
      hide InCommit, SameHomes;
      CommittingMeansClosed();
    }

    /** A block the transaction has logged already: its slot is named again. */
    method Absorb(i: nat, k: nat)
      requires Inv() && !committing && i < NBUF && k < n <= |block| && Names(cache.buf[i], block[k])
      modifies this`block, this`dirty
      ensures Inv() && dirty == old(dirty) - {i} && block == old(block)
    {
      hide Bcache.Valid, Core;
      assert block[k] in Blocks();
      block := block[k := cache.buf[i].blockno];
      assert block == old(block);
      dirty := dirty - {i};
    }

    /** A block new to the transaction: it takes a slot and its buffer is pinned. */
    method AddBlock(i: nat, pid: nat, ghost op: nat)
      requires Inv() && !committing && n < LOGBLOCKS && i < NBUF && Holds(cache.buf[i], pid) && cache.buf[i].valid
      requires !InLog(lay, cache.buf[i].blockno) && cache.buf[i].blockno < 0x1_0000_0000
      requires cache.buf[i].blockno !in Blocks() && op < |used| && used[op] < MAXOPBLOCKS - 1
      modifies this`n, this`block, this`used, this`took, this`dirty, cache`buf, cache`pins
      ensures Inv() && dirty == old(dirty) - {i} && n == old(n) + 1
      ensures |old(took)| == |old(used)| && took == old(took)[op := old(took[op]) + {old(cache.buf[i].blockno)}]
      ensures Blocks() == old(Blocks()) + [old(cache.buf[i].blockno)] && used == old(used)[op := old(used[op]) + 1]
      ensures cache.buf == old(cache.buf)[i := old(cache.buf[i]).(refcnt := old(cache.buf[i].refcnt) + 1)]
    {
      hide Bcache.Valid, LogSpace.Inv, PinsOk, SameHomes, InCommit, Took, DirtyOk;
      BufHeld(i);
      var b := cache.buf[i].blockno;
      ghost var blocks := Blocks();
      StepKeepsInv(Space(n, used, committing), Take(op), MAXOPBLOCKS - 1);
      PinNew(i, blocks);
      block := block[n := b];
      n := n + 1;
      used := used[op := used[op] + 1];
      took := took[op := took[op] + {b}];
      assert Blocks() == blocks + [b];
      OneMoreTaken(old(used), old(took), blocks, used, took, block[..n], op, b);
    }

    lemma HeldBuf(i: nat, pid: nat)
      requires |cache.buf| == NBUF && i < NBUF && Holds(cache.buf[i], pid)
      ensures cache.buf[i].dev != 0
    {
    }

    lemma BufHeld(i: nat)
      requires cache.Valid() && i < NBUF && cache.buf[i].dev != 0
      ensures cache.buf[i].blockno < |cache.disk|
              && (cache.buf[i].valid ==> cache.buf[i].data == cache.view[cache.buf[i].blockno])
    {
    }

    /** bpin for a block that is logged for the first time in its transaction. */
    method PinNew(i: nat, ghost blocks: seq<nat>)
      requires cache.Valid() && i < NBUF && cache.buf[i].dev != 0 && cache.buf[i].valid
      requires PinsOk(cache.buf, cache.pins, cache.at, cache.disk, blocks, dirty) && cache.buf[i].blockno !in blocks
      requires DirtyOk(lay, cache.buf, dirty, owner, committing, tx.pid)
      modifies cache`buf, cache`pins, this`dirty
      ensures cache.Valid() && dirty == old(dirty) - {i} && DirtyOk(lay, cache.buf, dirty, owner, committing, tx.pid)
      ensures cache.buf == old(cache.buf)[i := old(cache.buf[i]).(refcnt := old(cache.buf[i].refcnt) + 1)]
      ensures PinsOk(cache.buf, cache.pins, cache.at, cache.disk, blocks + [old(cache.buf[i].blockno)], dirty)
    {
      hide RingOk, HistoryOk, ViewOk, BufsOk;
      ghost var more := blocks + [cache.buf[i].blockno];
      cache.Bpin(i);
      dirty := dirty - {i};
      forall j | 0 <= j < NBUF
        ensures PinOk(cache.buf[j], cache.pins[j], more, cache.disk, j in dirty)
      {
        if j != i {
          assert PinOk(old(cache.buf[j]), old(cache.pins[j]), blocks, cache.disk, j in old(dirty));
          if cache.buf[j].dev != 0 { assert cache.buf[j].blockno != cache.buf[i].blockno; }
        }
      }
    }

    /** end_op up to the release of log.lock: true when this caller must commit. The caller has
        logged everything it changed. */
    method EndOp(pid: nat, ghost op: nat) returns (doCommit: bool)
      requires Inv() && op < |used| && owner[op] == pid && Settled(pid)
      modifies this`outstanding, this`committing, this`used, this`took, this`owner, this`tx
      ensures Inv() && doCommit == committing == (old(outstanding) == 1)
      ensures outstanding == old(outstanding) - 1 && used == old(used)[..op] + old(used)[op + 1..]
      ensures doCommit ==> && tx.pid == pid && tx.base == cache.disk && tx.before == cache.writes
                           && tx.blocks == block[..n] == Pinned() && tx.done == 0 && dirty == {}
    {
      hide Inv, Closed, Core;
      CloseOp(pid, op);
      doCommit := false;
      if outstanding == 0 {
        doCommit := true;
        StartCommit(pid);
      }
    }

    /** Process pid has no buffer that it has changed and not logged. */
    ghost predicate Settled(pid: nat)
      reads this`dirty, cache`buf
    {
      forall i :: 0 <= i < |cache.buf| && i in dirty ==> cache.buf[i].pid != pid
    }

    /** No operation is open, and log.committing not yet set. */
    ghost predicate Closed()
      reads this, cache
    {
      && cache.Valid() && lay.size == LOGBLOCKS && DiskOk(lay, cache.disk) && HeaderOk() && n < LOGBLOCKS
      && !committing && outstanding == 0 && used == [] && took == [] && owner == [] && dirty == {}
      && LogSpace.Inv(Space(n, [], true), MAXOPBLOCKS - 1)
      && Word(cache.disk[lay.start], 0) == 0 && SameHomes(lay, cache.disk, committed)
      && PinsOk(cache.buf, cache.pins, cache.at, cache.disk, block[..n], {})
    }

    method CloseOp(pid: nat, ghost op: nat)
      requires Inv() && op < |used| && owner[op] == pid && Settled(pid)
      modifies this`outstanding, this`used, this`took, this`owner
      ensures outstanding == old(outstanding) - 1 && used == old(used)[..op] + old(used)[op + 1..]
      ensures if outstanding == 0 then Closed() else Inv() && !committing
    {
      hide Bcache.Valid, LogSpace.Inv, PinsOk, DirtyOk, InCommit, SameHomes, Took;
      OneLessTaken(used, took, block[..n], op);
      StepKeepsInv(Space(n, used, committing), End(op), MAXOPBLOCKS - 1);
      CommittingMeansClosed();
      StillOwned(op);
      outstanding := outstanding - 1;
      used := used[..op] + used[op + 1..];
      took := took[..op] + took[op + 1..];
      owner := owner[..op] + owner[op + 1..];
      if outstanding == 0 {
        assert owner == [] && used == [] && took == [];
        NoneDirty();
      }
    }

    /** The dirty buffers of the other open operations, when operation op ends. */
    lemma StillOwned(op: nat)
      requires op < |owner| && DirtyOk(lay, cache.buf, dirty, owner, false, tx.pid)
      requires Settled(owner[op])
      ensures DirtyOk(lay, cache.buf, dirty, owner[..op] + owner[op + 1..], false, tx.pid)
    {
      var rest := owner[..op] + owner[op + 1..];
      forall x | x in owner && x != owner[op] ensures x in rest {
        var j :| 0 <= j < |owner| && owner[j] == x;
        assert rest[if j < op then j else j - 1] == x;
      }
    }

    lemma NoneDirty()
      requires owner == [] && DirtyOk(lay, cache.buf, dirty, owner, false, tx.pid)
      ensures dirty == {}
    {
    }

    method StartCommit(ghost pid: nat)
      requires Closed()
      modifies this`committing, this`tx
      ensures Inv() && committing
      ensures tx.pid == pid && tx.base == cache.disk && tx.before == cache.writes && tx.blocks == block[..n] == Pinned()
      ensures tx.done == 0 && dirty == {}
    {
      hide RingOk, IndexOk, ViewOk, BufsOk, HistoryOk, PinsOk, InCommit, LogSpace.Inv;
      ghost var blocks := block[..n];
      forall k | 0 <= k < |cache.disk| && k !in blocks ensures cache.view[k] == cache.disk[k] {
        CleanView(blocks, {}, k);
      }
      CommitStarts(lay, pid, blocks, cache.disk, cache.view, cache.boot, cache.writes, committed);
      committing := true;
      tx := Tx(pid, cache.disk, blocks, Values(blocks, cache.view), cache.writes, 0, 0);
    }

    // ---- steps of the committer ----------------------------------------------------------------

    /** The memmove of write_log and install_trans, and write_head's assignments: a log block takes
        its new contents; a home block only ever takes the contents it has. */
    method CommitSet(i: nat, d: Block, pid: nat)
      requires Inv() && committing && tx.pid == pid && i < NBUF && Holds(cache.buf[i], pid) && cache.buf[i].valid
      requires InLog(lay, cache.buf[i].blockno) || d == cache.buf[i].data
      modifies cache`buf, cache`view, this`dirty
      ensures Inv() && dirty == if InLog(lay, cache.buf[i].blockno) then old(dirty) + {i} else old(dirty)
      ensures cache.buf == old(cache.buf)[i := old(cache.buf[i]).(data := d)]
      ensures cache.view == old(cache.view)[old(cache.buf[i].blockno) := d]
      ensures forall q :: q != pid ==> Kept(old(cache.buf), old(cache.users), cache.buf, cache.users, q)
    {
      hide Bcache.Valid, Kept, InCommit, LogSpace.Inv, HeaderOk, TookOk, PinsOk, DirtyOk, SameHomes, InLog, Holds;
      var k := cache.buf[i].blockno;
      HeldBuf(i, pid);
      BufHeld(i);
      cache.SetData(i, d, pid);
      if InLog(lay, k) {
        CommitterChanges(lay, old(cache.buf), cache.buf, dirty, owner, pid, i);
        CopyKeepsPins(old(cache.buf), cache.buf, cache.pins, cache.at, cache.disk, Pinned(), dirty, dirty + {i}, i);
        SetInCommit(lay, tx, cache.disk, old(cache.view), cache.boot, cache.writes, committed, k, d);
        dirty := dirty + {i};
      } else {
        assert cache.view == old(cache.view) && cache.buf == old(cache.buf);
      }
    }

    /** bwrite by the committer: the buffer holds the commit's next write. The write of the full
        header commits: from it on the committed version is the newest one. */
    method CommitWrite(i: nat, pid: nat)
      requires Inv() && committing && tx.pid == pid && i < NBUF && Holds(cache.buf[i], pid) && cache.buf[i].valid
      requires tx.blocks != [] && tx.done < 2 * |tx.blocks| + 2 && tx.unpinned == Installed(tx) && TxFine(lay, tx)
      requires Write(cache.buf[i].blockno, cache.buf[i].data) == NextWrite(lay, tx)
      requires tx.done == 2 * |tx.blocks| + 1 ==> n == 0
      modifies cache`disk, cache`writes, this`tx, this`committed, this`dirty
      ensures Inv() && tx == old(tx).(done := old(tx.done) + 1) && dirty == old(dirty) - {i}
      ensures committed == if old(tx.done) == |tx.blocks| then cache.view else old(committed)
      ensures |cache.disk| == old(|cache.disk|)
      ensures cache.writes == old(cache.writes) + [Write(cache.buf[i].blockno, cache.buf[i].data)]
    {
      hide Bcache.Valid, InCommit, LogSpace.Inv, TxFine, NextWrite, PinsOk, TookOk;
      BufHeld(i);
      WriteKeepsPins(i);
      WriteInCommit(lay, tx, cache.disk, cache.view, cache.boot, cache.writes, committed);
      cache.Bwrite(i, pid);
      committed := if tx.done == |tx.blocks| then cache.view else committed;
      tx := tx.(done := tx.done + 1);
      dirty := dirty - {i};
    }

    lemma CommitFine()
      requires Inv() && committing
      ensures TxFine(lay, tx) && Distinct(tx.blocks)
    {
    }

    /** Writing a buffer home makes its own copy clean and leaves the other blocks' copies alone. */
    lemma WriteKeepsPins(i: nat)
      requires cache.Valid() && i < NBUF && cache.buf[i].dev != 0 && cache.buf[i].blockno < |cache.disk|
      requires PinsOk(cache.buf, cache.pins, cache.at, cache.disk, Pinned(), dirty)
      ensures PinsOk(cache.buf, cache.pins, cache.at, cache.disk[cache.buf[i].blockno := cache.buf[i].data], Pinned(),
                     dirty - {i})
    {
      hide RingOk, HistoryOk, ViewOk, BufsOk;
      var k := cache.buf[i].blockno;
      forall j | 0 <= j < NBUF
        ensures PinOk(cache.buf[j], cache.pins[j], Pinned(), cache.disk[k := cache.buf[i].data], j in dirty - {i})
      {
        assert PinOk(cache.buf[j], cache.pins[j], Pinned(), cache.disk, j in dirty);
        if j != i && cache.buf[j].dev != 0 { assert cache.buf[j].blockno != k; }
      }
    }

    /** bunpin of the block just installed, by the committer, who still holds it. */
    method CommitUnpin(i: nat, pid: nat)
      requires Inv() && committing && tx.pid == pid && i < NBUF && Holds(cache.buf[i], pid)
      requires tx.unpinned < Installed(tx) <= |tx.blocks| && cache.buf[i].blockno == tx.blocks[tx.unpinned]
      modifies cache`buf, cache`pins, this`tx
      ensures Inv() && tx == old(tx).(unpinned := old(tx.unpinned) + 1)
      ensures cache.buf == old(cache.buf)[i := old(cache.buf[i]).(refcnt := cache.buf[i].refcnt)]
    {
      hide Bcache.Valid, InCommit, LogSpace.Inv, TxFine, PinsOk, DirtyOk, OnDisk, Distinct, HeaderOk, TookOk;
      BufHeld(i);
      CommitFine();
      UnpinInCommit(lay, tx, cache.disk, cache.view, cache.boot, cache.writes, committed);
      UnpinKeepsPins(i);
      cache.Bunpin(i);
      tx := tx.(unpinned := tx.unpinned + 1);
    }

    /** log.lh.n = 0, once every block is installed and unpinned. */
    method ClearCount(pid: nat)
      requires Inv() && committing && tx.pid == pid && tx.done > 2 * |tx.blocks| && tx.unpinned == |tx.blocks|
      modifies this`n
      ensures Inv() && n == 0
    {
      hide Bcache.Valid, InCommit, PinsOk, DirtyOk;
      n := 0;
      assert block[..n] == [] == tx.blocks[..n];
    }

    /** The end of end_op: commit() has returned, waiting operations may start. */
    method EndCommit(pid: nat)
      requires Inv() && committing && tx.pid == pid && dirty == {}
      requires tx.blocks == [] || tx.done == 2 * |tx.blocks| + 2
      modifies this`committing
      ensures Inv() && !committing && n == 0
      ensures SameHomes(lay, cache.disk, committed) && SameHomes(lay, cache.view, committed)
    {
      hide Bcache.Valid, PinsOk, InCommit;
      CommitEnds(lay, tx, cache.disk, cache.view, cache.boot, cache.writes, committed);
      AllUnpinned();
      committing := false;
      assert block[..n] == [];
    }
    // ---- what every state between two steps guarantees ------------------------------------------

    /** The disk holds the last committed version of every home block, except that a commit past
        its header write may still have blocks to install: those are in the log in that version
        and at home in the one before. Memory differs from the disk only on pinned blocks and on
        blocks a process is changing; a pinned block is in exactly one buffer, which is pinned
        once and holds its newest version. */
    lemma NothingUncommittedOnDisk(k: nat)
      requires Inv() && k < |cache.disk| && !InLog(lay, k)
      ensures |committed| == |cache.disk|
      ensures (!committing || tx.done <= |tx.blocks| || k !in tx.blocks[Installed(tx)..]) ==>
                cache.disk[k] == committed[k]
      ensures committing && tx.done > |tx.blocks| ==>
                forall t :: Installed(tx) <= t < |tx.blocks| && tx.blocks[t] == k ==>
                  cache.disk[k] == tx.base[k] && cache.disk[lay.start + 1 + t] == committed[k]
      ensures k !in Pinned() && (forall i :: 0 <= i < NBUF && i in dirty ==> !Names(cache.buf[i], k)) ==>
                cache.view[k] == cache.disk[k]
      ensures k in Pinned() ==>
                exists i :: && 0 <= i < NBUF && Names(cache.buf[i], k) && cache.buf[i].valid && cache.pins[i] == 1
                            && cache.buf[i].data == cache.view[k]
                            && forall j :: 0 <= j < NBUF && Names(cache.buf[j], k) ==> j == i
    {
      hide Bcache.Valid, InCommit, LogSpace.Inv, PinsOk, DirtyOk, Pinned;
      if committing {
        HomeInCommit(lay, tx, cache.disk, cache.view, cache.boot, cache.writes, committed, k);
      }
      MemoryOf(k);
    }

    lemma MemoryOf(k: nat)
      requires cache.Valid() && PinsOk(cache.buf, cache.pins, cache.at, cache.disk, Pinned(), dirty) && k < |cache.disk|
      ensures k !in Pinned() && (forall i :: 0 <= i < NBUF && i in dirty ==> !Names(cache.buf[i], k)) ==>
                cache.view[k] == cache.disk[k]
      ensures k in Pinned() ==>
                exists i :: && 0 <= i < NBUF && Names(cache.buf[i], k) && cache.buf[i].valid && cache.pins[i] == 1
                            && cache.buf[i].data == cache.view[k]
                            && forall j :: 0 <= j < NBUF && Names(cache.buf[j], k) ==> j == i
    {
      hide RingOk, HistoryOk, ViewOk, Pinned;
      if k in Pinned() {
        var i := cache.at[k];
        assert Names(cache.buf[i], k);
        assert PinOk(cache.buf[i], cache.pins[i], Pinned(), cache.disk, i in dirty);
      } else if forall i :: 0 <= i < NBUF && i in dirty ==> !Names(cache.buf[i], k) {
        CleanView(Pinned(), dirty, k);
      }
    }

    /** A machine that stops in any state, and then anywhere in any number of recoveries, comes
        back with every home block in its last committed version. */
    lemma TransactionIsAtomic(cuts: seq<nat>)
      requires Inv()
      ensures Recoverable(lay, cache.disk) && SameHomes(lay, Reboots(lay, cache.disk, cuts), committed)
    {
      hide RingOk, IndexOk, ViewOk, BufsOk, HistoryOk, InCommit, LogSpace.Inv, PinsOk, DirtyOk, Recoverable, Reboots;
      if committing {
        CrashInCommit(lay, tx, cache.disk, cache.view, cache.boot, cache.writes, committed, cuts);
      } else {
        EmptyLogReplay(lay, cache.disk);
        RebootsReplay(lay, cache.disk, cuts);
      }
    }

    lemma AllUnpinned()
      requires Core() && committing && (tx.blocks == [] || tx.done == 2 * |tx.blocks| + 2)
      ensures n == 0 && Pinned() == []
      ensures LogSpace.Inv(Space(0, used, false), MAXOPBLOCKS - 1)
    {
      hide OnDisk, HistoryOk, CommitWrites, Updated;
    }

    /** A block's buffer is no longer pinned once the block is installed. */
    lemma UnpinKeepsPins(i: nat)
      requires cache.Valid() && i < NBUF && cache.buf[i].dev != 0 && tx.unpinned < |tx.blocks| && Distinct(tx.blocks)
      requires cache.buf[i].blockno == tx.blocks[tx.unpinned]
      requires PinsOk(cache.buf, cache.pins, cache.at, cache.disk, tx.blocks[tx.unpinned..], dirty)
      requires DirtyOk(lay, cache.buf, dirty, owner, committing, tx.pid)
      requires cache.view[cache.buf[i].blockno] == cache.disk[cache.buf[i].blockno]
      ensures cache.pins[i] == 1 && cache.buf[i].refcnt > 0 && cache.buf[i].valid
      ensures var buf := cache.buf[i := cache.buf[i].(refcnt := cache.buf[i].refcnt - 1)];
              && PinsOk(buf, cache.pins[i := 0], cache.at, cache.disk, tx.blocks[tx.unpinned + 1..], dirty)
              && DirtyOk(lay, buf, dirty, owner, committing, tx.pid)
    {
      hide Bcache.Valid, PinsOk, IndexOk, Distinct;
      var now := tx.blocks[tx.unpinned..];
      assert now[0] == tx.blocks[tx.unpinned] && now[1..] == tx.blocks[tx.unpinned + 1..];
      assert Distinct(now) by { DistinctTail(tx.blocks, tx.unpinned); }
      PinnedOnce(now, i);
      OnePinLess(cache.buf, cache.pins, cache.at, cache.disk, now, dirty, i);
    }

    /** The buffer of a pinned block. */
    lemma PinnedOnce(now: seq<nat>, i: nat)
      requires cache.Valid() && i < NBUF && cache.buf[i].dev != 0 && now != [] && cache.buf[i].blockno == now[0]
      requires PinsOk(cache.buf, cache.pins, cache.at, cache.disk, now, dirty)
      ensures IndexOk(cache.buf, cache.at, |cache.disk|) && |cache.view| == |cache.disk| && now[0] < |cache.disk|
      ensures cache.pins[i] == 1 && cache.buf[i].refcnt > 0 && cache.buf[i].valid
      ensures cache.buf[i].data == cache.view[now[0]]
    {
      hide RingOk, HistoryOk, ViewOk;
      assert cache.at[now[0]] == i;
      assert PinOk(cache.buf[i], cache.pins[i], now, cache.disk, i in dirty);
      assert BufOk(cache.buf[i], cache.users[i], cache.pins[i], cache.disk, cache.view);
    }

    /** A block that is neither pinned nor being changed is the same in memory and on disk. */
    lemma CleanView(pinned: seq<nat>, busy: set<nat>, k: nat)
      requires cache.Valid() && PinsOk(cache.buf, cache.pins, cache.at, cache.disk, pinned, busy)
      requires k < |cache.disk| && k !in pinned
      requires forall i :: i in busy && i < NBUF ==> !Names(cache.buf[i], k)
      ensures cache.view[k] == cache.disk[k]
    {
      hide RingOk, HistoryOk;
      var i := cache.at[k];
      if i >= 0 { assert PinOk(cache.buf[i], cache.pins[i], pinned, cache.disk, i in busy); }
    }
  }

  lemma OnlyUser(users: multiset<nat>, p: nat, q: nat)
    requires |users| <= 1 && p in users && q in users
    ensures p == q
  {
    var rest := users - multiset{p};
    assert |rest| == 0;
    assert users == rest + multiset{p};
  }

  lemma ReleaseKeepsPins(buf0: seq<Buf>, buf1: seq<Buf>, pins: seq<nat>, at: seq<int>, disk: Disk, pinned: seq<nat>,
                         dirty: set<nat>, i: nat)
    requires PinsOk(buf0, pins, at, disk, pinned, dirty) && i < NBUF && |buf1| == NBUF
    requires buf1 == buf0[i := buf0[i].(refcnt := buf1[i].refcnt, locked := buf1[i].locked, pid := buf1[i].pid)]
    ensures PinsOk(buf1, pins, at, disk, pinned, dirty)
  {
    forall j | 0 <= j < NBUF ensures PinOk(buf1[j], pins[j], pinned, disk, j in dirty) {
      assert PinOk(buf0[j], pins[j], pinned, disk, j in dirty);
    }
  }

  /** A new copy in buffer i: clean, or from then on dirty, or of a pinned block. */
  lemma CommitterChanges(lay: Layout, buf0: seq<Buf>, buf1: seq<Buf>, dirty: set<nat>, owner: seq<nat>, pid: nat,
                         i: nat)
    requires DirtyOk(lay, buf0, dirty, owner, true, pid) && i < NBUF && Holds(buf0[i], pid) && buf0[i].valid
    requires InLog(lay, buf0[i].blockno) && |buf1| == NBUF && buf1 == buf0[i := buf0[i].(data := buf1[i].data)]
    ensures DirtyOk(lay, buf1, dirty + {i}, owner, true, pid)
  {
  }

  lemma CopyKeepsPins(buf0: seq<Buf>, buf1: seq<Buf>, pins: seq<nat>, at: seq<int>, disk: Disk, pinned: seq<nat>,
                      dirty: set<nat>, dirty1: set<nat>, i: nat)
    requires PinsOk(buf0, pins, at, disk, pinned, dirty) && i < NBUF && |buf1| == NBUF && dirty <= dirty1 <= dirty + {i}
    requires buf1 == buf0[i := buf0[i].(valid := true, data := buf1[i].data)]
    requires || i in dirty1 || Logged(buf0[i], pinned) || buf1[i] == buf0[i]
             || (buf0[i].blockno < |disk| && buf1[i].data == disk[buf0[i].blockno])
    ensures PinsOk(buf1, pins, at, disk, pinned, dirty1)
  {
    forall j | 0 <= j < NBUF ensures PinOk(buf1[j], pins[j], pinned, disk, j in dirty1) {
      assert PinOk(buf0[j], pins[j], pinned, disk, j in dirty);
    }
  }

  lemma DistinctTail(xs: seq<nat>, k: nat)
    requires k <= |xs| && Distinct(xs)
    ensures Distinct(xs[k..])
  {
  }

  lemma OnePinLess(buf: seq<Buf>, pins: seq<nat>, at: seq<int>, disk: Disk, now: seq<nat>, dirty: set<nat>, i: nat)
    requires PinsOk(buf, pins, at, disk, now, dirty) && IndexOk(buf, at, |disk|) && Distinct(now) && now != []
    requires i < NBUF && Names(buf[i], now[0]) && now[0] < |disk| && buf[i].data == disk[now[0]] && buf[i].refcnt > 0
    ensures PinsOk(buf[i := buf[i].(refcnt := buf[i].refcnt - 1)], pins[i := 0], at, disk, now[1..], dirty)
  {
    var buf1, pins1, rest := buf[i := buf[i].(refcnt := buf[i].refcnt - 1)], pins[i := 0], now[1..];
    assert now == [now[0]] + rest;
    forall j | 0 <= j < NBUF ensures PinOk(buf1[j], pins1[j], rest, disk, j in dirty) {
      assert PinOk(buf[j], pins[j], now, disk, j in dirty);
      if j != i && buf[j].dev != 0 { assert buf[j].blockno != now[0]; }
    }
    forall x | x in rest ensures x < |at| && 0 <= at[x] < NBUF && buf1[at[x]].valid {
      assert x in now;
    }
  }

  lemma ClaimKeepsPins(buf0: seq<Buf>, at0: seq<int>, buf1: seq<Buf>, at1: seq<int>, pins: seq<nat>, disk: Disk,
                       pinned: seq<nat>, dirty: set<nat>, r: nat, bno: nat)
    requires PinsOk(buf0, pins, at0, disk, pinned, dirty) && IndexOk(buf0, at0, |disk|) && IndexOk(buf1, at1, |disk|)
    requires r < NBUF && Names(buf1[r], bno)
    requires forall i :: 0 <= i < NBUF && i != r ==> buf1[i] == buf0[i]
    requires if Names(buf0[r], bno) then buf1[r] == buf0[r].(refcnt := buf1[r].refcnt)
             else pins[r] == 0 && !buf1[r].valid && forall i :: 0 <= i < NBUF ==> !Names(buf0[i], bno)
    ensures PinsOk(buf1, pins, at1, disk, pinned, dirty)
  {
    forall x | x in pinned ensures x < |at1| && 0 <= at1[x] < NBUF && buf1[at1[x]].valid {
      var i := at0[x];
      assert Names(buf0[i], x);
      assert PinOk(buf0[i], pins[i], pinned, disk, i in dirty);
      assert at1[buf1[i].blockno] == i;
    }
    if bno in pinned { assert Names(buf0[at0[bno]], bno); }
    forall i | 0 <= i < NBUF ensures PinOk(buf1[i], pins[i], pinned, disk, i in dirty) {
      assert PinOk(buf0[i], pins[i], pinned, disk, i in dirty);
    }
  }
}
