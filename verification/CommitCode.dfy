/** commit() as the code writes it, over the steps of `Log`, with any number of steps of any other
    processes before each of its own. */
module CommitCode {
  import opened Blocks
  import opened LruRing
  import opened CrashRecovery
  import opened BufferCache
  import LogSpace
  import opened CommitPhase
  import opened TheLog = Log
  import LogRecovery

  /** How far a piece of commit() got: to its end, into bget's panic, or waiting for a buffer's lock. */
  datatype Outcome = Done | NoBuffers | Waiting

  /** The buffers whose locks process q holds. */
  ghost function HeldBy(buf: seq<Buf>, q: nat): (r: set<nat>) {
    set i: nat | i < |buf| && Holds(buf[i], q)
  }

  /** Why a piece of code of process `me` has not ended: every buffer is in use, or another process holds the
      lock of a buffer that `me` has claimed, unless `me` held it itself from the start. */
  ghost predicate Excused(o: Outcome, cache: Bcache, me: nat, held: set<nat>)
    reads cache
  {
    match o
    case Done => true
    case NoBuffers => forall i :: 0 <= i < |cache.buf| ==> cache.buf[i].refcnt > 0
    case Waiting =>
      exists r: nat :: && r < |cache.buf| && r < |cache.users| && me in cache.users[r] && cache.buf[r].locked
                       && (cache.buf[r].pid != me || r in held)
  }

  /** Process `me` waits for buffer r, which another process has locked, or it itself earlier for block bno. */
  ghost predicate WaitsOn(cache: Bcache, r: nat, me: nat, was: seq<Buf>, bno: nat)
    reads cache
  {
    && r < |cache.buf| && r < |cache.users| && r < |was| && me in cache.users[r] && cache.buf[r].locked
    && (cache.buf[r].pid != me || (Holds(was[r], me) && was[r].blockno == bno))
  }

  /** Waiting for a second buffer while holding a first, for another block. */
  lemma SecondWait(cache: Bcache, r: nat, me: nat, was: seq<Buf>, bno: nat, i: nat, held: set<nat>)
    requires WaitsOn(cache, r, me, was, bno) && HeldBy(was, me) <= held + {i}
    requires i < |was| && was[i].blockno != bno
    ensures Excused(Waiting, cache, me, held)
  {
    if cache.buf[r].pid == me {
      assert r in HeldBy(was, me);
    }
  }

  /** A step of a process that reads blocks. */
  datatype ReaderStep = Getting(bno: nat) | Acquiring(i: nat) | Loading(i: nat) | Unlocking(i: nat) | Putting(i: nat)

  /** Any number of steps of any processes other than `me`. */
  method Others(log: Log, me: nat)
    requires log.Inv()
    modifies log.cache`buf, log.cache`users, log.cache`at, log.cache`prev, log.cache`next, log.cache`order
    ensures log.Inv() && Claims(log.cache.users, me) == Claims(old(log.cache.users), me)
    ensures forall i :: 0 <= i < NBUF ==> StillThere(old(log.cache.buf[i]), old(log.cache.users[i]), log.cache.buf[i],
                                                     me)
    ensures HeldBy(log.cache.buf, me) <= HeldBy(old(log.cache.buf), me)
  {
    hide Log.Inv;
    var steps: seq<(nat, ReaderStep)> := *;
    KeptSame(log.cache.buf, log.cache.users, me);
    for k := 0 to |steps|
      invariant log.Inv() && Kept(old(log.cache.buf), old(log.cache.users), log.cache.buf, log.cache.users, me)
    {
      if steps[k].0 != me {
        ghost var buf1, users1 := log.cache.buf, log.cache.users;
        OtherStep(log, steps[k].0, steps[k].1);
        KeptTwice(old(log.cache.buf), old(log.cache.users), buf1, users1, log.cache.buf, log.cache.users, me);
      }
    }
    assert Claims(log.cache.users, me) == Claims(old(log.cache.users), me);
  }

  /** One step of a process, if the process can take it. */
  method OtherStep(log: Log, pid: nat, step: ReaderStep)
    requires log.Inv()
    modifies log.cache`buf, log.cache`users, log.cache`at, log.cache`prev, log.cache`next, log.cache`order
    ensures log.Inv() && forall q :: q != pid ==>
              Kept(old(log.cache.buf), old(log.cache.users), log.cache.buf, log.cache.users, q)
  {
    hide Log.Inv, Kept;
    match step {
      case Getting(bno) =>
        if bno < |log.cache.disk| {
          var r := log.Get(bno, pid);
          return;
        }
      case Acquiring(i) =>
        if i < NBUF && pid in log.cache.users[i] {
          var granted := log.Acquire(i, pid);
          return;
        }
      case Loading(i) =>
        if i < NBUF && Holds(log.cache.buf[i], pid) {
          log.Load(i, pid);
          return;
        }
      case Unlocking(i) =>
        if i < NBUF && Holds(log.cache.buf[i], pid) && i !in log.dirty {
          log.Unlock(i, pid);
          return;
        }
      case Putting(i) =>
        if i < NBUF && pid in log.cache.users[i] && !Holds(log.cache.buf[i], pid) {
          log.Put(i, pid);
          return;
        }
    }
    forall q | q != pid ensures Kept(old(log.cache.buf), old(log.cache.users), log.cache.buf, log.cache.users, q) {
      KeptSame(log.cache.buf, log.cache.users, q);
    }
  }

  /** bread by process `me`, others running between its steps and while it waits for the lock. */
  method BreadAs(log: Log, bno: nat, me: nat) returns (o: Outcome, r: nat)
    requires log.Inv() && bno < |log.cache.disk|
    modifies log.cache`buf, log.cache`users, log.cache`at, log.cache`prev, log.cache`next, log.cache`order
    ensures log.Inv()
    ensures o.Done? ==> && Mine(log.cache.buf, r, bno, log.cache.view[bno], me)
                        && r < NBUF && Claims(log.cache.users, me) == More(Claims(old(log.cache.users), me), r)
                        && (Holds(old(log.cache.buf[r]), me) ==> old(log.cache.buf[r]).blockno == bno)
                        && HeldSame(old(log.cache.buf), log.cache.buf, me, r)
                        && HeldBy(log.cache.buf, me) <= HeldBy(old(log.cache.buf), me) + {r}
    ensures Excused(o, log.cache, me, HeldBy(old(log.cache.buf), me))
    ensures o.Waiting? ==> WaitsOn(log.cache, r, me, old(log.cache.buf), bno)
  {
    hide Log.Inv, Kept, Claims, HeldSame;
    Others(log, me);
    HoldersClaim(log, me);
    ghost var buf1, users1 := log.cache.buf, log.cache.users;
    var g := log.Get(bno, me);
    if g < 0 {
      return NoBuffers, 0;
    }
    r := g;
    ClaimsMore(users1, r, me);
    Claimed(log.cache.users, r, me);
    HeldStays(old(log.cache.buf), old(log.cache.users), buf1, log.cache.buf, me, r);
    assert HeldBy(log.cache.buf, me) <= HeldBy(buf1, me);
    buf1 := log.cache.buf;
    assert Holds(buf1[r], me) ==> Holds(old(log.cache.buf[r]), me) && old(log.cache.buf[r]).blockno == bno;
    o := LockAs(log, r, bno, me);
    if o.Done? {
      HeldSameTwice(old(log.cache.buf), buf1, log.cache.buf, me, r);
      buf1 := log.cache.buf;
      log.Load(r, me);
      assert HeldBy(log.cache.buf, me) <= HeldBy(buf1, me);
      HeldSameTwice(old(log.cache.buf), buf1, log.cache.buf, me, r);
    }
  }

  lemma HoldersClaim(log: Log, pid: nat)
    requires log.Inv()
    ensures forall i :: 0 <= i < NBUF && Holds(log.cache.buf[i], pid) ==> pid in log.cache.users[i]
  {
    hide Log.Core, PinsOk, DirtyOk, RingOk, HistoryOk, ViewOk;
  }

  method LockAs(log: Log, r: nat, bno: nat, me: nat) returns (o: Outcome)
    requires log.Inv() && r < NBUF && Names(log.cache.buf[r], bno) && me in log.cache.users[r]
    modifies log.cache`buf, log.cache`users, log.cache`at, log.cache`prev, log.cache`next, log.cache`order
    ensures log.Inv() && HeldSame(old(log.cache.buf), log.cache.buf, me, r)
            && Claims(log.cache.users, me) == Claims(old(log.cache.users), me)
    ensures o.Done? ==> Holds(log.cache.buf[r], me) && Names(log.cache.buf[r], bno)
    ensures HeldBy(log.cache.buf, me) <= HeldBy(old(log.cache.buf), me) + if o.Done? then {r} else {}
    ensures !o.NoBuffers? && Excused(o, log.cache, me, HeldBy(old(log.cache.buf), me))
    ensures o.Waiting? ==> WaitsOn(log.cache, r, me, old(log.cache.buf), bno)
  {
    hide Log.Inv, Kept, Claims, HeldSame;
    var patience: nat := *;
    HeldSameStart(log.cache.buf, me, r);
    Claimed(log.cache.users, r, me);
    while true
      invariant HeldBy(log.cache.buf, me) <= HeldBy(old(log.cache.buf), me)
      invariant log.Inv() && HeldSame(old(log.cache.buf), log.cache.buf, me, r)
      invariant Claims(log.cache.users, me) == Claims(old(log.cache.users), me)
      invariant Names(log.cache.buf[r], bno) && me in log.cache.users[r]
      decreases patience
    {
      ghost var buf1, users1 := log.cache.buf, log.cache.users;
      Others(log, me);
      Claimed(log.cache.users, r, me);
      HeldStays(buf1, users1, log.cache.buf, log.cache.buf, me, r);
      HeldSameTwice(old(log.cache.buf), buf1, log.cache.buf, me, r);
      buf1 := log.cache.buf;
      var granted := log.Acquire(r, me);
      HeldSameTwice(old(log.cache.buf), buf1, log.cache.buf, me, r);
      if granted {
        return Done;
      }
      if patience == 0 {
        assert log.cache.buf[r].pid == me ==> r in HeldBy(log.cache.buf, me);
        return Waiting;
      }
      patience := patience - 1;
    }
  }

  /** brelse by process `me` of buffer i, others running before it and between its halves. */
  method PutAs(log: Log, i: nat, me: nat)
    requires log.Inv() && i < NBUF && Holds(log.cache.buf[i], me) && i !in log.dirty
    modifies log.cache`buf, log.cache`users, log.cache`at, log.cache`prev, log.cache`next, log.cache`order
    ensures log.Inv() && HeldSame(old(log.cache.buf), log.cache.buf, me, i)
    ensures Claims(old(log.cache.users), me) == More(Claims(log.cache.users, me), i)
    ensures HeldBy(log.cache.buf, me) <= HeldBy(old(log.cache.buf), me) - {i}
  {
    hide Log.Inv, Kept, Claims, HeldSame;
    Others(log, me);
    ghost var buf1, users1 := log.cache.buf, log.cache.users;
    log.Unlock(i, me);
    HeldStays(old(log.cache.buf), old(log.cache.users), buf1, log.cache.buf, me, i);
    Claimed(log.cache.users, i, me);
    buf1, users1 := log.cache.buf, log.cache.users;
    Others(log, me);
    Claimed(log.cache.users, i, me);
    HeldStays(buf1, users1, log.cache.buf, log.cache.buf, me, i);
    HeldSameTwice(old(log.cache.buf), buf1, log.cache.buf, me, i);
    buf1, users1 := log.cache.buf, log.cache.users;
    log.Put(i, me);
    ClaimsLess(users1, i, me);
    HeldSameTwice(old(log.cache.buf), buf1, log.cache.buf, me, i);
  }

  /** brelse of one held buffer and then of another. */
  method PutTwo(log: Log, i: nat, j: nat, me: nat)
    requires log.Inv() && i < NBUF && j < NBUF && i != j && log.dirty == {}
    requires Holds(log.cache.buf[i], me) && Holds(log.cache.buf[j], me)
    modifies log.cache`buf, log.cache`users, log.cache`at, log.cache`prev, log.cache`next, log.cache`order
    ensures log.Inv() && Claims(old(log.cache.users), me) == More(More(Claims(log.cache.users, me), j), i)
    ensures HeldBy(log.cache.buf, me) <= HeldBy(old(log.cache.buf), me) - {i, j}
  {
    hide Log.Inv, Claims;
    PutAs(log, i, me);
    PutAs(log, j, me);
  }

  /** The commit under way and the committer's part in it. */
  ghost predicate Committing(log: Log, me: nat)
    reads log
  {
    log.committing && log.tx.pid == me && log.dirty == {}
  }

  /** How a commit moves: its blocks and their contents are fixed. */
  ghost predicate Onward(log: Log, was: Tx)
    reads log
  {
    log.tx == was.(done := log.tx.done, unpinned := log.tx.unpinned)
  }

  /** Turn `tail` of write_log has the slot and the block that the commit's next write names. */
  lemma LogTurn(log: Log, tail: nat)
    requires log.Inv() && log.committing && log.tx.done == tail < |log.tx.blocks|
    ensures TxFine(log.lay, log.tx) && log.tx.unpinned == Installed(log.tx) && log.n == |log.tx.blocks| <= |log.block|
    ensures log.lay.start + 1 + tail < |log.cache.disk| && InLog(log.lay, log.lay.start + 1 + tail)
    ensures log.block[tail] < |log.cache.disk| && !InLog(log.lay, log.block[tail])
    ensures NextWrite(log.lay, log.tx) == Write(log.lay.start + 1 + tail, log.cache.view[log.block[tail]])
  {
    hide Bcache.Valid, PinsOk, DirtyOk, LogSpace.Inv, HistoryOk, CommitWrites, PutHeader, Updated, OnDisk;
    assert log.block[..log.n][tail] == log.tx.blocks[tail];
    UpdatedAt(log.tx.base, log.tx.blocks, log.tx.vals, tail);
  }

  /** The changed buffer of a log block goes to disk, with other processes running before the write. */
  method PutInLog(log: Log, i: nat, d: Block, me: nat)
    requires log.Inv() && Committing(log, me) && i < NBUF && Holds(log.cache.buf[i], me) && log.cache.buf[i].valid
    requires InLog(log.lay, log.cache.buf[i].blockno) && TxFine(log.lay, log.tx)
    requires log.tx.blocks != [] && log.tx.done < 2 * |log.tx.blocks| + 2 && log.tx.unpinned == Installed(log.tx)
    requires Write(log.cache.buf[i].blockno, d) == NextWrite(log.lay, log.tx)
    requires log.tx.done == 2 * |log.tx.blocks| + 1 ==> log.n == 0
    modifies log.cache, log`tx, log`committed, log`dirty
    ensures log.Inv() && Committing(log, me) && log.tx == old(log.tx).(done := old(log.tx.done) + 1)
    ensures forall j :: 0 <= j < NBUF && Holds(old(log.cache.buf[j]), me) ==> Holds(log.cache.buf[j], me)
    ensures Claims(log.cache.users, me) == Claims(old(log.cache.users), me)
    ensures HeldBy(log.cache.buf, me) <= HeldBy(old(log.cache.buf), me)
  {
    hide Log.Inv, Kept, Claims, TxFine, NextWrite, Installed, InLog;
    log.CommitSet(i, d, me);
    assert HeldBy(log.cache.buf, me) <= HeldBy(old(log.cache.buf), me);
    Others(log, me);
    log.CommitWrite(i, me);
  }

  /** One turn of write_log: copy a logged block's newest version to its slot. */
  method LogOne(log: Log, tail: nat, me: nat) returns (o: Outcome)
    requires log.Inv() && Committing(log, me) && log.tx.done == tail < |log.tx.blocks|
    modifies log.cache, log`tx, log`committed, log`dirty
    ensures log.Inv() && Onward(log, old(log.tx))
    ensures o.Done? ==> && Committing(log, me) && log.tx == old(log.tx).(done := tail + 1)
                        && Claims(log.cache.users, me) == Claims(old(log.cache.users), me)
    ensures Excused(o, log.cache, me, HeldBy(old(log.cache.buf), me))
    ensures o.Done? ==> HeldBy(log.cache.buf, me) <= HeldBy(old(log.cache.buf), me)
  {
    hide Log.Inv, Kept, Claims, TxFine, NextWrite, PutHeader, Installed;
    LogTurn(log, tail);
    ghost var c0 := Claims(log.cache.users, me);
    var to;
    o, to := BreadAs(log, log.lay.start + 1 + tail, me);
    if !o.Done? {
      return;
    }
    var from;
    ghost var buf1 := log.cache.buf;
    o, from := BreadAs(log, log.block[tail], me);
    if !o.Done? {
      if o.Waiting? {
        SecondWait(log.cache, from, me, buf1, log.block[tail], to, HeldBy(old(log.cache.buf), me));
      }
      return;
    }
    PutInLog(log, to, log.cache.buf[from].data, me);
    PutTwo(log, from, to, me);
    ClaimsBack(c0, to, from, Claims(log.cache.users, me));
    o := Done;
  }

  /** Copy modified blocks from cache to log. */
  method WriteLog(log: Log, me: nat) returns (o: Outcome)
    requires log.Inv() && Committing(log, me) && log.tx.done == 0 && log.n == |log.tx.blocks|
    modifies log.cache, log`tx, log`committed, log`dirty
    ensures log.Inv() && Onward(log, old(log.tx))
    ensures o.Done? ==> && Committing(log, me) && log.tx == old(log.tx).(done := log.n)
                        && Claims(log.cache.users, me) == Claims(old(log.cache.users), me)
    ensures Excused(o, log.cache, me, HeldBy(old(log.cache.buf), me))
    ensures o.Done? ==> HeldBy(log.cache.buf, me) <= HeldBy(old(log.cache.buf), me)
  {
    hide Log.Inv, Claims;
    var tail := 0;
    while tail < log.n
      invariant 0 <= tail <= log.n && log.n == |log.tx.blocks|
      invariant log.Inv() && Committing(log, me) && log.tx == old(log.tx).(done := tail)
      invariant Claims(log.cache.users, me) == Claims(old(log.cache.users), me)
      invariant HeldBy(log.cache.buf, me) <= HeldBy(old(log.cache.buf), me)
    {
      o := LogOne(log, tail, me);
      if !o.Done? {
        return;
      }
      tail := tail + 1;
    }
    o := Done;
  }

  /** The header block as write_head makes it is what the commit's next write names. */
  ghost predicate HeadIsNext(log: Log)
    reads log, log.cache
  {
    && TxFine(log.lay, log.tx) && log.tx.unpinned == Installed(log.tx) && log.tx.done < 2 * |log.tx.blocks| + 2
    && log.n <= |log.block| && log.n < WORDS && (log.n == 0 || log.n == |log.tx.blocks|)
    && (forall t :: 0 <= t < log.n ==> log.block[t] < 0x1_0000_0000)
    && log.lay.start < |log.cache.disk| == |log.cache.view| && InLog(log.lay, log.lay.start)
    && NextWrite(log.lay, log.tx) == Write(log.lay.start, PutHeader(log.cache.view[log.lay.start], log.block[..log.n]))
  }

  lemma HeadTurn(log: Log)
    requires log.Inv() && log.committing && log.dirty == {} && log.tx.blocks != []
    requires if log.n > 0 then log.tx.done == log.n else log.tx.done == 2 * |log.tx.blocks| + 1
                                                         && log.tx.unpinned == |log.tx.blocks|
    ensures HeadIsNext(log)
  {
    hide RingOk, IndexOk, ViewOk, BufsOk, PinsOk, DirtyOk, LogSpace.Inv, HistoryOk, CommitWrites, PutHeader, Updated;
    log.CommittingMeansClosed();
    LogClean(log, log.lay.start);
    assert log.block[..0] == [] && log.tx.blocks[..|log.tx.blocks|] == log.tx.blocks;
  }

  /** Outside its own changes, the committer sees every log block as it is on disk. */
  lemma LogClean(log: Log, k: nat)
    requires log.Inv() && log.committing && log.dirty == {} && k < |log.cache.disk| && InLog(log.lay, k)
    ensures log.cache.view[k] == log.cache.disk[k]
  {
    hide RingOk, IndexOk, ViewOk, BufsOk, PinsOk, DirtyOk, LogSpace.Inv, HistoryOk, CommitWrites, PutHeader, Updated,
         OnDisk;
    log.CleanView(log.Pinned(), {}, k);
  }

  /** Write the in-memory header to disk: with blocks in it, the point at which the transaction
      commits; empty, the end of the commit. */
  method WriteHead(log: Log, me: nat) returns (o: Outcome)
    requires log.Inv() && Committing(log, me) && log.tx.blocks != []
    requires if log.n > 0 then log.tx.done == log.n else log.tx.done == 2 * |log.tx.blocks| + 1
                                                         && log.tx.unpinned == |log.tx.blocks|
    modifies log.cache, log`tx, log`committed, log`dirty
    ensures log.Inv() && Onward(log, old(log.tx))
    ensures o.Done? ==> && Committing(log, me) && log.tx == old(log.tx).(done := old(log.tx.done) + 1)
                        && Claims(log.cache.users, me) == Claims(old(log.cache.users), me)
    ensures Excused(o, log.cache, me, HeldBy(old(log.cache.buf), me))
    ensures o.Done? ==> HeldBy(log.cache.buf, me) <= HeldBy(old(log.cache.buf), me)
  {
    hide Log.Inv, Kept, Claims, TxFine, NextWrite, PutHeader, Installed;
    HeadTurn(log);
    ghost var c0 := Claims(log.cache.users, me);
    var b;
    o, b := BreadAs(log, log.lay.start, me);
    if !o.Done? {
      return;
    }
    var h := LogRecovery.HeaderImage(log.cache.buf[b].data, log.n, log.block);
    PutInLog(log, b, h, me);
    PutAs(log, b, me);
    MoreInjective(c0, Claims(log.cache.users, me), b);
    o := Done;
  }

  /** Turn `tail` of install_trans finds in the slot what the block's buffer already holds. */
  /** While the homes are written, slot and home of the next block both have its value in the transaction. */
  lemma InstallValue(lay: Layout, tx: Tx, disk: Disk, view: Disk, boot: Disk, writes: seq<Write>, committed: Disk,
                     tail: nat)
    requires InCommit(lay, tx, disk, view, boot, writes, committed) && |view| == |disk|
    requires tail < |tx.blocks| && tx.done == |tx.blocks| + 1 + tail && tx.unpinned == tail
    ensures TxFine(lay, tx) && tx.unpinned == Installed(tx)
    ensures lay.start + 1 + tail < |disk| && InLog(lay, lay.start + 1 + tail)
    ensures tx.blocks[tail] < |disk| && !InLog(lay, tx.blocks[tail])
    ensures disk[lay.start + 1 + tail] == tx.vals[tail] == view[tx.blocks[tail]]
    ensures NextWrite(lay, tx) == Write(tx.blocks[tail], tx.vals[tail])
  {
    hide HistoryOk, CommitWrites, PutHeader, Updated;
    UpdatedAt(tx.base, tx.blocks, tx.vals, tail);
  }

  lemma InstallTurn(log: Log, tail: nat)
    requires log.Inv() && log.committing && log.dirty == {} && tail < |log.tx.blocks|
             && log.tx.done == |log.tx.blocks| + 1 + tail
    requires log.tx.unpinned == tail && log.n == |log.tx.blocks|
    ensures TxFine(log.lay, log.tx) && log.tx.unpinned == Installed(log.tx) && log.n <= |log.block|
    ensures log.lay.start + 1 + tail < |log.cache.disk| && InLog(log.lay, log.lay.start + 1 + tail)
    ensures log.block[tail] < |log.cache.disk| && !InLog(log.lay, log.block[tail])
            && log.block[tail] == log.tx.blocks[tail]
    ensures log.cache.view[log.lay.start + 1 + tail] == log.cache.view[log.block[tail]]
    ensures NextWrite(log.lay, log.tx) == Write(log.block[tail], log.cache.view[log.block[tail]])
  {
    hide Bcache.Valid, PinsOk, DirtyOk, LogSpace.Inv, InCommit, TxFine, NextWrite, InLog;
    assert log.block[..log.n][tail] == log.tx.blocks[tail];
    InstallValue(log.lay, log.tx, log.cache.disk, log.cache.view, log.cache.boot, log.cache.writes, log.committed,
                 tail);
    LogClean(log, log.lay.start + 1 + tail);
  }

  /** The changed home block goes to disk and loses its pin, with other processes running around it. */
  method WriteHome(log: Log, dbuf: nat, lbuf: nat, me: nat)
    requires log.Inv() && Committing(log, me) && dbuf < NBUF && lbuf < NBUF
    requires Holds(log.cache.buf[dbuf], me) && log.cache.buf[dbuf].valid && Holds(log.cache.buf[lbuf], me)
    requires TxFine(log.lay, log.tx) && |log.tx.blocks| < log.tx.done <= 2 * |log.tx.blocks|
    requires log.tx.unpinned == Installed(log.tx)
             && log.cache.buf[dbuf].blockno == log.tx.blocks[log.tx.done - |log.tx.blocks| - 1]
    requires Write(log.cache.buf[dbuf].blockno, log.cache.buf[dbuf].data) == NextWrite(log.lay, log.tx)
    modifies log.cache, log`tx, log`committed, log`dirty
    ensures log.Inv() && Committing(log, me) && Holds(log.cache.buf[dbuf], me) && Holds(log.cache.buf[lbuf], me)
    ensures log.tx == old(log.tx).(done := old(log.tx.done) + 1, unpinned := old(log.tx.unpinned) + 1)
    ensures Claims(log.cache.users, me) == Claims(old(log.cache.users), me)
    ensures HeldBy(log.cache.buf, me) <= HeldBy(old(log.cache.buf), me)
  {
    hide Log.Inv, Kept, Claims, TxFine, NextWrite;
    Others(log, me);
    log.CommitWrite(dbuf, me);
    Others(log, me);
    log.CommitUnpin(dbuf, me);
  }

  /** One turn of install_trans: copy a log slot to its home block, which is then unpinned. */
  method InstallOne(log: Log, tail: nat, me: nat) returns (o: Outcome)
    requires log.Inv() && Committing(log, me) && tail < |log.tx.blocks| == log.n
             && log.tx.done == |log.tx.blocks| + 1 + tail
             && log.tx.unpinned == tail
    modifies log.cache, log`tx, log`committed, log`dirty
    ensures log.Inv() && Onward(log, old(log.tx))
    ensures o.Done? ==> && Committing(log, me)
                        && log.tx == old(log.tx).(done := old(log.tx.done) + 1, unpinned := tail + 1)
                        && Claims(log.cache.users, me) == Claims(old(log.cache.users), me)
    ensures Excused(o, log.cache, me, HeldBy(old(log.cache.buf), me))
    ensures o.Done? ==> HeldBy(log.cache.buf, me) <= HeldBy(old(log.cache.buf), me)
  {
    hide Log.Inv, Kept, Claims, TxFine, NextWrite, PutHeader, InLog;
    InstallTurn(log, tail);
    ghost var c0 := Claims(log.cache.users, me);
    var lbuf;
    o, lbuf := BreadAs(log, log.lay.start + 1 + tail, me);
    if !o.Done? {
      return;
    }
    var dbuf;
    ghost var buf1 := log.cache.buf;
    o, dbuf := BreadAs(log, log.block[tail], me);
    if !o.Done? {
      if o.Waiting? {
        SecondWait(log.cache, dbuf, me, buf1, log.block[tail], lbuf, HeldBy(old(log.cache.buf), me));
      }
      return;
    }
    log.CommitSet(dbuf, log.cache.buf[lbuf].data, me);
    assert HeldBy(log.cache.buf, me) <= HeldBy(buf1, me) + {dbuf};
    WriteHome(log, dbuf, lbuf, me);
    PutTwo(log, lbuf, dbuf, me);
    ClaimsBack(c0, lbuf, dbuf, Claims(log.cache.users, me));
    o := Done;
  }

  /** Copy committed blocks from log to their home location. */
  method InstallTrans(log: Log, me: nat) returns (o: Outcome)
    requires log.Inv() && Committing(log, me) && log.tx.done == log.n + 1 && log.tx.unpinned == 0
             && log.n == |log.tx.blocks|
    modifies log.cache, log`tx, log`committed, log`dirty
    ensures log.Inv() && Onward(log, old(log.tx))
    ensures o.Done? ==> && Committing(log, me) && log.tx == old(log.tx).(done := 2 * log.n + 1, unpinned := log.n)
                        && Claims(log.cache.users, me) == Claims(old(log.cache.users), me)
    ensures Excused(o, log.cache, me, HeldBy(old(log.cache.buf), me))
    ensures o.Done? ==> HeldBy(log.cache.buf, me) <= HeldBy(old(log.cache.buf), me)
  {
    hide Log.Inv, Claims;
    var tail := 0;
    while tail < log.n
      invariant 0 <= tail <= log.n && log.n == |log.tx.blocks|
      invariant log.Inv() && Committing(log, me) && log.tx == old(log.tx).(done := log.n + 1 + tail, unpinned := tail)
      invariant Claims(log.cache.users, me) == Claims(old(log.cache.users), me)
      invariant HeldBy(log.cache.buf, me) <= HeldBy(old(log.cache.buf), me)
    {
      o := InstallOne(log, tail, me);
      if !o.Done? {
        return;
      }
      tail := tail + 1;
    }
    o := Done;
  }

  /** commit(). Whatever other processes do meanwhile, the disk writes are the transaction's. */
  method Commit(log: Log, me: nat) returns (o: Outcome)
    requires log.Inv() && Committing(log, me) && log.tx.done == 0 && log.tx.unpinned == 0 && log.n == |log.tx.blocks|
    modifies log.cache, log`n, log`tx, log`committed, log`dirty
    ensures log.Inv() && Onward(log, old(log.tx))
    ensures o.Done? ==> && Committing(log, me) && log.n == 0
                        && log.tx == (if old(log.n) == 0 then old(log.tx)
                                  else old(log.tx).(done := 2 * old(log.n) + 2, unpinned := old(log.n)))
                        && Claims(log.cache.users, me) == Claims(old(log.cache.users), me)
    ensures Excused(o, log.cache, me, HeldBy(old(log.cache.buf), me))
    ensures o.Done? ==> HeldBy(log.cache.buf, me) <= HeldBy(old(log.cache.buf), me)
  {
    hide Log.Inv, Claims;
    if log.n > 0 {
      o := WriteLog(log, me);
      if !o.Done? {
        return;
      }
      o := WriteHead(log, me);
      if !o.Done? {
        return;
      }
      o := InstallTrans(log, me);
      if !o.Done? {
        return;
      }
      log.ClearCount(me);
      o := WriteHead(log, me);
      if !o.Done? {
        return;
      }
    }
    o := Done;
  }

  /** The rest of end_op for the last operation. Whatever other processes read meanwhile, the
      commit that ends has made exactly the writes of its transaction, every home block is on
      disk in the version it had when the commit began, and the committer has released every
      buffer it claimed. */
  method FinishCommit(log: Log, me: nat) returns (o: Outcome)
    requires log.Inv() && Committing(log, me) && log.tx.done == 0
    modifies log.cache, log`n, log`committing, log`tx, log`committed, log`dirty
    ensures log.Inv()
    ensures !o.Done? ==> log.committing && Onward(log, old(log.tx))
    ensures o.Done? ==> !log.committing && log.n == 0 && log.dirty == {}
    ensures o.Done? ==> Claims(log.cache.users, me) == Claims(old(log.cache.users), me)
    ensures o.Done? ==> && TxFine(log.lay, old(log.tx))
                        && log.cache.writes == old(log.cache.writes) + if old(log.n) == 0 then
                             [] else Writes(log.lay, old(log.tx))
    ensures o.Done? ==> && SameHomes(log.lay, log.cache.disk, old(log.cache.view))
                        && SameHomes(log.lay, log.cache.view, old(log.cache.view))
                        && SameHomes(log.lay, log.committed, old(log.cache.view))
    ensures Excused(o, log.cache, me, HeldBy(old(log.cache.buf), me))
    ensures o.Done? ==> HeldBy(log.cache.buf, me) <= HeldBy(old(log.cache.buf), me)
  {
    hide Log.Inv, Claims, TxFine, SameHomes, InCommit, Installed, Writes;
    log.CommitFine();
    CommitFacts(log, log.tx);
    ghost var view0, tx0 := log.cache.view, log.tx;
    o := Commit(log, me);
    if !o.Done? {
      return;
    }
    CommitFacts(log, tx0);
    log.EndCommit(me);
    HomesThen(log.lay, view0, log.cache.view, log.cache.disk, log.committed, NewHomes(log.lay, tx0));
    o := Done;
  }

  /** A commit that was at tx0: what its progress so far has written, and what memory holds. */
  lemma CommitFacts(log: Log, tx0: Tx)
    requires log.Inv() && log.committing && TxFine(log.lay, tx0) && Onward(log, tx0)
    ensures SameHomes(log.lay, log.cache.view, NewHomes(log.lay, tx0))
    ensures log.tx.done <= 2 * |log.tx.blocks| + 2
            && log.cache.writes == tx0.before + Writes(log.lay, tx0)[..log.tx.done]
    ensures log.tx.done == 0 ==> log.cache.writes == tx0.before && log.tx.unpinned == 0 && log.n == |log.tx.blocks|
    ensures log.tx.done == 2 * |log.tx.blocks| + 2 ==> log.cache.writes == tx0.before + Writes(log.lay, tx0)
  {
    hide Bcache.Valid, PinsOk, DirtyOk, LogSpace.Inv, HistoryOk, CommitWrites, Updated, OnDisk;
  }

  // ---- what a process keeps while others run ---------------------------------------------

  /** The buffers of the cache that process q has claimed, how often each. */
  ghost function Claims(users: seq<multiset<nat>>, q: nat): (r: seq<nat>)
    ensures |r| == |users|
  {
    seq(|users|, i requires 0 <= i < |users| => users[i][q])
  }

  ghost function More(claims: seq<nat>, i: nat): (r: seq<nat>)
    requires i < |claims|
  {
    claims[i := claims[i] + 1]
  }

  lemma ClaimsMore(users: seq<multiset<nat>>, i: nat, q: nat)
    requires i < |users|
    ensures Claims(users[i := users[i] + multiset{q}], q) == More(Claims(users, q), i)
  {
  }

  lemma ClaimsLess(users: seq<multiset<nat>>, i: nat, q: nat)
    requires i < |users| && q in users[i]
    ensures More(Claims(users[i := users[i] - multiset{q}], q), i) == Claims(users, q)
  {
  }

  lemma MoreInjective(a: seq<nat>, b: seq<nat>, i: nat)
    requires i < |a| == |b| && More(a, i) == More(b, i)
    ensures a == b
  {
    forall j | 0 <= j < |a| ensures a[j] == b[j] {
      assert More(a, i)[j] == More(b, i)[j];
    }
  }

  lemma ClaimsBack(c0: seq<nat>, i: nat, j: nat, c: seq<nat>)
    requires i < |c0| == |c| && j < |c0|
    requires More(More(c0, i), j) == More(More(c, j), i) || More(More(c0, i), j) == More(More(c, i), j)
    ensures c == c0
  {
    forall k | 0 <= k < |c| ensures c[k] == c0[k] {
      assert More(More(c0, i), j)[k] == More(More(c, j), i)[k] || More(More(c0, i), j)[k] == More(More(c, i), j)[k];
    }
  }

  /** Whatever process q held, other than buffer r, it still holds with the same contents. */
  ghost predicate HeldSame(buf0: seq<Buf>, buf1: seq<Buf>, q: nat, r: nat) {
    && |buf0| == |buf1| == NBUF
    && forall i :: 0 <= i < NBUF && i != r && Holds(buf0[i], q) ==> buf1[i] == buf0[i].(refcnt := buf1[i].refcnt)
  }

  lemma HeldSameTwice(buf0: seq<Buf>, buf1: seq<Buf>, buf2: seq<Buf>, q: nat, r: nat)
    requires HeldSame(buf0, buf1, q, r)
    requires |buf2| == NBUF && (HeldSame(buf1, buf2, q, r) || forall i :: 0 <= i < NBUF && i != r ==>
                                buf2[i] == buf1[i])
    ensures HeldSame(buf0, buf2, q, r)
  {
  }

  lemma HeldStays(buf0: seq<Buf>, users0: seq<multiset<nat>>, buf1: seq<Buf>, buf2: seq<Buf>, q: nat, r: nat)
    requires |buf0| == |users0| == |buf1| == |buf2| == NBUF
    requires forall i :: 0 <= i < NBUF ==> StillThere(buf0[i], users0[i], buf1[i], q)
    requires forall i :: 0 <= i < NBUF && i != r ==> buf2[i] == buf1[i]
    ensures HeldSame(buf0, buf2, q, r)
  {
  }

  lemma HeldSameStart(buf: seq<Buf>, q: nat, r: nat)
    requires |buf| == NBUF
    ensures HeldSame(buf, buf, q, r)
  {
  }

  lemma Claimed(users: seq<multiset<nat>>, i: nat, q: nat)
    requires i < |users|
    ensures Claims(users, q)[i] > 0 <==> q in users[i]
  {
  }

  lemma HomesThen(lay: Layout, view0: Disk, view: Disk, disk: Disk, committed: Disk, homes: Disk)
    requires SameHomes(lay, view0, homes) && SameHomes(lay, view, homes)
    requires SameHomes(lay, view, committed) && SameHomes(lay, disk, committed)
    ensures SameHomes(lay, disk, view0) && SameHomes(lay, view, view0) && SameHomes(lay, committed, view0)
  {
  }

  /** What process q keeps of a buffer while others run: its block if q has claimed it, all of it if q holds it. */
  ghost predicate StillThere(b0: Buf, u0: multiset<nat>, b1: Buf, q: nat) {
    && (q in u0 ==> b1.dev == b0.dev && b1.blockno == b0.blockno)
    && (Holds(b0, q) ==> b1 == b0.(refcnt := b1.refcnt))
    && (Holds(b1, q) ==> Holds(b0, q))
  }

  lemma KeptSame(buf: seq<Buf>, users: seq<multiset<nat>>, q: nat)
    requires |buf| == |users| == NBUF
    ensures Kept(buf, users, buf, users, q)
  {
  }

  lemma KeptTwice(buf0: seq<Buf>, users0: seq<multiset<nat>>, buf1: seq<Buf>, users1: seq<multiset<nat>>,
                  buf2: seq<Buf>, users2: seq<multiset<nat>>, q: nat)
    requires Kept(buf0, users0, buf1, users1, q) && Kept(buf1, users1, buf2, users2, q)
    ensures Kept(buf0, users0, buf2, users2, q)
  {
    forall i | 0 <= i < NBUF ensures KeptAt(buf0[i], users0[i], buf2[i], users2[i], q) {
      assert KeptAt(buf0[i], users0[i], buf1[i], users1[i], q) && KeptAt(buf1[i], users1[i], buf2[i], users2[i], q);
    }
  }
}
