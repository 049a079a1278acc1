/** filewrite as operations of the log: what a stop at any point leaves of the files on disk.

    Each transaction changes and logs the blocks that writei touches, one by one, with any steps of
    other processes in between, and commits. */
module FileTransactions {
  import opened Blocks
  import opened LruRing
  import opened CrashRecovery
  import opened BufferCache
  import opened CommitPhase
  import opened FileBlocks
  import opened FileDisk
  import LogSpace
  import opened Files = FileSystem
  import opened TheLog = Log
  import opened CommitCode

  /** Between the begin_op and the end_op of a transaction of filewrite, on a disk with at most three
      bitmap blocks, every block it hands to log_write is in the log already or within its
      reservation: `all` is what the whole transaction touches, `b` any of it. */
  lemma WriteTransactionFits(log: Log, sb: Super, logged: set<Touched>, bitmaps: nat, op: nat, b: nat)
    requires log.Inv() && op < |log.used| && |logged| <= 6 + bitmaps && bitmaps <= 3
    requires log.took[op] <= BlockNos(sb, logged) && b in BlockNos(sb, logged)
    ensures b in log.Blocks() || log.used[op] < LogSpace.MAXOPBLOCKS - 1
  {
    NoMoreNumbers(sb, logged);
    log.ReservationSuffices(op, b, BlockNos(sb, logged));
  }

  /** Process `me` alone is in an operation, and everything it has changed is logged. */
  ghost predicate InOp(log: Log, me: nat)
    reads log, log.cache
  {
    log.Inv() && !log.committing && log.owner == [me] && log.dirty == {}
  }

  /** What one block of a transaction needs to be written. */
  ghost predicate Planned(sb: Super, lay: Layout, nmeta: nat, f: Fs, g: Fs, i: nat, logged: set<Touched>) {
    && Ordered(sb, lay, nmeta, f) && |f.data| < 0x1_0000_0000
    && i < |f.inode| == |g.inode| && g.inode == f.inode[i := g.inode[i]] && Fits32(g.inode[i])
    && (forall t :: t in logged ==> Touchable(nmeta, f, t, i)) && |logged| <= 9
  }

  /** One block: bread, its new contents, log_write, brelse. */
  method LogBlock(log: Log, sb: Super, t: Touched, g: Fs, i: nat, me: nat, ghost nmeta: nat, ghost f: Fs,
                  ghost logged: set<Touched>, ghost todo: set<Touched>) returns (o: Outcome)
    requires InOp(log, me) && Planned(sb, log.lay, nmeta, f, g, i, logged) && t in todo && todo <= logged
    requires Between(sb, nmeta, log.cache.view, f, g, todo) && log.took[0] <= BlockNos(sb, logged)
    modifies log.cache`buf, log.cache`users, log.cache`at, log.cache`prev, log.cache`next, log.cache`order,
             log.cache`view, log.cache`pins, log`n, log`block, log`used, log`took, log`dirty
    ensures log.Inv()
    ensures o.Done? ==> && InOp(log, me) && Between(sb, nmeta, log.cache.view, f, g, todo - {t})
                        && log.took[0] <= BlockNos(sb, logged)
    ensures Excused(o, log.cache, me, HeldBy(old(log.cache.buf), me))
    ensures o.Done? ==> HeldBy(log.cache.buf, me) <= HeldBy(old(log.cache.buf), me)
  {
    hide Log.Inv, Between, Ordered, Kept, Claims, HeldSame, NewBlock;
    BetweenSizes(sb, nmeta, log.cache.view, f, g, todo);
    NumberInRange(sb, log.lay, nmeta, f, t, i);
    BetweenStep(sb, log.lay, nmeta, log.cache.view, f, g, todo, t, i);
    var bno := BlockNo(sb, t);
    assert bno in BlockNos(sb, logged);
    var r;
    o, r := BreadAs(log, bno, me);
    if !o.Done? {
      return;
    }
    ghost var held := HeldBy(log.cache.buf, me);
    log.Change(r, NewBlock(log.cache.buf[r].data, t, g, i), me);
    WriteTransactionFits(log, sb, logged, 3, 0, bno);
    var ok := log.LogWrite(r, me, 0);
    assert HeldBy(log.cache.buf, me) <= held;
    PutAs(log, r, me);
    o := Done;
  }

  /** All blocks of a transaction, in any order. */
  method LogBlocks(log: Log, sb: Super, logged: set<Touched>, g: Fs, i: nat, me: nat, ghost nmeta: nat, ghost f: Fs)
    returns (o: Outcome)
    requires InOp(log, me) && Planned(sb, log.lay, nmeta, f, g, i, logged)
    requires Between(sb, nmeta, log.cache.view, f, g, logged) && log.took[0] <= BlockNos(sb, logged)
    modifies log.cache`buf, log.cache`users, log.cache`at, log.cache`prev, log.cache`next, log.cache`order,
             log.cache`view, log.cache`pins, log`n, log`block, log`used, log`took, log`dirty
    ensures log.Inv()
    ensures o.Done? ==> InOp(log, me) && Shows(sb, nmeta, log.cache.view, g)
    ensures Excused(o, log.cache, me, HeldBy(old(log.cache.buf), me))
    ensures o.Done? ==> HeldBy(log.cache.buf, me) <= HeldBy(old(log.cache.buf), me)
  {
    hide Log.Inv, Between, Planned, Shows;
    var todo := logged;
    while todo != {}
      invariant todo <= logged && InOp(log, me) && Between(sb, nmeta, log.cache.view, f, g, todo)
      invariant log.took[0] <= BlockNos(sb, logged)
      invariant HeldBy(log.cache.buf, me) <= HeldBy(old(log.cache.buf), me)
      decreases |todo|
    {
      var t :| t in todo;
      o := LogBlock(log, sb, t, g, i, me, nmeta, f, logged, todo);
      if !o.Done? {
        return;
      }
      todo := todo - {t};
    }
    BetweenEnd(sb, nmeta, log.cache.view, f, g);
    o := Done;
  }

  // ---- a stop during a transaction ---------------------------------------------------------------

  /** A machine that stops with disk d, and then anywhere in any number of recoveries, comes back with f
      or with g. */
  ghost predicate ComesBack(lay: Layout, sb: Super, nmeta: nat, d: Disk, f: Fs, g: Fs) {
    && Recoverable(lay, d)
    && forall cuts: seq<nat> ::
         Shows(sb, nmeta, Reboots(lay, d, cuts), f) || Shows(sb, nmeta, Reboots(lay, d, cuts), g)
  }

  /** So does every disk there was since the first `from` of all writes. */
  ghost predicate AllAlong(lay: Layout, sb: Super, nmeta: nat, boot: Disk, from: nat, writes: seq<Write>, f: Fs,
                           g: Fs) {
    forall m: nat, d: Disk :: from <= m <= |writes| && HistoryOk(boot, writes[..m], d) ==>
      ComesBack(lay, sb, nmeta, d, f, g)
  }

  lemma SameHomesBack(lay: Layout, a: Disk, b: Disk)
    requires SameHomes(lay, a, b)
    ensures SameHomes(lay, b, a)
  {
  }

  lemma ShownAgain(sb: Super, lay: Layout, nmeta: nat, a: Disk, b: Disk, f: Fs)
    requires Shows(sb, nmeta, a, f) && SameHomes(lay, b, a) && Ordered(sb, lay, nmeta, f)
    ensures Shows(sb, nmeta, b, f)
  {
    hide Shows, Ordered;
    SameHomesBack(lay, b, a);
    ShowsHomes(sb, lay, nmeta, a, b, f);
  }

  /** A transaction that takes file system f to g, stopped after any number of its writes, leaves one of the
      two. */
  lemma StopLeavesOneOfTwo(lay: Layout, sb: Super, nmeta: nat, tx: Tx, f: Fs, g: Fs, k: nat)
    requires TxFine(lay, tx) && Ordered(sb, lay, nmeta, f) && Ordered(sb, lay, nmeta, g)
    requires Shows(sb, nmeta, tx.base, f) && Shows(sb, nmeta, NewHomes(lay, tx), g) && k <= |Writes(lay, tx)|
    ensures ComesBack(lay, sb, nmeta, Apply(tx.base, Writes(lay, tx)[..k]), f, g)
  {
    hide Shows, Ordered, CommitWrites, Updated, Recoverable, Reboots, SameHomes;
    var d := Apply(tx.base, Writes(lay, tx)[..k]);
    CrashAtomicity(lay, tx.base, tx.blocks, tx.vals, k, []);
    forall cuts: seq<nat>
      ensures Shows(sb, nmeta, Reboots(lay, d, cuts), f) || Shows(sb, nmeta, Reboots(lay, d, cuts), g)
    {
      CrashAtomicity(lay, tx.base, tx.blocks, tx.vals, k, cuts);
      if k <= |tx.blocks| {
        ShownAgain(sb, lay, nmeta, tx.base, Reboots(lay, d, cuts), f);
      } else {
        ShownAgain(sb, lay, nmeta, NewHomes(lay, tx), Reboots(lay, d, cuts), g);
      }
    }
  }

  /** The same for every disk since the transaction began to write. */
  lemma AlongTransaction(lay: Layout, sb: Super, nmeta: nat, boot: Disk, tx: Tx, f: Fs, g: Fs, k: nat)
    requires TxFine(lay, tx) && Ordered(sb, lay, nmeta, f) && Ordered(sb, lay, nmeta, g)
    requires Shows(sb, nmeta, tx.base, f) && Shows(sb, nmeta, NewHomes(lay, tx), g) && k <= |Writes(lay, tx)|
    requires HistoryOk(boot, tx.before, tx.base)
    ensures AllAlong(lay, sb, nmeta, boot, |tx.before|, tx.before + Writes(lay, tx)[..k], f, g)
  {
    hide Shows, Ordered, Writes, TxFine, HistoryOk, ComesBack, NewHomes;
    var writes := tx.before + Writes(lay, tx)[..k];
    forall m: nat, d: Disk | |tx.before| <= m <= |writes| && HistoryOk(boot, writes[..m], d)
      ensures ComesBack(lay, sb, nmeta, d, f, g)
    {
      var j := m - |tx.before|;
      assert writes[..m] == tx.before + Writes(lay, tx)[..j];
      HistorySince(boot, tx.before, tx.base, Writes(lay, tx)[..j], d);
      StopLeavesOneOfTwo(lay, sb, nmeta, tx, f, g, j);
    }
  }

  /** Before the commit of a transaction nothing of it is on disk. */
  lemma AlongIdle(log: Log, sb: Super, nmeta: nat, f: Fs, g: Fs)
    requires log.Inv() && Ordered(sb, log.lay, nmeta, f) && Shows(sb, nmeta, log.committed, f)
    ensures AllAlong(log.lay, sb, nmeta, log.cache.boot, |log.cache.writes|, log.cache.writes, f, g)
  {
    hide Log.Inv, Shows, Ordered, Recoverable, Reboots, SameHomes;
    Written(log);
    log.TransactionIsAtomic([]);
    forall cuts: seq<nat> ensures Shows(sb, nmeta, Reboots(log.lay, log.cache.disk, cuts), f) {
      log.TransactionIsAtomic(cuts);
      ShownAgain(sb, log.lay, nmeta, log.committed, Reboots(log.lay, log.cache.disk, cuts), f);
    }
    var writes := log.cache.writes;
    forall m: nat, d: Disk | |writes| <= m <= |writes| && HistoryOk(log.cache.boot, writes[..m], d)
      ensures ComesBack(log.lay, sb, nmeta, d, f, g)
    {
      assert writes[..m] == writes && d == log.cache.disk;
    }
  }

  lemma Written(log: Log)
    requires log.Inv()
    ensures HistoryOk(log.cache.boot, log.cache.writes, log.cache.disk)
  {
    hide RingOk, IndexOk, ViewOk, BufsOk, HistoryOk, InCommit, LogSpace.Inv, PinsOk, DirtyOk;
  }

  // ---- filewrite ---------------------------------------------------------------------------------

  /** Between transactions: every inode is saved, and memory and the committed disk show the files. */
  ghost predicate Idle(log: Log, fs: FileSystem, sb: Super)
    reads log, log.cache, fs
  {
    && log.Inv() && !log.committing && log.outstanding == 0 && log.dirty == {}
    && fs.Valid() && fs.loan == 0 && fs.dinode == fs.inode && |fs.bits| <= 3
    && Ordered(sb, log.lay, fs.nmeta, Saved(fs))
    && Shows(sb, fs.nmeta, log.cache.view, Saved(fs)) && Shows(sb, fs.nmeta, log.committed, Saved(fs))
  }

  lemma EmptyLog(log: Log)
    requires log.Inv() && !log.committing && log.outstanding == 0
    ensures log.n == 0 && SameHomes(log.lay, log.cache.disk, log.committed)
  {
  }

  /** A commit that begins takes the disk to what memory shows. */
  lemma CommitShows(log: Log, sb: Super, nmeta: nat, g: Fs)
    requires log.Inv() && log.committing && Ordered(sb, log.lay, nmeta, g) && Shows(sb, nmeta, log.cache.view, g)
    ensures TxFine(log.lay, log.tx) && Shows(sb, nmeta, NewHomes(log.lay, log.tx), g)
  {
    hide Bcache.Valid, PinsOk, DirtyOk, LogSpace.Inv, HistoryOk, CommitWrites, Updated, OnDisk, Shows, Ordered;
    ShowsHomes(sb, log.lay, nmeta, log.cache.view, NewHomes(log.lay, log.tx), g);
  }

  /** end_op of the only operation, and the commit it makes. */
  method EndAndCommit(log: Log, sb: Super, me: nat, ghost nmeta: nat, ghost f: Fs, ghost g: Fs) returns (o: Outcome)
    requires InOp(log, me) && Ordered(sb, log.lay, nmeta, f) && Ordered(sb, log.lay, nmeta, g)
    requires Shows(sb, nmeta, log.committed, f) && Shows(sb, nmeta, log.cache.view, g)
    modifies log, log.cache
    ensures log.Inv() && old(log.cache.writes) <= log.cache.writes
    ensures AllAlong(log.lay, sb, nmeta, log.cache.boot, old(|log.cache.writes|), log.cache.writes, f, g)
    ensures o.Done? ==> && !log.committing && log.outstanding == 0 && log.dirty == {}
                        && Shows(sb, nmeta, log.cache.view, g) && Shows(sb, nmeta, log.committed, g)
    ensures Excused(o, log.cache, me, HeldBy(old(log.cache.buf), me))
    ensures o.Done? ==> HeldBy(log.cache.buf, me) <= HeldBy(old(log.cache.buf), me)
  {
    hide Log.Inv, Shows, Ordered, Claims, Writes, TxFine, SameHomes, AllAlong, HistoryOk, NewHomes;
    DiskShows(log, sb, nmeta, f);
    Written(log);
    var doCommit := log.EndOp(me, 0);
    CommitShows(log, sb, nmeta, g);
    ghost var tx0, view0, n0 := log.tx, log.cache.view, log.n;
    o := FinishCommit(log, me);
    if o.Done? {
      ShownAgain(sb, log.lay, nmeta, view0, log.cache.view, g);
      ShownAgain(sb, log.lay, nmeta, view0, log.committed, g);
      AlongDone(log.lay, sb, nmeta, log.cache.boot, tx0, f, g, n0 == 0, log.cache.writes);
    } else {
      CommitFacts(log, tx0);
      AlongTransaction(log.lay, sb, nmeta, log.cache.boot, tx0, f, g, log.tx.done);
    }
  }

  lemma AlongDone(lay: Layout, sb: Super, nmeta: nat, boot: Disk, tx: Tx, f: Fs, g: Fs, empty: bool,
                  writes: seq<Write>)
    requires TxFine(lay, tx) && Ordered(sb, lay, nmeta, f) && Ordered(sb, lay, nmeta, g)
    requires Shows(sb, nmeta, tx.base, f) && Shows(sb, nmeta, NewHomes(lay, tx), g)
    requires HistoryOk(boot, tx.before, tx.base) && writes == tx.before + if empty then [] else Writes(lay, tx)
    ensures AllAlong(lay, sb, nmeta, boot, |tx.before|, writes, f, g)
  {
    hide Shows, Ordered, Writes, TxFine, AllAlong, HistoryOk, NewHomes;
    var k := if empty then 0 else |Writes(lay, tx)|;
    assert writes == tx.before + Writes(lay, tx)[..k];
    AlongTransaction(lay, sb, nmeta, boot, tx, f, g, k);
  }

  lemma DiskShows(log: Log, sb: Super, nmeta: nat, f: Fs)
    requires log.Inv() && !log.committing && Ordered(sb, log.lay, nmeta, f) && Shows(sb, nmeta, log.committed, f)
    ensures Shows(sb, nmeta, log.cache.disk, f)
  {
    hide Bcache.Valid, PinsOk, DirtyOk, LogSpace.Inv, Shows, Ordered;
    SameHomesBack(log.lay, log.cache.disk, log.committed);
    ShowsHomes(sb, log.lay, nmeta, log.committed, log.cache.disk, f);
  }

  lemma AllSaved(dinode0: seq<Inode>, inode0: seq<Inode>, dinode: seq<Inode>, inode: seq<Inode>, i: nat)
    requires dinode0 == inode0 && |inode| == |inode0| && i < |inode| && |dinode| == |inode|
    requires dinode == dinode0[i := dinode[i]] && dinode[i] == inode[i]
    requires forall j :: 0 <= j < |inode| && j != i ==> inode[j] == inode0[j]
    ensures dinode == inode
  {
  }

  /** What WriteTransaction leaves is what LogBlocks needs. */
  lemma Plan(fs: FileSystem, lay: Layout, sb: Super, f: Fs, i: nat)
    requires fs.Valid() && i < |fs.inode| && fs.dinode == fs.inode && |fs.logged| <= 6 + |fs.bits| && |fs.bits| <= 3
    requires ChangesLogged(f.data, f.bits, {}, fs.data, fs.bits, fs.logged) && Ordered(sb, lay, fs.nmeta, f)
    requires i < |f.inode| == |fs.dinode| && fs.dinode == f.inode[i := fs.dinode[i]]
    requires forall t :: t in fs.logged ==> fs.OnDisk(t, i)
    ensures Planned(sb, lay, fs.nmeta, f, Saved(fs), i, fs.logged) && Ordered(sb, lay, fs.nmeta, Saved(fs))
  {
    hide TableOk, OwnersOk, BitsOk, DenseOk;
    InodeFits(fs, i);
    forall t | t in fs.logged ensures Touchable(fs.nmeta, f, t, i) {
      assert fs.OnDisk(t, i);
    }
  }

  /** One chunk of filewrite, begin_op to end_op: after each of its disk writes a stop leaves the files from
      before it or those from after it. */
  method WriteLogged(log: Log, fs: FileSystem, sb: Super, i: nat, off: Word32, src: seq<Byte>, fails: nat -> bool,
                     me: nat)
    returns (o: Outcome, r: int)
    requires Idle(log, fs, sb) && i < |fs.inode| && |src| <= CHUNK
    modifies fs, log, log.cache
    ensures fs.Valid() && fs.loan == 0 && fs.dinode == fs.inode && |fs.inode| == old(|fs.inode|)
    ensures r == -1 <==> off > old(fs.inode[i].size) || off + |src| > MAXFILE * BSIZE
    ensures r == -1 ==> fs.File(i) == old(fs.File(i))
    ensures r != -1 ==> && 0 <= r <= |src| && |old(fs.File(i))| == old(fs.inode[i].size)
                        && fs.File(i) == Splice(old(fs.File(i)), off, src[..r])
                        && (r < |src| ==> fails(r) || fs.DiskFull()) && CopiesWork(fails, off, r)
    ensures fs.inode[i].size == |fs.File(i)|
    ensures forall j :: 0 <= j < |fs.inode| && j != i ==>
              fs.inode[j] == old(fs.inode[j]) && fs.File(j) == old(fs.File(j))
    ensures log.Inv() && old(log.cache.writes) <= log.cache.writes
    ensures AllAlong(log.lay, sb, fs.nmeta, log.cache.boot, old(|log.cache.writes|), log.cache.writes,
                     old(Saved(fs)), Saved(fs))
    ensures o.Done? ==> Idle(log, fs, sb)
    ensures Excused(o, log.cache, me, HeldBy(old(log.cache.buf), me))
    ensures o.Done? ==> HeldBy(log.cache.buf, me) <= HeldBy(old(log.cache.buf), me)
  {
    hide Log.Inv, Shows, Ordered, Between, fs.Valid, Content, Splice, ChangesLogged, fs.OnDisk, AllAlong;
    ghost var f := Saved(fs);
    EmptyLog(log);
    var started := log.BeginOp(me);
    r := fs.WriteTransaction(i, off, src, fails);
    var g := Fs(fs.bits, fs.data, fs.dinode);
    AllSaved(f.inode, old(fs.inode), fs.dinode, fs.inode, i);
    Plan(fs, log.lay, sb, f, i);
    BetweenStart(sb, fs.nmeta, log.cache.view, f, g, i, fs.logged);
    o := LogBlocks(log, sb, fs.logged, g, i, me, fs.nmeta, f);
    if o.Done? {
      o := EndAndCommit(log, sb, me, fs.nmeta, f, g);
    } else {
      AlongIdle(log, sb, fs.nmeta, f, g);
    }
  }

  /** File system f is `was` with the first k bytes of src written to file i at off: a good file system,
      with every other file as it was. */
  ghost predicate HoldsPrefix(nmeta: nat, was: Fs, f: Fs, i: nat, off: nat, src: seq<Byte>, k: nat) {
    && Good(nmeta, f) && i < |was.inode| == |f.inode| && k <= |src|
    && FileOf(f, i) == (if off <= |FileOf(was, i)| then Splice(FileOf(was, i), off, src[..k]) else FileOf(was, i))
    && forall j :: 0 <= j < |was.inode| && j != i ==> FileOf(f, j) == FileOf(was, j)
  }

  /** The end of a chunk of filewrite, when `last` bytes are in all. */
  predicate ChunkEnd(k: nat, last: nat) {
    k == last || (k < last && k % CHUNK == 0)
  }

  ghost predicate ShowsChunks(sb: Super, nmeta: nat, d: Disk, was: Fs, i: nat, off: nat, src: seq<Byte>, last: nat) {
    exists h: Fs, k: nat :: ChunkEnd(k, last) && Shows(sb, nmeta, d, h) && HoldsPrefix(nmeta, was, h, i, off, src, k)
  }

  /** A machine that stops with disk d, and then anywhere in any number of recoveries, comes back with the
      bytes of some whole number of chunks in file i, and with every other file as it was. */
  ghost predicate KeepsChunks(lay: Layout, sb: Super, nmeta: nat, d: Disk, was: Fs, i: nat, off: nat, src: seq<Byte>,
                              last: nat) {
    && Recoverable(lay, d)
    && forall cuts: seq<nat> :: ShowsChunks(sb, nmeta, Reboots(lay, d, cuts), was, i, off, src, last)
  }

  /** So does every disk there was since the first `from` of all writes. */
  ghost predicate AtomicAlong(lay: Layout, sb: Super, nmeta: nat, boot: Disk, from: nat, writes: seq<Write>, was: Fs,
                              i: nat, off: nat, src: seq<Byte>, last: nat) {
    forall m: nat, d: Disk :: from <= m <= |writes| && HistoryOk(boot, writes[..m], d) ==>
      KeepsChunks(lay, sb, nmeta, d, was, i, off, src, last)
  }

  lemma OneOfTwoChunks(lay: Layout, sb: Super, nmeta: nat, d: Disk, was: Fs, f: Fs, g: Fs, i: nat, off: nat,
                       src: seq<Byte>, k0: nat, k1: nat)
    requires ComesBack(lay, sb, nmeta, d, f, g) && ChunkEnd(k0, k1)
    requires HoldsPrefix(nmeta, was, f, i, off, src, k0) && HoldsPrefix(nmeta, was, g, i, off, src, k1)
    ensures KeepsChunks(lay, sb, nmeta, d, was, i, off, src, k1)
  {
    hide Shows, HoldsPrefix, Recoverable, Reboots;
    forall cuts: seq<nat> ensures ShowsChunks(sb, nmeta, Reboots(lay, d, cuts), was, i, off, src, k1) {
      if Shows(sb, nmeta, Reboots(lay, d, cuts), f) {
        assert HoldsPrefix(nmeta, was, f, i, off, src, k0);
      } else {
        assert HoldsPrefix(nmeta, was, g, i, off, src, k1);
      }
    }
  }

  /** The chunks so far count as before when one more follows. */
  lemma ChunksStay(lay: Layout, sb: Super, nmeta: nat, d: Disk, was: Fs, i: nat, off: nat, src: seq<Byte>, k0: nat,
                   k1: nat)
    requires KeepsChunks(lay, sb, nmeta, d, was, i, off, src, k0) && ChunkEnd(k0, k1)
    ensures KeepsChunks(lay, sb, nmeta, d, was, i, off, src, k1)
  {
    hide Shows, HoldsPrefix, Recoverable, Reboots;
    forall cuts: seq<nat> ensures ShowsChunks(sb, nmeta, Reboots(lay, d, cuts), was, i, off, src, k1) {
      assert ShowsChunks(sb, nmeta, Reboots(lay, d, cuts), was, i, off, src, k0);
      var h: Fs, k: nat :| ChunkEnd(k, k0) && Shows(sb, nmeta, Reboots(lay, d, cuts), h)
                           && HoldsPrefix(nmeta, was, h, i, off, src, k);
      assert ChunkEnd(k, k1);
    }
  }

  /** One chunk more on disks that were atomic so far. */
  lemma AtomicChunk(lay: Layout, sb: Super, nmeta: nat, boot: Disk, from: nat, writes0: seq<Write>,
                    writes: seq<Write>, was: Fs, f: Fs, g: Fs, i: nat, off: nat, src: seq<Byte>, k0: nat, k1: nat)
    requires AtomicAlong(lay, sb, nmeta, boot, from, writes0, was, i, off, src, k0) && writes0 <= writes
    requires AllAlong(lay, sb, nmeta, boot, |writes0|, writes, f, g) && ChunkEnd(k0, k1)
    requires HoldsPrefix(nmeta, was, f, i, off, src, k0) && HoldsPrefix(nmeta, was, g, i, off, src, k1)
    ensures AtomicAlong(lay, sb, nmeta, boot, from, writes, was, i, off, src, k1)
  {
    hide ComesBack, KeepsChunks, HoldsPrefix, HistoryOk, ChunkEnd;
    forall m: nat, d: Disk | from <= m <= |writes| && HistoryOk(boot, writes[..m], d)
      ensures KeepsChunks(lay, sb, nmeta, d, was, i, off, src, k1)
    {
      if m < |writes0| {
        assert writes[..m] == writes0[..m];
        ChunksStay(lay, sb, nmeta, d, was, i, off, src, k0, k1);
      } else {
        OneOfTwoChunks(lay, sb, nmeta, d, was, f, g, i, off, src, k0, k1);
      }
    }
  }

  lemma Untouched(log: Log, fs: FileSystem, sb: Super, i: nat, off: nat, src: seq<Byte>)
    requires Idle(log, fs, sb) && i < |fs.inode|
    ensures HoldsPrefix(fs.nmeta, Saved(fs), Saved(fs), i, off, src, 0)
    ensures AtomicAlong(log.lay, sb, fs.nmeta, log.cache.boot, |log.cache.writes|, log.cache.writes, Saved(fs), i, off,
                        src, 0)
  {
    hide Log.Inv, Shows, Ordered, fs.Valid, FileOf, Good, AtomicAlong, AllAlong, HoldsPrefix, KeepsChunks, ComesBack,
      HistoryOk;
    var f, w := Saved(fs), log.cache.writes;
    NothingYet(fs, i, off, src);
    AlongIdle(log, sb, fs.nmeta, f, f);
    AtomicStart(log.lay, sb, fs.nmeta, log.cache.boot, w, f, i, off, src);
  }

  lemma NothingYet(fs: FileSystem, i: nat, off: nat, src: seq<Byte>)
    requires fs.Valid() && fs.loan == 0 && fs.dinode == fs.inode && i < |fs.inode|
    ensures HoldsPrefix(fs.nmeta, Saved(fs), Saved(fs), i, off, src, 0)
  {
    hide fs.Valid, FileOf, Good;
    SavedIs(fs);
    SpliceNothing(FileOf(Saved(fs), i), off, src);
    assert src[..0] == [];
  }

  lemma AtomicStart(lay: Layout, sb: Super, nmeta: nat, boot: Disk, writes: seq<Write>, f: Fs, i: nat, off: nat,
                    src: seq<Byte>)
    requires AllAlong(lay, sb, nmeta, boot, |writes|, writes, f, f) && HoldsPrefix(nmeta, f, f, i, off, src, 0)
    ensures AtomicAlong(lay, sb, nmeta, boot, |writes|, writes, f, i, off, src, 0)
  {
    hide ComesBack, KeepsChunks, HoldsPrefix, HistoryOk;
    forall m: nat, d: Disk | |writes| <= m <= |writes| && HistoryOk(boot, writes[..m], d)
      ensures KeepsChunks(lay, sb, nmeta, d, f, i, off, src, 0)
    {
      OneOfTwoChunks(lay, sb, nmeta, d, f, f, f, i, off, src, 0, 0);
    }
  }

  /** One chunk more: what WriteLogged says of the files, as a step from k0 bytes to k0 + w. */
  lemma OneChunk(fs: FileSystem, was: Fs, before: Fs, i: nat, off: nat, src: seq<Byte>, k0: nat, n1: nat, w: int)
    requires fs.Valid() && fs.loan == 0 && fs.dinode == fs.inode && |fs.inode| == |before.inode|
    requires HoldsPrefix(fs.nmeta, was, before, i, off, src, k0) && k0 + n1 <= |src| && -1 <= w <= n1
    requires i < |fs.inode| && (w == -1 ==> fs.File(i) == FileOf(before, i))
    requires w >= 0 ==> && off + k0 <= |FileOf(before, i)|
                        && fs.File(i) == Splice(FileOf(before, i), off + k0, src[k0..k0 + n1][..w])
    requires forall j :: 0 <= j < |fs.inode| && j != i ==> fs.File(j) == FileOf(before, j)
    ensures HoldsPrefix(fs.nmeta, was, Saved(fs), i, off, src, k0 + if w >= 0 then w else 0)
  {
    hide fs.Valid, FileOf, Good, Splice, Content;
    SavedIs(fs);
    if w >= 0 {
      SpliceMore(FileOf(was, i), off, src, k0, src[k0..k0 + n1][..w], FileOf(before, i));
    }
  }

  lemma SpliceReaches(was: seq<Byte>, off: nat, piece: seq<Byte>)
    requires off <= |was|
    ensures off + |piece| <= |Splice(was, off, piece)|
  {
  }

  /** How far filewrite has got: the first `done` bytes are in, and so it was on every disk since `from`. */
  ghost predicate Progress(log: Log, fs: FileSystem, sb: Super, from: nat, was: Fs, size0: nat, i: nat, off: nat,
                           src: seq<Byte>, fails: nat -> bool, done: nat)
    reads log, log.cache, fs
  {
    && i < |fs.inode| == |fs.dinode| == |was.inode| && done <= |src|
    && AtomicAlong(log.lay, sb, fs.nmeta, log.cache.boot, from, log.cache.writes, was, i, off, src, done)
    && HoldsPrefix(fs.nmeta, was, Saved(fs), i, off, src, done) && ChunksWork(fails, off, done)
    && if done == 0 then fs.inode[i].size == size0 else off <= size0 && off + done <= fs.inode[i].size
  }

  /** One turn of filewrite's loop, n1 bytes from k on. */
  method WriteOnce(log: Log, fs: FileSystem, sb: Super, ghost from: nat, ghost was: Fs, ghost size0: nat, i: nat,
                   off: nat, src: seq<Byte>, fails: nat -> bool, k: nat, n1: nat, me: nat)
    returns (o: Outcome, w: int, ghost done: nat)
    requires Idle(log, fs, sb) && Progress(log, fs, sb, from, was, size0, i, off, src, fails, k)
    requires k + n1 <= |src| && 0 < n1 <= CHUNK && k % CHUNK == 0 && off + k < 0x1_0000_0000
    modifies fs, log, log.cache
    ensures log.Inv() && old(log.cache.writes) <= log.cache.writes && |fs.inode| == old(|fs.inode|)
    ensures -1 <= w <= n1 && done == k + (if w >= 0 then w else 0) && (w == CHUNK ==> (k + w) % CHUNK == 0)
    ensures Progress(log, fs, sb, from, was, size0, i, off, src, fails, done) && off + done < 0x1_0000_0000
    ensures w < n1 ==> MayStop(size0, off, |src|, done, fails, fs.DiskFull())
    ensures Excused(o, log.cache, me, HeldBy(old(log.cache.buf), me))
    ensures o.Done? ==> Idle(log, fs, sb) && HeldBy(log.cache.buf, me) <= HeldBy(old(log.cache.buf), me)
  {
    hide Log.Inv, Shows, Ordered, fs.Valid, Content, Splice, HoldsPrefix, AllAlong, AtomicAlong, FileOf, ChunksWork,
      CopiesWork, MayStop, HeldBy, Excused;
    ghost var before, writes0 := Saved(fs), log.cache.writes;
    SavedIs(fs);
    fs.FileLength(i);
    var here := (t: nat) => fails(k + t);
    o, w := WriteLogged(log, fs, sb, i, off + k, src[k..k + n1], here, me);
    done := k + if w >= 0 then w else 0;
    OneChunk(fs, was, before, i, off, src, k, n1, w);
    AtomicChunk(log.lay, sb, fs.nmeta, log.cache.boot, from, writes0, log.cache.writes, was, before, Saved(fs), i,
                off, src, k, done);
    if w >= 0 {
      SpliceReaches(FileOf(before, i), off + k, src[k..k + n1][..w]);
      SpliceNothing(FileOf(before, i), off + k, src[k..k + n1]);
      MoreChunks(fails, here, off, k, w);
    }
    if w < n1 {
      StopCause(size0, off, |src|, k, n1, w, fails, here, fs.DiskFull());
    }
  }

  /** filewrite on an inode, n bytes of src at the file offset, one transaction per 3 blocks. A stop after
      any of its disk writes leaves a good file system whose file i has the bytes of some whole number of
      chunks, and whose other files are as they were. A call that ends has written all n bytes unless the
      offset, the largest size, a copy or the disk stopped it; one that does not end has no buffer or waits. */
  method FileWriteLogged(log: Log, fs: FileSystem, sb: Super, i: nat, off: Word32, n: int, src: seq<Byte>,
                         fails: nat -> bool, me: nat)
    returns (o: Outcome, r: int, off': nat, ghost done: nat)
    requires Idle(log, fs, sb) && i < |fs.inode|
    requires |src| == (if n < 0 then 0 else n) && n < 0x8000_0000
    modifies fs, log, log.cache
    ensures log.Inv() && old(log.cache.writes) <= log.cache.writes
    ensures AtomicAlong(log.lay, sb, fs.nmeta, log.cache.boot, old(|log.cache.writes|), log.cache.writes,
                        old(Saved(fs)), i, off, src, done)
    ensures o.Done? ==> && Idle(log, fs, sb) && HoldsPrefix(fs.nmeta, old(Saved(fs)), Saved(fs), i, off, src, done)
                        && r == (if done == n then n else -1) && off' == off + done
    ensures o.Done? && done < n ==> MayStop(old(fs.inode[i].size), off, n, done, fails, fs.DiskFull())
    ensures ChunksWork(fails, off, done)
    ensures Excused(o, log.cache, me, HeldBy(old(log.cache.buf), me))
  {
    hide Log.Inv, Idle, Shows, fs.Valid, HoldsPrefix, AtomicAlong, ChunksWork, MayStop, HeldBy, Progress;
    ghost var was, from, size0 := Saved(fs), |log.cache.writes|, fs.inode[i].size;
    var k: nat, stop := 0, false;
    o, r, off', done := Done, -1, off, 0;
    ProgressStart(log, fs, sb, i, off, src, fails);
    while k < n && !stop
      invariant Idle(log, fs, sb) && old(log.cache.writes) <= log.cache.writes && log.Inv()
      invariant Progress(log, fs, sb, from, was, size0, i, off, src, fails, done)
      invariant 0 <= k <= done <= |src| && off' == off + done < 0x1_0000_0000 && (!stop ==> k == done)
      invariant stop ==> k < n && done < n && MayStop(size0, off, n, done, fails, fs.DiskFull())
      invariant !stop && k < n ==> k % CHUNK == 0
      invariant o.Done? && HeldBy(log.cache.buf, me) <= HeldBy(old(log.cache.buf), me)
      decreases n - k, !stop
    {
      var n1 := if n - k > CHUNK then CHUNK else n - k;
      var w;
      o, w, done := WriteOnce(log, fs, sb, from, was, size0, i, off, src, fails, k, n1, me);
      if !o.Done? {
        ProgressIs(log, fs, sb, from, was, size0, i, off, src, fails, done);
        return;
      }
      if w >= 0 {
        off' := off' + w;
      }
      if w != n1 {
        stop := true;
      } else {
        k := k + w;
      }
    }
    r := if k == n then n else -1;
    ProgressIs(log, fs, sb, from, was, size0, i, off, src, fails, done);
  }

  lemma ProgressStart(log: Log, fs: FileSystem, sb: Super, i: nat, off: nat, src: seq<Byte>, fails: nat -> bool)
    requires Idle(log, fs, sb) && i < |fs.inode|
    ensures Progress(log, fs, sb, |log.cache.writes|, Saved(fs), fs.inode[i].size, i, off, src, fails, 0) && log.Inv()
  {
    hide Log.Inv, Shows, Ordered, HoldsPrefix, AtomicAlong, ChunksWork;
    Untouched(log, fs, sb, i, off, src);
    NoChunksYet(fails, off);
  }

  lemma ProgressIs(log: Log, fs: FileSystem, sb: Super, from: nat, was: Fs, size0: nat, i: nat, off: nat,
                   src: seq<Byte>, fails: nat -> bool, done: nat)
    requires Progress(log, fs, sb, from, was, size0, i, off, src, fails, done)
    ensures AtomicAlong(log.lay, sb, fs.nmeta, log.cache.boot, from, log.cache.writes, was, i, off, src, done)
    ensures HoldsPrefix(fs.nmeta, was, Saved(fs), i, off, src, done) && ChunksWork(fails, off, done)
  {
  }
}
