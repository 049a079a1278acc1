/** The log's share of booting: read_head, install_trans(1) and write_head, run by the first
    process before any other exists, so no other process uses a buffer. */
module LogRecovery {
  import opened Blocks
  import opened Counting
  import opened LruRing
  import opened CrashRecovery
  import opened BufferCache
  import opened LogSpace

  /** Nothing is pinned and every valid copy is clean. */
  ghost predicate Clean(lay: Layout, cache: Bcache)
    reads cache
    ensures Clean(lay, cache) ==> cache.Valid() && DiskOk(lay, cache.disk)
  {
    && cache.Valid() && DiskOk(lay, cache.disk)
    && forall i :: 0 <= i < NBUF ==> cache.pins[i] == 0 && CleanCopy(cache.buf[i], cache.disk)
  }

  ghost predicate CleanCopy(b: Buf, disk: Disk) {
    b.dev != 0 && b.valid && b.blockno < |disk| ==> b.data == disk[b.blockno]
  }

  /** No process is using a buffer. */
  ghost predicate Quiet(cache: Bcache)
    reads cache
  {
    |cache.users| == NBUF && forall i :: 0 <= i < NBUF ==> cache.users[i] == multiset{}
  }

  /** The only buffers in use are `to` and, unless it is the same, `from`, once each by pid. */
  ghost predicate Holding(cache: Bcache, pid: nat, to: int, from: int)
    reads cache
  {
    && |cache.users| == |cache.buf| == NBUF && 0 <= to < NBUF && 0 <= from < NBUF
    && Holds(cache.buf[to], pid) && cache.buf[to].valid
    && Holds(cache.buf[from], pid) && cache.buf[from].valid
    && forall i :: 0 <= i < NBUF ==> cache.users[i] == if i == to || i == from then multiset{pid} else multiset{}
  }

  /** A clean cache shows the disk. */
  lemma CleanView(lay: Layout, cache: Bcache)
    requires Clean(lay, cache)
    ensures cache.view == cache.disk
  {
    hide RingOk, HistoryOk;
    forall k | 0 <= k < |cache.disk| ensures cache.view[k] == cache.disk[k] {
      var i := cache.at[k];
      if i >= 0 { assert CleanCopy(cache.buf[i], cache.disk); }
    }
  }

  /** A cache nobody uses or pins is clean. */
  lemma Untouched(lay: Layout, cache: Bcache)
    requires cache.Valid() && DiskOk(lay, cache.disk)
    requires forall i :: 0 <= i < NBUF ==> cache.users[i] == multiset{} && cache.pins[i] == 0
    ensures Clean(lay, cache) && Quiet(cache) && cache.view == cache.disk
  {
    hide RingOk, HistoryOk;
    assert Clean(lay, cache);
    CleanView(lay, cache);
  }

  /** bread when nothing is held. */
  method GetFirst(lay: Layout, cache: Bcache, bno: nat, pid: nat) returns (i: nat)
    requires Clean(lay, cache) && Quiet(cache) && bno < |cache.disk|
    modifies cache`buf, cache`users, cache`at
    ensures Clean(lay, cache) && Holding(cache, pid, i, i)
    ensures cache.buf[i].blockno == bno && cache.buf[i].data == cache.view[bno]
  {
    hide RingOk, HistoryOk, ViewOk;
    CleanView(lay, cache);
    assert cache.buf[0].refcnt == 0;
    var r, granted := cache.Bread(ROOTDEV, bno, pid);
    i := r;
  }

  /** bread of another block while one buffer is held. */
  method GetSecond(lay: Layout, cache: Bcache, to: nat, bno: nat, pid: nat) returns (from: nat)
    requires Clean(lay, cache) && Holding(cache, pid, to, to) && bno < |cache.disk| && bno != cache.buf[to].blockno
    modifies cache`buf, cache`users, cache`at
    ensures Clean(lay, cache) && Holding(cache, pid, to, from) && to != from
    ensures cache.buf[to] == old(cache.buf[to])
    ensures cache.buf[from].blockno == bno && cache.buf[from].data == cache.view[bno]
  {
    hide RingOk, HistoryOk, ViewOk;
    CleanView(lay, cache);
    assert cache.buf[if to == 0 then 1 else 0].refcnt == 0;
    var r, granted := cache.Bread(ROOTDEV, bno, pid);
    from := r;
  }

  /** Change a held buffer and write it straight to disk. */
  method Store(lay: Layout, cache: Bcache, i: nat, d: Block, pid: nat, ghost other: nat)
    requires Clean(lay, cache) && Holding(cache, pid, i, other)
    modifies cache`buf, cache`view, cache`disk, cache`writes
    ensures Clean(lay, cache) && Holding(cache, pid, i, other)
    ensures cache.buf == old(cache.buf)[i := old(cache.buf[i]).(data := d)]
    ensures var k := cache.buf[i].blockno;
            && cache.view == old(cache.view)[k := d] && cache.disk == old(cache.disk)[k := d]
            && cache.writes == old(cache.writes) + [Write(k, d)]
  {
    hide RingOk, HistoryOk, ViewOk, Kept;
    cache.SetData(i, d, pid);
    cache.Bwrite(i, pid);
  }

  /** brelse of one of two held buffers. */
  method PutFirst(lay: Layout, cache: Bcache, from: nat, to: nat, pid: nat)
    requires Clean(lay, cache) && Holding(cache, pid, to, from) && to != from
    modifies cache`buf, cache`users, cache`prev, cache`next, cache`order
    ensures Clean(lay, cache) && Holding(cache, pid, to, to) && cache.buf[to] == old(cache.buf[to])
  {
    hide RingOk, HistoryOk, ViewOk, Kept, Before;
    cache.Brelse(from, pid);
  }

  /** brelse of the last held buffer. */
  method PutLast(lay: Layout, cache: Bcache, i: nat, pid: nat)
    requires Clean(lay, cache) && Holding(cache, pid, i, i)
    modifies cache`buf, cache`users, cache`prev, cache`next, cache`order
    ensures Clean(lay, cache) && Quiet(cache)
  {
    hide RingOk, HistoryOk, ViewOk, Kept, Before;
    cache.Brelse(i, pid);
  }

  /** The header block with the in-memory header put over its old bytes. */
  method HeaderImage(h: Block, n: nat, block: seq<nat>) returns (r: Block)
    requires n <= |block| && n < WORDS && forall t :: 0 <= t < n ==> block[t] < 0x1_0000_0000
    ensures r == PutHeader(h, block[..n])
  {
    r := PutWord(h, 0, n);
    for i := 0 to n
      invariant r == PutEntries(PutWord(h, 0, n), block[..i])
    {
      assert block[..i + 1][..i] == block[..i];
      r := PutWord(r, i + 1, block[i]);
    }
  }

  /** write_head with an empty header: the log is cleared. */
  method ClearHead(lay: Layout, cache: Bcache, pid: nat)
    requires Clean(lay, cache) && Quiet(cache)
    modifies cache
    ensures Clean(lay, cache) && Quiet(cache)
    ensures var h := PutHeader(old(cache.view[lay.start]), []);
            && cache.view == old(cache.view)[lay.start := h] && cache.disk == old(cache.disk)[lay.start := h]
            && cache.writes == old(cache.writes) + [Write(lay.start, h)]
  {
    hide Clean, Bcache.Valid;
    var b := GetFirst(lay, cache, lay.start, pid);
    var h := HeaderImage(cache.buf[b].data, 0, []);
    Store(lay, cache, b, h, pid, b);
    PutLast(lay, cache, b, pid);
  }

  /** Read the log header from disk into the in-memory log header. */
  method ReadHead(lay: Layout, cache: Bcache, pid: nat) returns (n: nat, block: seq<nat>)
    requires Clean(lay, cache) && Quiet(cache) && Word(cache.view[lay.start], 0) < LOGBLOCKS
    modifies cache`buf, cache`users, cache`at, cache`prev, cache`next, cache`order
    ensures Clean(lay, cache) && Quiet(cache) && |block| == LOGBLOCKS && n < LOGBLOCKS
    ensures block[..n] == HeaderBlocks(cache.view[lay.start])
  {
    hide Clean, Bcache.Valid;
    block := seq(LOGBLOCKS, _ => 0);
    var b := GetFirst(lay, cache, lay.start, pid);
    var h := cache.buf[b].data;
    n := Word(h, 0);
    for i := 0 to n
      invariant |block| == LOGBLOCKS
      invariant forall t :: 0 <= t < i ==> block[t] == Word(h, t + 1)
    {
      block := block[i := Word(h, i + 1)];
    }
    PutLast(lay, cache, b, pid);
  }

  /** One turn of install_trans(1): copy a log slot to its home block. */
  method InstallOne(lay: Layout, cache: Bcache, tail: nat, home: nat, pid: nat)
    requires Clean(lay, cache) && Quiet(cache)
    requires tail + 1 < lay.size && home < |cache.disk| && !InLog(lay, home)
    modifies cache
    ensures Clean(lay, cache) && Quiet(cache)
    ensures var v := old(cache.view[lay.start + 1 + tail]);
            && cache.view == old(cache.view)[home := v] && cache.disk == old(cache.disk)[home := v]
            && cache.writes == old(cache.writes) + [Write(home, v)]
  {
    hide Clean, Bcache.Valid, Quiet;
    var lbuf := GetFirst(lay, cache, lay.start + 1 + tail, pid);
    var dbuf := GetSecond(lay, cache, lbuf, home, pid);
    Swap(cache, pid, lbuf, dbuf);
    Store(lay, cache, dbuf, cache.buf[lbuf].data, pid, lbuf);
    PutFirst(lay, cache, lbuf, dbuf, pid);
    PutLast(lay, cache, dbuf, pid);
  }

  lemma Swap(cache: Bcache, pid: nat, a: nat, b: nat)
    requires Holding(cache, pid, a, b)
    ensures Holding(cache, pid, b, a)
  {
  }

  /** install_trans(1): copy the blocks a committed transaction logged to their homes. */
  method InstallTrans(lay: Layout, cache: Bcache, n: nat, block: seq<nat>, pid: nat)
    requires Clean(lay, cache) && Quiet(cache) && n <= |block| && n + 1 <= lay.size
    requires forall t :: 0 <= t < n ==> block[t] < |cache.disk| && !InLog(lay, block[t])
    modifies cache
    ensures Clean(lay, cache) && Quiet(cache) && |cache.disk| == old(|cache.disk|)
    ensures cache.writes == old(cache.writes) + HomeWrites(block[..n], Slots(lay, old(cache.view), n))
    ensures cache.view == Updated(old(cache.view), block[..n], Slots(lay, old(cache.view), n))
  {
    hide Clean, Bcache.Valid, HomeWrites, Updated, Slots, Quiet;
    ghost var blocks, slots := block[..n], Slots(lay, cache.view, n);
    InstallStart(cache.view, blocks, slots);
    SlotAt(lay, cache.view, n);
    var tail := 0;
    while tail < n
      invariant 0 <= tail <= n && |cache.disk| == |cache.view| == old(|cache.disk|) == |old(cache.view)|
      invariant Clean(lay, cache) && Quiet(cache)
      invariant cache.writes == old(cache.writes) + HomeWrites(blocks[..tail], slots[..tail])
      invariant cache.view == Updated(old(cache.view), blocks[..tail], slots[..tail])
    {
      UpdatedUntouched(old(cache.view), blocks[..tail], slots[..tail], lay.start + 1 + tail);
      InstallOne(lay, cache, tail, block[tail], pid);
      InstallStep(old(cache.view), blocks, slots, tail);
      tail := tail + 1;
    }
    assert blocks[..n] == blocks && slots[..n] == slots;
  }

  lemma SlotAt(lay: Layout, d: Disk, n: nat)
    requires DiskOk(lay, d) && n + 1 <= lay.size
    ensures |Slots(lay, d, n)| == n && forall t :: 0 <= t < n ==> Slots(lay, d, n)[t] == d[lay.start + 1 + t]
  {
  }

  lemma InstallStart(d: Disk, blocks: seq<nat>, slots: seq<Block>)
    ensures HomeWrites(blocks[..0], slots[..0]) == [] && Updated(d, blocks[..0], slots[..0]) == d
  {
  }

  lemma InstallStep(d: Disk, blocks: seq<nat>, slots: seq<Block>, tail: nat)
    requires |blocks| == |slots| && tail < |blocks| && forall t :: 0 <= t < |blocks| ==> blocks[t] < |d|
    ensures HomeWrites(blocks[..tail + 1], slots[..tail + 1]) ==
            HomeWrites(blocks[..tail], slots[..tail]) + [Write(blocks[tail], slots[tail])]
    ensures Updated(d, blocks[..tail + 1], slots[..tail + 1]) ==
            Updated(d, blocks[..tail], slots[..tail])[blocks[tail] := slots[tail]]
  {
    assert blocks[..tail + 1][..tail] == blocks[..tail] && slots[..tail + 1][..tail] == slots[..tail];
  }

  lemma RecoverWritesAre(lay: Layout, d: Disk)
    requires Recoverable(lay, d)
    ensures var blocks := HeaderBlocks(d[lay.start]);
            RecoverWrites(lay, d) ==
            HomeWrites(blocks, Slots(lay, d, |blocks|)) + [Write(lay.start, PutHeader(d[lay.start], []))]
  {
  }

  /** recover_from_log: the disk writes are exactly RecoverWrites of what the disk held, and the
      homes end as a replay of the log makes them. */
  method RecoverFromLog(lay: Layout, cache: Bcache, pid: nat) returns (n: nat, block: seq<nat>)
    requires cache.Valid() && lay.size == LOGBLOCKS && Recoverable(lay, cache.disk)
    requires forall i :: 0 <= i < NBUF ==> cache.users[i] == multiset{} && cache.pins[i] == 0
    modifies cache
    ensures Clean(lay, cache) && Quiet(cache) && n == 0 && |block| == LOGBLOCKS
    ensures cache.writes == old(cache.writes) + RecoverWrites(lay, old(cache.disk))
    ensures Word(cache.disk[lay.start], 0) == 0
    ensures SameHomes(lay, cache.disk, Replayed(lay, old(cache.disk)))
  {
    hide PutHeader, Clean, Bcache.Valid, Updated, HomeWrites;
    Untouched(lay, cache);
    ghost var d := cache.disk;
    n, block := ReadHead(lay, cache, pid);
    ghost var blocks, slots := block[..n], Slots(lay, d, n);
    SlotNotHeader(lay, blocks);
    UpdatedUntouched(d, blocks, slots, lay.start);
    InstallTrans(lay, cache, n, block, pid);
    n := 0;
    ClearHead(lay, cache, pid);
    CleanView(lay, cache);
    HeaderRoundTrip(d[lay.start], []);
    RecoverWritesAre(lay, d);
  }

  lemma SlotNotHeader(lay: Layout, blocks: seq<nat>)
    requires 1 <= lay.size && forall t :: 0 <= t < |blocks| ==> !InLog(lay, blocks[t])
    ensures lay.start !in blocks
  {
  }
}
