/** A commit in progress: which of its writes have happened, and what the disk holds then. */
module CommitPhase {
  import opened Blocks
  import opened Counting
  import opened CrashRecovery
  import opened BufferCache

  /** Process `pid` commits `blocks` with contents `vals` over the disk `base`, whose history is
      `before`; `done` of the commit's writes have happened and `unpinned` of its blocks have
      been unpinned. */
  datatype Tx = Tx(pid: nat, base: Disk, blocks: seq<nat>, vals: seq<Block>, before: seq<Write>, done: nat,
                   unpinned: nat)

  /** How many home blocks the commit has installed. */
  function Installed(tx: Tx): (r: nat) {
    var n := |tx.blocks|;
    if tx.done <= n + 1 then 0 else if tx.done <= 2 * n + 1 then tx.done - n - 1 else n
  }

  ghost predicate TxFine(lay: Layout, tx: Tx) {
    && TxOk(lay, tx.base, tx.blocks) && |tx.vals| == |tx.blocks| && Distinct(tx.blocks)
    && Word(tx.base[lay.start], 0) == 0
    && tx.done <= 2 * |tx.blocks| + 2 && (tx.blocks == [] ==> tx.done == 0)
    && tx.unpinned <= Installed(tx) <= tx.unpinned + 1
  }

  ghost function FullHead(lay: Layout, tx: Tx): (h: Block)
    requires TxFine(lay, tx)
  {
    PutHeader(tx.base[lay.start], tx.blocks)
  }

  ghost function ClearedHead(lay: Layout, tx: Tx): (h: Block)
    requires TxFine(lay, tx)
  {
    PutHeader(FullHead(lay, tx), [])
  }

  /** The home blocks after the transaction. */
  ghost function NewHomes(lay: Layout, tx: Tx): (d: Disk)
    requires TxFine(lay, tx)
    ensures |d| == |tx.base|
  {
    Updated(tx.base, tx.blocks, tx.vals)
  }

  /** Which version of the home blocks a crash now would come back to. */
  ghost function Committed(lay: Layout, tx: Tx): (d: Disk)
    requires TxFine(lay, tx)
    ensures |d| == |tx.base|
  {
    if tx.done <= |tx.blocks| then tx.base else NewHomes(lay, tx)
  }

  ghost function Writes(lay: Layout, tx: Tx): (ws: seq<Write>)
    requires TxFine(lay, tx)
    ensures |ws| == 2 * |tx.blocks| + 2
  {
    CommitWrites(lay, tx.base, tx.blocks, tx.vals)
  }

  /** The commit's next write. */
  ghost function NextWrite(lay: Layout, tx: Tx): (w: Write)
    requires TxFine(lay, tx) && tx.done < 2 * |tx.blocks| + 2
  {
    var n := |tx.blocks|;
    if tx.done < n then Write(lay.start + 1 + tx.done, tx.vals[tx.done])
    else if tx.done == n then Write(lay.start, FullHead(lay, tx))
    else if tx.done <= 2 * n then Write(tx.blocks[tx.done - n - 1], tx.vals[tx.done - n - 1])
    else Write(lay.start, ClearedHead(lay, tx))
  }

  lemma WritesStep(lay: Layout, tx: Tx)
    requires TxFine(lay, tx) && tx.done < 2 * |tx.blocks| + 2
    ensures Writes(lay, tx)[..tx.done + 1] == Writes(lay, tx)[..tx.done] + [NextWrite(lay, tx)]
  {
    hide CommitWrites, TxFine, NextWrite;
    WriteAt(lay, tx);
    var ws := Writes(lay, tx);
    assert ws[..tx.done + 1] == ws[..tx.done] + [ws[tx.done]];
  }

  lemma WriteAt(lay: Layout, tx: Tx)
    requires TxFine(lay, tx) && tx.done < 2 * |tx.blocks| + 2
    ensures Writes(lay, tx)[tx.done] == NextWrite(lay, tx)
  {
    hide PutHeader, PhaseWrites;
    var n := |tx.blocks|;
    PhaseAt(lay, tx.base, tx.blocks, tx.vals, FullHead(lay, tx), ClearedHead(lay, tx));
    if n < tx.done <= 2 * n {
      PhaseHomeAt(lay, tx.blocks, tx.vals, FullHead(lay, tx), ClearedHead(lay, tx), tx.done - n - 1);
    }
  }

  lemma PhaseHomeAt(lay: Layout, blocks: seq<nat>, vals: seq<Block>, full: Block, cleared: Block, t: nat)
    requires |vals| == |blocks| && t < |blocks|
    ensures PhaseWrites(lay, blocks, vals, full, cleared)[|blocks| + 1 + t] == Write(blocks[t], vals[t])
  {
    assert PhaseWrites(lay, blocks, vals, full, cleared)[|blocks| + 1 + t] == HomeWrites(blocks, vals)[t];
  }

  /** The disk block by block: the header, the slots written so far, the homes installed so far. */
  ghost predicate OnDisk(lay: Layout, tx: Tx, disk: Disk)
    requires TxFine(lay, tx)
  {
    var n := |tx.blocks|;
    && |disk| == |tx.base|
    && disk[lay.start] == (if tx.done <= n then tx.base[lay.start]
                           else if tx.done <= 2 * n + 1 then FullHead(lay, tx) else ClearedHead(lay, tx))
    && (forall t :: 0 <= t < n && t < tx.done ==> disk[lay.start + 1 + t] == tx.vals[t])
    && (forall t :: 0 <= t < n ==>
          disk[tx.blocks[t]] == if t < Installed(tx) then tx.vals[t] else tx.base[tx.blocks[t]])
    && (forall k :: 0 <= k < |disk| && !InLog(lay, k) && k !in tx.blocks ==> disk[k] == tx.base[k])
  }

  /** What holds between any two steps of a commit, whoever takes them. */
  ghost predicate InCommit(lay: Layout, tx: Tx, disk: Disk, view: Disk, boot: Disk, writes: seq<Write>,
                           committed: Disk) {
    && TxFine(lay, tx) && HistoryOk(boot, tx.before, tx.base)
    && writes == tx.before + Writes(lay, tx)[..tx.done]
    && OnDisk(lay, tx, disk)
    && SameHomes(lay, view, NewHomes(lay, tx))
    && SameHomes(lay, committed, Committed(lay, tx))
  }

  lemma WriteOnDisk(lay: Layout, tx: Tx, disk: Disk)
    requires TxFine(lay, tx) && OnDisk(lay, tx, disk) && tx.blocks != [] && tx.done < 2 * |tx.blocks| + 2
    requires tx.unpinned == Installed(tx)
    ensures var w := NextWrite(lay, tx); var tx1 := tx.(done := tx.done + 1);
            w.bno < |disk| && TxFine(lay, tx1) && OnDisk(lay, tx1, disk[w.bno := w.data])
  {
    hide OnDisk;
    if tx.done < |tx.blocks| {
      SlotOnDisk(lay, tx, disk);
    } else if |tx.blocks| < tx.done <= 2 * |tx.blocks| {
      HomeOnDisk(lay, tx, disk);
    } else {
      HeadOnDisk(lay, tx, disk);
    }
  }

  lemma SlotOnDisk(lay: Layout, tx: Tx, disk: Disk)
    requires TxFine(lay, tx) && OnDisk(lay, tx, disk) && tx.done < |tx.blocks|
    ensures lay.start + 1 + tx.done < |disk| && TxFine(lay, tx.(done := tx.done + 1))
    ensures OnDisk(lay, tx.(done := tx.done + 1), disk[lay.start + 1 + tx.done := tx.vals[tx.done]])
  {
    hide FullHead, ClearedHead;
    assert InLog(lay, lay.start + 1 + tx.done);
  }

  lemma HeadOnDisk(lay: Layout, tx: Tx, disk: Disk)
    requires TxFine(lay, tx) && OnDisk(lay, tx, disk) && tx.blocks != []
    requires tx.done == |tx.blocks| || (tx.done == 2 * |tx.blocks| + 1 && tx.unpinned == |tx.blocks|)
    ensures lay.start < |disk| && TxFine(lay, tx.(done := tx.done + 1))
    ensures OnDisk(lay, tx.(done := tx.done + 1),
                   disk[lay.start := if tx.done == |tx.blocks| then FullHead(lay, tx) else ClearedHead(lay, tx)])
  {
    hide PutHeader;
    assert InLog(lay, lay.start);
  }

  lemma HomeOnDisk(lay: Layout, tx: Tx, disk: Disk)
    requires TxFine(lay, tx) && OnDisk(lay, tx, disk) && |tx.blocks| < tx.done <= 2 * |tx.blocks|
    requires tx.unpinned == Installed(tx)
    ensures var t := tx.done - |tx.blocks| - 1;
            && tx.blocks[t] < |disk| && TxFine(lay, tx.(done := tx.done + 1))
            && OnDisk(lay, tx.(done := tx.done + 1), disk[tx.blocks[t] := tx.vals[t]])
  {
    hide PutHeader;
    var t := tx.done - |tx.blocks| - 1;
    assert !InLog(lay, tx.blocks[t]);
  }

  /** The next write of the commit, by whichever buffer holds it, keeps everything. The write
      of the full header is the one that makes the transaction the committed version. */
  lemma WriteInCommit(lay: Layout, tx: Tx, disk: Disk, view: Disk, boot: Disk, writes: seq<Write>, committed: Disk)
    requires InCommit(lay, tx, disk, view, boot, writes, committed)
    requires tx.blocks != [] && tx.done < 2 * |tx.blocks| + 2 && tx.unpinned == Installed(tx)
    ensures var w := NextWrite(lay, tx); var tx1 := tx.(done := tx.done + 1);
            && w.bno < |disk| && TxFine(lay, tx1)
            && InCommit(lay, tx1, disk[w.bno := w.data], view, boot, writes + [w],
                        if tx.done == |tx.blocks| then view else committed)
  {
    hide OnDisk, HistoryOk, PutHeader, CommitWrites, Updated;
    WriteOnDisk(lay, tx, disk);
    WritesStep(lay, tx);
    var w, tx1 := NextWrite(lay, tx), tx.(done := tx.done + 1);
    assert writes + [w] == tx.before + Writes(lay, tx)[..tx.done + 1];
  }

  /** The committer may change the memory copy of a log block at any time. */
  lemma SetInCommit(lay: Layout, tx: Tx, disk: Disk, view: Disk, boot: Disk, writes: seq<Write>, committed: Disk,
                    k: nat, d: Block)
    requires InCommit(lay, tx, disk, view, boot, writes, committed) && k < |view| && InLog(lay, k)
    ensures InCommit(lay, tx, disk, view[k := d], boot, writes, committed)
    ensures k !in tx.blocks
  {
    hide OnDisk, HistoryOk, CommitWrites, Updated;
  }

  lemma UnpinInCommit(lay: Layout, tx: Tx, disk: Disk, view: Disk, boot: Disk, writes: seq<Write>, committed: Disk)
    requires InCommit(lay, tx, disk, view, boot, writes, committed) && tx.unpinned < Installed(tx)
    ensures InCommit(lay, tx.(unpinned := tx.unpinned + 1), disk, view, boot, writes, committed)
    ensures tx.blocks[tx.unpinned] < |disk| == |view| && !InLog(lay, tx.blocks[tx.unpinned])
    ensures disk[tx.blocks[tx.unpinned]] == view[tx.blocks[tx.unpinned]]
  {
    hide PutHeader, HistoryOk, CommitWrites, Updated, OnDisk;
    UpdatedAt(tx.base, tx.blocks, tx.vals, tx.unpinned);
    UnpinOnDisk(lay, tx, disk);
  }

  lemma UnpinOnDisk(lay: Layout, tx: Tx, disk: Disk)
    requires TxFine(lay, tx) && tx.unpinned < Installed(tx) && OnDisk(lay, tx, disk)
    ensures TxFine(lay, tx.(unpinned := tx.unpinned + 1)) && OnDisk(lay, tx.(unpinned := tx.unpinned + 1), disk)
    ensures |disk| == |tx.base| && disk[tx.blocks[tx.unpinned]] == tx.vals[tx.unpinned]
  {
    hide PutHeader;
  }

  /** The newest versions of the given blocks. */
  ghost function Values(blocks: seq<nat>, view: Disk): (r: seq<Block>)
    requires forall t :: 0 <= t < |blocks| ==> blocks[t] < |view|
    ensures |r| == |blocks|
    ensures forall t :: 0 <= t < |blocks| ==> r[t] == view[blocks[t]]
  {
    seq(|blocks|, t requires 0 <= t < |blocks| => view[blocks[t]])
  }

  /** A commit that starts takes the newest version of every logged block. */
  lemma CommitStarts(lay: Layout, pid: nat, blocks: seq<nat>, disk: Disk, view: Disk, boot: Disk, writes: seq<Write>,
                     committed: Disk)
    requires TxOk(lay, disk, blocks) && Distinct(blocks) && Word(disk[lay.start], 0) == 0
    requires HistoryOk(boot, writes, disk) && SameHomes(lay, disk, committed) && |view| == |disk|
    requires forall k :: 0 <= k < |disk| && !InLog(lay, k) && k !in blocks ==> view[k] == disk[k]
    ensures InCommit(lay, Tx(pid, disk, blocks, Values(blocks, view), writes, 0, 0), disk, view, boot, writes,
                     committed)
  {
    hide CommitWrites, PutHeader, HistoryOk;
    var vals := Values(blocks, view);
    var tx := Tx(pid, disk, blocks, vals, writes, 0, 0);
    forall k | 0 <= k < |disk| && !InLog(lay, k) ensures view[k] == NewHomes(lay, tx)[k] {
      if k in blocks {
        var t :| 0 <= t < |blocks| && blocks[t] == k;
        UpdatedAt(disk, blocks, vals, t);
      } else {
        UpdatedUntouched(disk, blocks, vals, k);
      }
    }
  }

  /** A commit that has made all its writes leaves the new version on disk and an empty log. */
  lemma CommitEnds(lay: Layout, tx: Tx, disk: Disk, view: Disk, boot: Disk, writes: seq<Write>, committed: Disk)
    requires InCommit(lay, tx, disk, view, boot, writes, committed)
    requires tx.blocks == [] || tx.done == 2 * |tx.blocks| + 2
    ensures |disk| == |tx.base| && Word(disk[lay.start], 0) == 0
    ensures SameHomes(lay, disk, committed) && SameHomes(lay, view, committed)
  {
    hide HistoryOk, CommitWrites, PutHeader;
    if tx.blocks == [] {
      assert Updated(tx.base, tx.blocks, tx.vals) == tx.base;
    } else {
      HeaderRoundTrip(FullHead(lay, tx), []);
      forall k | 0 <= k < |disk| && !InLog(lay, k) ensures disk[k] == NewHomes(lay, tx)[k] {
        HomeInstalled(lay, tx, disk, k);
      }
    }
  }

  lemma HomeInstalled(lay: Layout, tx: Tx, disk: Disk, k: nat)
    requires TxFine(lay, tx) && OnDisk(lay, tx, disk) && k < |disk| && !InLog(lay, k)
    ensures Installed(tx) <= |tx.blocks| && |disk| == |tx.base|
    ensures disk[k] == if k in tx.blocks[..Installed(tx)] then NewHomes(lay, tx)[k] else tx.base[k]
    ensures k !in tx.blocks ==> NewHomes(lay, tx)[k] == tx.base[k]
    ensures forall t :: 0 <= t < |tx.blocks| && tx.blocks[t] == k ==> NewHomes(lay, tx)[k] == tx.vals[t]
  {
    hide PutHeader;
    if t :| 0 <= t < |tx.blocks| && tx.blocks[t] == k {
      UpdatedAt(tx.base, tx.blocks, tx.vals, t);
      if t < Installed(tx) { assert tx.blocks[..Installed(tx)][t] == k; }
    } else {
      UpdatedUntouched(tx.base, tx.blocks, tx.vals, k);
    }
  }

  /** During a commit every home block is on disk in its committed version, or still to be
      installed from its log slot. */
  lemma HomeInCommit(lay: Layout, tx: Tx, disk: Disk, view: Disk, boot: Disk, writes: seq<Write>, committed: Disk,
                     k: nat)
    requires InCommit(lay, tx, disk, view, boot, writes, committed) && k < |disk| && !InLog(lay, k)
    ensures TxFine(lay, tx) && |tx.base| == |disk| == |committed| && Installed(tx) <= |tx.blocks|
    ensures tx.done <= |tx.blocks| || k !in tx.blocks[Installed(tx)..] ==> disk[k] == committed[k]
    ensures tx.done > |tx.blocks| ==>
              forall t :: Installed(tx) <= t < |tx.blocks| && tx.blocks[t] == k ==>
                disk[k] == tx.base[k] && lay.start + 1 + t < |disk| && disk[lay.start + 1 + t] == committed[k]
  {
    hide HistoryOk, CommitWrites, NewHomes, OnDisk;
    HomeInstalled(lay, tx, disk, k);
    assert tx.blocks == tx.blocks[..Installed(tx)] + tx.blocks[Installed(tx)..];
    if tx.done > |tx.blocks| {
      forall t | Installed(tx) <= t < |tx.blocks| && tx.blocks[t] == k
        ensures disk[k] == tx.base[k] && lay.start + 1 + t < |disk| && disk[lay.start + 1 + t] == committed[k]
      {
        ToInstall(lay, tx, disk, t);
      }
    }
  }

  lemma ToInstall(lay: Layout, tx: Tx, disk: Disk, t: nat)
    requires TxFine(lay, tx) && OnDisk(lay, tx, disk) && tx.done > |tx.blocks| && Installed(tx) <= t < |tx.blocks|
    ensures |disk| == |tx.base| && lay.start + 1 + t < |disk| && disk[lay.start + 1 + t] == tx.vals[t]
    ensures disk[tx.blocks[t]] == tx.base[tx.blocks[t]]
  {
    hide PutHeader;
  }

  /** A crash between any two steps of a commit, and any number of crashing recoveries after
      it, bring every home block back in its committed version. */
  lemma CrashInCommit(lay: Layout, tx: Tx, disk: Disk, view: Disk, boot: Disk, writes: seq<Write>, committed: Disk,
                      cuts: seq<nat>)
    requires InCommit(lay, tx, disk, view, boot, writes, committed) && HistoryOk(boot, writes, disk)
    ensures Recoverable(lay, disk) && SameHomes(lay, Reboots(lay, disk, cuts), committed)
  {
    hide OnDisk, CommitWrites, Recoverable, Reboots;
    HistorySince(boot, tx.before, tx.base, Writes(lay, tx)[..tx.done], disk);
    CrashAtomicity(lay, tx.base, tx.blocks, tx.vals, tx.done, cuts);
  }
}
