/** What is on disk while a transaction commits, and what recovery makes of it.

    A commit is a list of block writes, each atomic. A crash keeps some prefix of
    that list; recovery is again a list of block writes, computed from what the
    crashed disk holds, and may itself be cut short any number of times. */
module CrashRecovery {
  import opened Blocks

  /** Blocks [start, start + size) hold the header and then the log slots. */
  datatype Layout = Layout(start: nat, size: nat)

  type Disk = seq<Block>

  datatype Write = Write(bno: nat, data: Block)

  predicate InLog(lay: Layout, b: nat) {
    lay.start <= b < lay.start + lay.size
  }

  ghost predicate DiskOk(lay: Layout, d: Disk) {
    1 <= lay.size && lay.start + lay.size <= |d|
  }

  /** A transaction the log region can hold: one slot per block, and every target a home block. */
  ghost predicate TxOk(lay: Layout, d: Disk, blocks: seq<nat>) {
    && DiskOk(lay, d)
    && |blocks| + 1 <= lay.size
    && |blocks| < WORDS
    && forall i :: 0 <= i < |blocks| ==> blocks[i] < |d| && blocks[i] < 0x1_0000_0000 && !InLog(lay, blocks[i])
  }

  function Apply(d: Disk, ws: seq<Write>): (r: Disk)
    requires forall w :: w in ws ==> w.bno < |d|
    ensures |r| == |d|
  {
    if ws == [] then d
    else
      assert ws[|ws| - 1] in ws;
      Apply(d, ws[..|ws| - 1])[ws[|ws| - 1].bno := ws[|ws| - 1].data]
  }

  // ---- header block -----------------------------------------------------------

  function PutEntries(h: Block, blocks: seq<nat>): (r: Block)
    requires |blocks| < WORDS
    requires forall i :: 0 <= i < |blocks| ==> blocks[i] < 0x1_0000_0000
  {
    if blocks == [] then h
    else PutWord(PutEntries(h, blocks[..|blocks| - 1]), |blocks|, blocks[|blocks| - 1])
  }

  /** `hb->n = n; hb->block[i] = blocks[i]` for i < n, over the old header bytes. */
  function PutHeader(h: Block, blocks: seq<nat>): (r: Block)
    requires |blocks| < WORDS
    requires forall i :: 0 <= i < |blocks| ==> blocks[i] < 0x1_0000_0000
  {
    PutEntries(PutWord(h, 0, |blocks|), blocks)
  }

  lemma {:induction false} EntriesRoundTrip(h: Block, blocks: seq<nat>, k: nat)
    requires |blocks| < WORDS && k < WORDS
    requires forall i :: 0 <= i < |blocks| ==> blocks[i] < 0x1_0000_0000
    ensures Word(PutEntries(h, blocks), k) == if 1 <= k <= |blocks| then blocks[k - 1] else Word(h, k)
  {
    if blocks != [] {
      var n := |blocks|;
      EntriesRoundTrip(h, blocks[..n - 1], k);
      WordAfterPut(PutEntries(h, blocks[..n - 1]), n, blocks[n - 1], k);
    }
  }

  /** Reading a written header back gives the written block list. */
  lemma HeaderRoundTrip(h: Block, blocks: seq<nat>)
    requires |blocks| < WORDS
    requires forall i :: 0 <= i < |blocks| ==> blocks[i] < 0x1_0000_0000
    ensures Word(PutHeader(h, blocks), 0) == |blocks|
    ensures HeaderBlocks(PutHeader(h, blocks)) == blocks
  {
    forall k: nat | k <= |blocks|
      ensures Word(PutHeader(h, blocks), k) == if k == 0 then |blocks| else blocks[k - 1]
    {
      EntriesRoundTrip(PutWord(h, 0, |blocks|), blocks, k);
      WordAfterPut(h, 0, |blocks|, k);
    }
  }

  /** The block numbers an on-disk header names. */
  function HeaderBlocks(h: Block): (r: seq<nat>)
    requires Word(h, 0) < WORDS
    ensures |r| == Word(h, 0)
  {
    seq(Word(h, 0), i requires 0 <= i < Word(h, 0) => Word(h, i + 1))
  }

  /** A disk whose log can be replayed: the header names at most size-1 home blocks. */
  ghost predicate Recoverable(lay: Layout, d: Disk) {
    && DiskOk(lay, d)
    && Word(d[lay.start], 0) < WORDS
    && TxOk(lay, d, HeaderBlocks(d[lay.start]))
  }

  // ---- the write lists --------------------------------------------------------

  function SlotWrites(lay: Layout, vals: seq<Block>): (r: seq<Write>)
    ensures |r| == |vals|
    ensures forall i :: 0 <= i < |vals| ==> r[i] == Write(lay.start + 1 + i, vals[i])
  {
    seq(|vals|, i requires 0 <= i < |vals| => Write(lay.start + 1 + i, vals[i]))
  }

  function HomeWrites(blocks: seq<nat>, vals: seq<Block>): (r: seq<Write>)
    requires |blocks| == |vals|
    ensures |r| == |vals|
    ensures forall i :: 0 <= i < |vals| ==> r[i] == Write(blocks[i], vals[i])
  {
    seq(|vals|, i requires 0 <= i < |vals| => Write(blocks[i], vals[i]))
  }

  /** The four phases of a commit: slots, full header, homes, cleared header. */
  ghost function PhaseWrites(lay: Layout, blocks: seq<nat>, vals: seq<Block>, full: Block,
                             cleared: Block): (ws: seq<Write>)
    requires |vals| == |blocks|
    ensures |ws| == 2 * |blocks| + 2
  {
    SlotWrites(lay, vals) + [Write(lay.start, full)] + HomeWrites(blocks, vals) + [Write(lay.start, cleared)]
  }

  lemma PhaseAt(lay: Layout, d: Disk, blocks: seq<nat>, vals: seq<Block>, full: Block, cleared: Block)
    requires TxOk(lay, d, blocks) && |vals| == |blocks|
    ensures var ws := PhaseWrites(lay, blocks, vals, full, cleared);
            && (forall w :: w in ws ==> w.bno < |d|)
            && (forall i :: 0 <= i < |blocks| ==> ws[i] == Write(lay.start + 1 + i, vals[i]))
            && ws[|blocks|] == Write(lay.start, full)
            && ws[2 * |blocks| + 1] == Write(lay.start, cleared)
  {
  }

  /** The writes of commit(), in order. */
  ghost function CommitWrites(lay: Layout, d: Disk, blocks: seq<nat>, vals: seq<Block>): (ws: seq<Write>)
    requires TxOk(lay, d, blocks) && |vals| == |blocks|
    ensures |ws| == 2 * |blocks| + 2
    ensures forall w :: w in ws ==> w.bno < |d|
  {
    var h := PutHeader(d[lay.start], blocks);
    PhaseAt(lay, d, blocks, vals, h, PutHeader(h, []));
    PhaseWrites(lay, blocks, vals, h, PutHeader(h, []))
  }

  /** The contents of the log slots, in header order. */
  ghost function Slots(lay: Layout, d: Disk, n: nat): (r: seq<Block>)
    requires DiskOk(lay, d) && n + 1 <= lay.size
  {
    d[lay.start + 1..lay.start + 1 + n]
  }

  /** recover_from_log() on disk `d`: copy every named slot home, then clear the header. */
  ghost function RecoverWrites(lay: Layout, d: Disk): (ws: seq<Write>)
    requires Recoverable(lay, d)
    ensures |ws| == Word(d[lay.start], 0) + 1
    ensures forall w :: w in ws ==> w.bno < |d|
  {
    var h := d[lay.start];
    HomeWrites(HeaderBlocks(h), Slots(lay, d, Word(h, 0))) + [Write(lay.start, PutHeader(h, []))]
  }

  // ---- homes ------------------------------------------------------------------

  /** Same contents outside the log region. */
  ghost predicate SameHomes(lay: Layout, a: Disk, b: Disk) {
    |a| == |b| && forall k :: 0 <= k < |a| && !InLog(lay, k) ==> a[k] == b[k]
  }

  /** The disk after the transaction: each logged block holds its last logged value. */
  function Updated(d: Disk, blocks: seq<nat>, vals: seq<Block>): (r: Disk)
    requires |blocks| == |vals| && forall i :: 0 <= i < |blocks| ==> blocks[i] < |d|
    ensures |r| == |d|
  {
    if blocks == [] then d
    else Updated(d, blocks[..|blocks| - 1], vals[..|vals| - 1])[blocks[|blocks| - 1] := vals[|vals| - 1]]
  }

  /** What a complete, uninterrupted recovery makes of `d`. */
  ghost function Replayed(lay: Layout, d: Disk): (r: Disk)
    requires Recoverable(lay, d)
    ensures |r| == |d|
  {
    Updated(d, HeaderBlocks(d[lay.start]), Slots(lay, d, Word(d[lay.start], 0)))
  }

  // ---- small facts about Apply and Updated ------------------------------------

  lemma ApplyStep(d: Disk, ws: seq<Write>, k: nat)
    requires k < |ws| && forall w :: w in ws ==> w.bno < |d|
    ensures Apply(d, ws[..k + 1]) == Apply(d, ws[..k])[ws[k].bno := ws[k].data]
  {
    assert ws[..k + 1][..k] == ws[..k];
  }

  lemma {:induction false} ApplyConcat(d: Disk, xs: seq<Write>, ys: seq<Write>)
    requires forall w :: w in xs + ys ==> w.bno < |d|
    ensures forall w :: w in xs ==> w.bno < |d|
    ensures forall w :: w in ys ==> w.bno < |d|
    ensures Apply(d, xs + ys) == Apply(Apply(d, xs), ys)
  {
    forall w | w in xs || w in ys ensures w.bno < |d| { assert w in xs + ys; }
    if ys == [] {
      assert xs + ys == xs;
    } else {
      var zs := xs + ys;
      assert zs[..|zs| - 1] == xs + ys[..|ys| - 1];
      forall w | w in xs + ys[..|ys| - 1] ensures w.bno < |d| { assert w in zs; }
      ApplyConcat(d, xs, ys[..|ys| - 1]);
    }
  }

  /** A block no write names keeps its contents. */
  lemma {:induction false} ApplyUntouched(d: Disk, ws: seq<Write>, k: nat)
    requires k < |d| && forall w :: w in ws ==> w.bno < |d| && w.bno != k
    ensures Apply(d, ws)[k] == d[k]
  {
    if ws != [] {
      assert ws[|ws| - 1] in ws;
      ApplyUntouched(d, ws[..|ws| - 1], k);
    }
  }

  lemma {:induction false} UpdatedUntouched(d: Disk, blocks: seq<nat>, vals: seq<Block>, k: nat)
    requires |blocks| == |vals| && k < |d| && k !in blocks
    requires forall i :: 0 <= i < |blocks| ==> blocks[i] < |d|
    ensures Updated(d, blocks, vals)[k] == d[k]
  {
    if blocks != [] {
      UpdatedUntouched(d, blocks[..|blocks| - 1], vals[..|vals| - 1], k);
    }
  }

  lemma {:induction false} HomeWritesAreUpdated(d: Disk, blocks: seq<nat>, vals: seq<Block>)
    requires |blocks| == |vals| && forall i :: 0 <= i < |blocks| ==> blocks[i] < |d|
    ensures forall w :: w in HomeWrites(blocks, vals) ==> w.bno < |d|
    ensures Apply(d, HomeWrites(blocks, vals)) == Updated(d, blocks, vals)
  {
    if blocks != [] {
      var n := |blocks| - 1;
      HomeWritesAreUpdated(d, blocks[..n], vals[..n]);
      assert HomeWrites(blocks, vals)[..n] == HomeWrites(blocks[..n], vals[..n]);
    }
  }

  /** Redo is idempotent: running it over a disk on which any part of it already ran
      gives the same contents. */
  lemma {:induction false} RedoAbsorbs(d: Disk, blocks: seq<nat>, vals: seq<Block>, j: nat)
    requires |blocks| == |vals| && j <= |blocks| && forall i :: 0 <= i < |blocks| ==> blocks[i] < |d|
    ensures Updated(Updated(d, blocks[..j], vals[..j]), blocks, vals) == Updated(d, blocks, vals)
  {
    var d1 := Updated(d, blocks[..j], vals[..j]);
    forall k | 0 <= k < |d|
      ensures Updated(d1, blocks, vals)[k] == Updated(d, blocks, vals)[k]
    {
      if k in blocks {
        UpdatedDependsOnWrites(d1, d, blocks, vals, k);
      } else {
        UpdatedUntouched(d1, blocks, vals, k);
        UpdatedUntouched(d, blocks[..j], vals[..j], k);
        UpdatedUntouched(d, blocks, vals, k);
      }
    }
  }

  lemma {:induction false} UpdatedDependsOnWrites(a: Disk, b: Disk, blocks: seq<nat>, vals: seq<Block>, k: nat)
    requires |a| == |b| && |blocks| == |vals| && k < |a|
    requires forall i :: 0 <= i < |blocks| ==> blocks[i] < |a|
    requires k in blocks || a[k] == b[k]
    ensures Updated(a, blocks, vals)[k] == Updated(b, blocks, vals)[k]
  {
    if blocks != [] {
      var n := |blocks| - 1;
      if blocks[n] != k {
        if k in blocks { assert k in blocks[..n]; }
        UpdatedDependsOnWrites(a, b, blocks[..n], vals[..n], k);
      }
    }
  }

  /** With distinct targets, every logged block ends with exactly its logged value. */
  lemma {:induction false} UpdatedAt(d: Disk, blocks: seq<nat>, vals: seq<Block>, i: nat)
    requires |blocks| == |vals| && forall i :: 0 <= i < |blocks| ==> blocks[i] < |d|
    requires forall x, y :: 0 <= x < y < |blocks| ==> blocks[x] != blocks[y]
    requires i < |blocks|
    ensures Updated(d, blocks, vals)[blocks[i]] == vals[i]
  {
    var n := |blocks| - 1;
    if i < n {
      UpdatedAt(d, blocks[..n], vals[..n], i);
    }
  }

  // ---- the theorems -----------------------------------------------------------

  lemma LogUnchangedMeansSameReplay(lay: Layout, a: Disk, b: Disk)
    requires Recoverable(lay, a) && |b| == |a|
    requires forall k :: lay.start <= k < lay.start + lay.size ==> b[k] == a[k]
    ensures Recoverable(lay, b)
    ensures HeaderBlocks(b[lay.start]) == HeaderBlocks(a[lay.start])
    ensures Slots(lay, b, Word(b[lay.start], 0)) == Slots(lay, a, Word(a[lay.start], 0))
  {
  }

  /** A log whose header says n = 0 replays to nothing. */
  lemma EmptyLogReplay(lay: Layout, d: Disk)
    requires DiskOk(lay, d) && Word(d[lay.start], 0) == 0
    ensures Recoverable(lay, d) && Replayed(lay, d) == d
  {
  }

  lemma UpdatedKeepsLog(lay: Layout, d: Disk, blocks: seq<nat>, vals: seq<Block>, k: nat)
    requires TxOk(lay, d, blocks) && |vals| == |blocks| && InLog(lay, k)
    ensures k < |d| && Updated(d, blocks, vals)[k] == d[k]
  {
    UpdatedUntouched(d, blocks, vals, k);
  }

  ghost predicate FullHeader(h: Block, blocks: seq<nat>) {
    Word(h, 0) < WORDS && HeaderBlocks(h) == blocks
  }

  ghost predicate CommitOk(lay: Layout, d: Disk, blocks: seq<nat>, vals: seq<Block>, full: Block, cleared: Block) {
    TxOk(lay, d, blocks) && |vals| == |blocks| && FullHeader(full, blocks) && Word(cleared, 0) == 0
  }

  /** The disk after the first k writes of a commit. */
  ghost function AfterPhases(lay: Layout, d: Disk, blocks: seq<nat>, vals: seq<Block>, full: Block, cleared: Block,
                             k: nat): (r: Disk)
    requires TxOk(lay, d, blocks) && |vals| == |blocks| && k <= 2 * |blocks| + 2
    ensures |r| == |d|
  {
    PhaseAt(lay, d, blocks, vals, full, cleared);
    Apply(d, PhaseWrites(lay, blocks, vals, full, cleared)[..k])
  }

  lemma {:induction false} SlotsWritten(lay: Layout, d: Disk, ws: seq<Write>, vals: seq<Block>, k: nat)
    requires DiskOk(lay, d) && k <= |vals| && |vals| + 1 <= lay.size && k <= |ws|
    requires forall w :: w in ws ==> w.bno < |d|
    requires forall i :: 0 <= i < k ==> ws[i] == Write(lay.start + 1 + i, vals[i])
    ensures var dk := Apply(d, ws[..k]);
            && dk[lay.start] == d[lay.start] && SameHomes(lay, dk, d)
            && (forall i :: 0 <= i < k ==> dk[lay.start + 1 + i] == vals[i])
    decreases k
  {
    if k > 0 {
      SlotsWritten(lay, d, ws, vals, k - 1);
      ApplyStep(d, ws, k - 1);
    }
  }

  /** Before the header write nothing but log slots has changed. */
  lemma CommitBeforeHeader(lay: Layout, d: Disk, blocks: seq<nat>, vals: seq<Block>, full: Block, cleared: Block,
                           k: nat)
    requires TxOk(lay, d, blocks) && |vals| == |blocks| && k <= |blocks|
    ensures var dk := AfterPhases(lay, d, blocks, vals, full, cleared, k);
            && dk[lay.start] == d[lay.start] && SameHomes(lay, dk, d)
            && (forall i :: 0 <= i < k ==> dk[lay.start + 1 + i] == vals[i])
  {
    PhaseAt(lay, d, blocks, vals, full, cleared);
    SlotsWritten(lay, d, PhaseWrites(lay, blocks, vals, full, cleared), vals, k);
  }

  /** The header write is the commit point: from it on the log holds the whole transaction. */
  lemma CommitAtHeader(lay: Layout, d: Disk, blocks: seq<nat>, vals: seq<Block>, full: Block, cleared: Block)
    requires CommitOk(lay, d, blocks, vals, full, cleared)
    ensures var dh := AfterPhases(lay, d, blocks, vals, full, cleared, |blocks| + 1);
            && Recoverable(lay, dh) && SameHomes(lay, dh, d)
            && dh[lay.start] == full && Slots(lay, dh, |blocks|) == vals
  {
    var n := |blocks|;
    var ws := PhaseWrites(lay, blocks, vals, full, cleared);
    CommitBeforeHeader(lay, d, blocks, vals, full, cleared, n);
    PhaseAt(lay, d, blocks, vals, full, cleared);
    ApplyStep(d, ws, n);
    HeaderCommits(lay, d, AfterPhases(lay, d, blocks, vals, full, cleared, n), blocks, vals, full);
  }

  lemma HeaderCommits(lay: Layout, d: Disk, dn: Disk, blocks: seq<nat>, vals: seq<Block>, full: Block)
    requires TxOk(lay, d, blocks) && |vals| == |blocks| && FullHeader(full, blocks)
    requires SameHomes(lay, dn, d)
    requires forall i :: 0 <= i < |vals| ==> dn[lay.start + 1 + i] == vals[i]
    ensures var dh := dn[lay.start := full];
            Recoverable(lay, dh) && SameHomes(lay, dh, d) && dh[lay.start] == full && Slots(lay, dh, |blocks|) == vals
  {
  }

  lemma PhaseSplit(lay: Layout, d: Disk, blocks: seq<nat>, vals: seq<Block>, full: Block, cleared: Block, j: nat)
    requires TxOk(lay, d, blocks) && |vals| == |blocks| && j <= |blocks|
    requires forall w :: w in HomeWrites(blocks[..j], vals[..j]) ==> w.bno < |d|
    ensures AfterPhases(lay, d, blocks, vals, full, cleared, |blocks| + 1 + j) ==
            Apply(AfterPhases(lay, d, blocks, vals, full, cleared, |blocks| + 1), HomeWrites(blocks[..j], vals[..j]))
  {
    var ws := PhaseWrites(lay, blocks, vals, full, cleared);
    var hw := HomeWrites(blocks[..j], vals[..j]);
    PhaseAt(lay, d, blocks, vals, full, cleared);
    assert ws[..|blocks| + 1 + j] == ws[..|blocks| + 1] + hw;
    ApplyConcat(d, ws[..|blocks| + 1], hw);
  }

  /** During installation the log is intact and some home blocks are already new. */
  lemma CommitInstalling(lay: Layout, d: Disk, blocks: seq<nat>, vals: seq<Block>, full: Block, cleared: Block, j: nat)
    requires CommitOk(lay, d, blocks, vals, full, cleared) && j <= |blocks|
    ensures AfterPhases(lay, d, blocks, vals, full, cleared, |blocks| + 1 + j) ==
            Updated(AfterPhases(lay, d, blocks, vals, full, cleared, |blocks| + 1), blocks[..j], vals[..j])
  {
    var n := |blocks|;
    var dh := AfterPhases(lay, d, blocks, vals, full, cleared, n + 1);
    HomeWritesAreUpdated(dh, blocks[..j], vals[..j]);
    PhaseSplit(lay, d, blocks, vals, full, cleared, j);
  }

  lemma SameHomesUpdated(lay: Layout, a: Disk, b: Disk, blocks: seq<nat>, vals: seq<Block>)
    requires SameHomes(lay, a, b) && |blocks| == |vals|
    requires forall i :: 0 <= i < |blocks| ==> blocks[i] < |a|
    ensures SameHomes(lay, Updated(a, blocks, vals), Updated(b, blocks, vals))
  {
    forall k | 0 <= k < |a| && !InLog(lay, k)
      ensures Updated(a, blocks, vals)[k] == Updated(b, blocks, vals)[k]
    {
      UpdatedDependsOnWrites(a, b, blocks, vals, k);
    }
  }

  lemma PhaseCrash(lay: Layout, d: Disk, blocks: seq<nat>, vals: seq<Block>, full: Block, cleared: Block, k: nat)
    requires CommitOk(lay, d, blocks, vals, full, cleared) && k <= 2 * |blocks| + 2
    requires Word(d[lay.start], 0) == 0
    ensures var dk := AfterPhases(lay, d, blocks, vals, full, cleared, k);
            && Recoverable(lay, dk)
            && SameHomes(lay, Replayed(lay, dk), if k <= |blocks| then d else Updated(d, blocks, vals))
  {
    hide AfterPhases, PhaseWrites, Updated;
    var n := |blocks|;
    var dk := AfterPhases(lay, d, blocks, vals, full, cleared, k);
    if k <= n {
      CommitBeforeHeader(lay, d, blocks, vals, full, cleared, k);
      EmptyLogReplay(lay, dk);
    } else {
      if k <= 2 * n + 1 {
        PhaseCrashInstalling(lay, d, blocks, vals, full, cleared, k - n - 1);
      } else {
        CommitDone(lay, d, blocks, vals, full, cleared);
        EmptyLogReplay(lay, dk);
      }
    }
  }

  lemma PhaseCrashInstalling(lay: Layout, d: Disk, blocks: seq<nat>, vals: seq<Block>, full: Block, cleared: Block,
                             j: nat)
    requires CommitOk(lay, d, blocks, vals, full, cleared) && j <= |blocks|
    ensures var dj := AfterPhases(lay, d, blocks, vals, full, cleared, |blocks| + 1 + j);
            Recoverable(lay, dj) && SameHomes(lay, Replayed(lay, dj), Updated(d, blocks, vals))
  {
    var dh := AfterPhases(lay, d, blocks, vals, full, cleared, |blocks| + 1);
    CommitAtHeader(lay, d, blocks, vals, full, cleared);
    SameHomesUpdated(lay, dh, d, blocks, vals);
    CommitInstalling(lay, d, blocks, vals, full, cleared, j);
    PartialRedo(lay, dh, blocks, vals, j);
  }

  /** A crash after any k of the commit's writes leaves a disk that recovers to the old
      homes when the header write has not happened, and to the new ones when it has. */
  lemma CommitCrash(lay: Layout, d: Disk, blocks: seq<nat>, vals: seq<Block>, k: nat)
    requires TxOk(lay, d, blocks) && |vals| == |blocks| && k <= 2 * |blocks| + 2
    requires Word(d[lay.start], 0) == 0
    ensures var dk := Apply(d, CommitWrites(lay, d, blocks, vals)[..k]);
            && Recoverable(lay, dk)
            && SameHomes(lay, Replayed(lay, dk), if k <= |blocks| then d else Updated(d, blocks, vals))
  {
    var h := PutHeader(d[lay.start], blocks);
    HeaderRoundTrip(d[lay.start], blocks);
    HeaderRoundTrip(h, []);
    PhaseCrash(lay, d, blocks, vals, h, PutHeader(h, []), k);
  }

  /** With part of the redo done, a full replay still gives the full result. */
  lemma PartialRedo(lay: Layout, d: Disk, blocks: seq<nat>, vals: seq<Block>, j: nat)
    requires Recoverable(lay, d) && j <= |blocks| == |vals|
    requires HeaderBlocks(d[lay.start]) == blocks && Slots(lay, d, |blocks|) == vals
    ensures var dj := Updated(d, blocks[..j], vals[..j]);
            && Recoverable(lay, dj) && Replayed(lay, dj) == Updated(d, blocks, vals)
            && dj[lay.start] == d[lay.start]
  {
    var dj := Updated(d, blocks[..j], vals[..j]);
    forall s | lay.start <= s < lay.start + lay.size ensures dj[s] == d[s] {
      UpdatedKeepsLog(lay, d, blocks[..j], vals[..j], s);
    }
    LogUnchangedMeansSameReplay(lay, d, dj);
    RedoAbsorbs(d, blocks, vals, j);
  }

  lemma PhaseLast(lay: Layout, d: Disk, blocks: seq<nat>, vals: seq<Block>, full: Block, cleared: Block)
    requires TxOk(lay, d, blocks) && |vals| == |blocks|
    ensures AfterPhases(lay, d, blocks, vals, full, cleared, 2 * |blocks| + 2) ==
            AfterPhases(lay, d, blocks, vals, full, cleared, |blocks| + 1 + |blocks|)[lay.start := cleared]
  {
    var ws := PhaseWrites(lay, blocks, vals, full, cleared);
    PhaseAt(lay, d, blocks, vals, full, cleared);
    ApplyStep(d, ws, 2 * |blocks| + 1);
  }

  lemma CommitDone(lay: Layout, d: Disk, blocks: seq<nat>, vals: seq<Block>, full: Block, cleared: Block)
    requires CommitOk(lay, d, blocks, vals, full, cleared)
    ensures var de := AfterPhases(lay, d, blocks, vals, full, cleared, 2 * |blocks| + 2);
            de[lay.start] == cleared && SameHomes(lay, de, Updated(d, blocks, vals))
  {
    hide AfterPhases, PhaseWrites, Updated;
    var n := |blocks|;
    var dh := AfterPhases(lay, d, blocks, vals, full, cleared, n + 1);
    CommitAtHeader(lay, d, blocks, vals, full, cleared);
    SameHomesUpdated(lay, dh, d, blocks, vals);
    CommitInstalling(lay, d, blocks, vals, full, cleared, n);
    assert blocks[..n] == blocks && vals[..n] == vals;
    PhaseLast(lay, d, blocks, vals, full, cleared);
  }

  lemma HeaderCleared(lay: Layout, d: Disk, h: Block)
    requires DiskOk(lay, d)
    ensures var dc := d[lay.start := PutHeader(h, [])];
            Word(dc[lay.start], 0) == 0 && Recoverable(lay, dc) && Replayed(lay, dc) == dc && SameHomes(lay, dc, d)
  {
    HeaderRoundTrip(h, []);
    EmptyLogReplay(lay, d[lay.start := PutHeader(h, [])]);
  }

  /** A recovery cut short after any k of its writes can be rerun: the rerun ends with
      the same homes as an uninterrupted one. */
  lemma RecoveryCrash(lay: Layout, d: Disk, k: nat)
    requires Recoverable(lay, d) && k <= |RecoverWrites(lay, d)|
    ensures var dk := Apply(d, RecoverWrites(lay, d)[..k]);
            && Recoverable(lay, dk) && SameHomes(lay, Replayed(lay, dk), Replayed(lay, d))
            && (k == |RecoverWrites(lay, d)| ==>
                  Word(dk[lay.start], 0) == 0 && SameHomes(lay, dk, Replayed(lay, d)))
  {
    var h := d[lay.start];
    var blocks := HeaderBlocks(h);
    var n := |blocks|;
    var vals := Slots(lay, d, n);
    var ws := RecoverWrites(lay, d);
    var j := if k <= n then k else n;
    var dj := Apply(d, ws[..j]);
    assert ws[..j] == HomeWrites(blocks[..j], vals[..j]);
    HomeWritesAreUpdated(d, blocks[..j], vals[..j]);
    PartialRedo(lay, d, blocks, vals, j);
    if k == n + 1 {
      assert blocks[..n] == blocks && vals[..n] == vals;
      ApplyStep(d, ws, n);
      HeaderCleared(lay, dj, h);
    }
  }

  /** Reboots: recovery i is cut after cuts[i] writes, or runs to the end if it has fewer;
      the last one is never cut. */
  ghost function Reboots(lay: Layout, d: Disk, cuts: seq<nat>): (r: Disk)
    requires Recoverable(lay, d)
    decreases |cuts|
  {
    if cuts == [] then Apply(d, RecoverWrites(lay, d))
    else
      var ws := RecoverWrites(lay, d);
      var k := if cuts[0] <= |ws| then cuts[0] else |ws|;
      RecoveryCrash(lay, d, k);
      Reboots(lay, Apply(d, ws[..k]), cuts[1..])
  }

  lemma {:induction false} RebootsReplay(lay: Layout, d: Disk, cuts: seq<nat>)
    requires Recoverable(lay, d)
    ensures var r := Reboots(lay, d, cuts);
            |r| == |d| && Word(r[lay.start], 0) == 0 && SameHomes(lay, r, Replayed(lay, d))
    decreases |cuts|
  {
    var ws := RecoverWrites(lay, d);
    if cuts == [] {
      assert ws[..|ws|] == ws;
      RecoveryCrash(lay, d, |ws|);
    } else {
      var k := if cuts[0] <= |ws| then cuts[0] else |ws|;
      RecoveryCrash(lay, d, k);
      RebootsReplay(lay, Apply(d, ws[..k]), cuts[1..]);
    }
  }

  /** Crash atomicity. Whatever write the commit is cut after, and however often recovery
      is cut and rerun, the homes end as the old contents or the old contents with every
      logged block updated, which of the two being fixed by the header write; and the log
      ends empty, ready for the next transaction. */
  lemma CrashAtomicity(lay: Layout, d: Disk, blocks: seq<nat>, vals: seq<Block>, k: nat, cuts: seq<nat>)
    requires TxOk(lay, d, blocks) && |vals| == |blocks| && k <= 2 * |blocks| + 2
    requires Word(d[lay.start], 0) == 0
    ensures var dk := Apply(d, CommitWrites(lay, d, blocks, vals)[..k]);
            && Recoverable(lay, dk)
            && var r := Reboots(lay, dk, cuts);
            |r| == |d| && Word(r[lay.start], 0) == 0
            && SameHomes(lay, r, if k <= |blocks| then d else Updated(d, blocks, vals))
  {
    CommitCrash(lay, d, blocks, vals, k);
    RebootsReplay(lay, Apply(d, CommitWrites(lay, d, blocks, vals)[..k]), cuts);
  }
}
