/** Which block belongs to which file, and the bytes a file holds: the vocabulary of fs.c. */
module FileBlocks {
  import opened Blocks
  import opened Bitmap

  const NDIRECT := 12
  const NINDIRECT := 256
  const MAXFILE := 268
  /** Slots of an inode: 0..11 direct, 12 the indirect block, 13.. the indirect entries. */
  const NSLOT := 269

  datatype Inode = Inode(size: nat, addrs: seq<nat>)
  datatype Owner = Free | Meta | Slot(inum: nat, slot: nat)

  type Table = seq<seq<nat>>

  /** The slot that names block number bn of a file. */
  function SlotOf(bn: nat): (s: nat)
    ensures s != NDIRECT
    ensures bn < MAXFILE ==> s < NSLOT
  {
    if bn < NDIRECT then bn else bn + 1
  }

  /** The disk address in a slot: from the inode, or from the indirect block it points to. */
  function Ref(ip: Inode, data: seq<Block>, s: nat): (a: nat)
    requires |ip.addrs| == NDIRECT + 1 && ip.addrs[NDIRECT] < |data| && s < NSLOT
  {
    if s <= NDIRECT then ip.addrs[s]
    else if ip.addrs[NDIRECT] == 0 then 0
    else Word(data[ip.addrs[NDIRECT]], s - NDIRECT - 1)
  }

  /** `refs` is the table of all addresses the inodes and indirect blocks hold. */
  ghost predicate TableOk(refs: Table, inode: seq<Inode>, data: seq<Block>) {
    && |refs| == |inode|
    && forall i :: 0 <= i < |inode| ==>
         && |refs[i]| == NSLOT && |inode[i].addrs| == NDIRECT + 1 && inode[i].addrs[NDIRECT] < |data|
         && forall s :: 0 <= s < NSLOT ==> refs[i][s] == Ref(inode[i], data, s)
  }

  /** An address is nonzero in a slot exactly when that slot owns the block: so no block is
      referenced twice, and no metadata block or block 0 is referenced at all. */
  ghost predicate OwnersOk(refs: Table, owner: seq<Owner>, nmeta: nat) {
    && 0 < nmeta <= |owner|
    && (forall b :: 0 <= b < |owner| ==> (owner[b] == Meta <==> b < nmeta))
    && (forall i :: 0 <= i < |refs| ==> |refs[i]| == NSLOT)
    && (forall i, s :: 0 <= i < |refs| && 0 <= s < NSLOT && refs[i][s] != 0 ==>
          refs[i][s] < |owner| && owner[refs[i][s]] == Slot(i, s))
    && (forall b :: 0 <= b < |owner| && owner[b].Slot? ==>
          owner[b].inum < |refs| && owner[b].slot < NSLOT && refs[owner[b].inum][owner[b].slot] == b)
  }

  /** A bit is set exactly for owned and metadata blocks, and for one being handed out. */
  ghost predicate BitsOk(bits: seq<BitBlock>, owner: seq<Owner>, loan: nat) {
    && |owner| <= BPB * |bits|
    && forall b :: 0 <= b < |owner| ==> (Bit(bits, b) <==> owner[b] != Free || (b == loan && loan != 0))
  }

  /** Files have no holes and fit MAXFILE blocks. */
  ghost predicate DenseOk(refs: Table, inode: seq<Inode>) {
    && |refs| == |inode|
    && forall i :: 0 <= i < |inode| ==>
         |refs[i]| == NSLOT && inode[i].size <= MAXFILE * BSIZE && Covered(refs[i], inode[i].size)
  }

  ghost predicate Covered(row: seq<nat>, size: nat) {
    && |row| == NSLOT && size <= MAXFILE * BSIZE
    && forall bn :: 0 <= bn < MAXFILE && bn * BSIZE < size ==> row[SlotOf(bn)] != 0
  }

  /** Byte p of the file whose addresses are `row`. */
  ghost function FileByte(row: seq<nat>, data: seq<Block>, p: nat): (r: Byte) {
    if p < MAXFILE * BSIZE && |row| == NSLOT && row[SlotOf(p / BSIZE)] < |data|
    then data[row[SlotOf(p / BSIZE)]][p % BSIZE] else 0
  }

  /** A file's contents. */
  ghost function Content(ip: Inode, row: seq<nat>, data: seq<Block>): (r: seq<Byte>) {
    seq(ip.size, p requires 0 <= p < ip.size => FileByte(row, data, p))
  }

  /** Overwriting `was` from `off` with `src`, growing it if needed. */
  ghost function Splice(was: seq<Byte>, off: nat, src: seq<Byte>): (r: seq<Byte>)
    requires off <= |was|
  {
    was[..off] + src + if off + |src| <= |was| then was[off + |src|..] else []
  }

  function PutBytes(b: Block, at: nat, src: seq<Byte>): (r: Block)
    requires at + |src| <= BSIZE
  {
    b[..at] + src + b[at + |src|..]
  }

  // ---- how changes to one block or slot show in the table ----------------------

  lemma OneReference(refs: Table, owner: seq<Owner>, nmeta: nat, i: nat, s: nat, j: nat, t: nat)
    requires OwnersOk(refs, owner, nmeta) && i < |refs| && j < |refs| && s < NSLOT && t < NSLOT
    requires refs[i][s] != 0 && refs[i][s] == refs[j][t]
    ensures i == j && s == t
  {
    assert owner[refs[i][s]] == Slot(i, s) && owner[refs[j][t]] == Slot(j, t);
  }

  /** Rewriting a block that is nobody's indirect block leaves every address alone. */
  lemma TableKept(refs: Table, inode: seq<Inode>, data: seq<Block>, owner: seq<Owner>, nmeta: nat, b: nat, v: Block)
    requires TableOk(refs, inode, data) && OwnersOk(refs, owner, nmeta) && |owner| == |data| && b < |data|
    requires b != 0 && (owner[b].Slot? ==> owner[b].slot != NDIRECT)
    ensures TableOk(refs, inode, data[b := v])
  {
    forall i | 0 <= i < |inode| ensures inode[i].addrs[NDIRECT] != b {
      assert refs[i][NDIRECT] == Ref(inode[i], data, NDIRECT);
      assert refs[i][NDIRECT] != 0 ==> owner[refs[i][NDIRECT]] == Slot(i, NDIRECT);
    }
  }

  lemma ContentKept(ip: Inode, row: seq<nat>, data: seq<Block>, row': seq<nat>, data': seq<Block>)
    requires |row| == |row'| == NSLOT && |data'| == |data| && Covered(row, ip.size)
    requires forall bn :: 0 <= bn < MAXFILE && bn * BSIZE < ip.size ==>
               row'[SlotOf(bn)] == row[SlotOf(bn)] < |data| && data'[row[SlotOf(bn)]] == data[row[SlotOf(bn)]]
    ensures Content(ip, row', data') == Content(ip, row, data)
  {
    forall p | 0 <= p < ip.size ensures FileByte(row', data', p) == FileByte(row, data, p) {
      var bn := p / BSIZE;
      assert bn * BSIZE < ip.size && bn < MAXFILE;
    }
  }

  /** A chunk written into one block of a file shows at its offset and nowhere else. */
  lemma ChunkShows(refs: Table, owner: seq<Owner>, nmeta: nat, data: seq<Block>, i: nat, off: nat, src: seq<Byte>,
                   p: nat)
    requires OwnersOk(refs, owner, nmeta) && |owner| == |data| && i < |refs|
    requires off < MAXFILE * BSIZE && off % BSIZE + |src| <= BSIZE
    requires var a := refs[i][SlotOf(off / BSIZE)]; a != 0 && a < |data|
    requires p < MAXFILE * BSIZE && refs[i][SlotOf(p / BSIZE)] != 0
    ensures var a := refs[i][SlotOf(off / BSIZE)];
            var data' := data[a := PutBytes(data[a], off % BSIZE, src)];
            FileByte(refs[i], data', p) ==
            if off <= p < off + |src| then src[p - off] else FileByte(refs[i], data, p)
  {
    var s, t := SlotOf(off / BSIZE), SlotOf(p / BSIZE);
    var a := refs[i][s];
    if refs[i][t] == a {
      OneReference(refs, owner, nmeta, i, s, i, t);
      assert p / BSIZE == off / BSIZE;
      assert p - off == p % BSIZE - off % BSIZE;
    } else {
      assert p / BSIZE != off / BSIZE;
      assert !(off <= p < off + |src|) by { SameBlock(off, |src|, p); }
    }
  }

  lemma SameBlock(off: nat, m: nat, p: nat)
    requires off % BSIZE + m <= BSIZE
    ensures off <= p < off + m ==> p / BSIZE == off / BSIZE
  {
  }

  // ---- attaching a freshly handed-out block to a slot --------------------------

  /** The table after slot s of inode i takes block b. */
  ghost function Attached(refs: Table, i: nat, s: nat, b: nat): (r: Table)
    requires i < |refs| && s < |refs[i]|
  {
    var row: seq<nat> := refs[i][s := b];
    refs[i := row]
  }

  lemma AttachedSelf(refs: Table, i: nat, s: nat)
    requires i < |refs| && s < |refs[i]|
    ensures Attached(refs, i, s, refs[i][s]) == refs
  {
    assert refs[i][s := refs[i][s]] == refs[i];
  }

  lemma AttachOwners(refs: Table, owner: seq<Owner>, nmeta: nat, i: nat, s: nat, b: nat)
    requires OwnersOk(refs, owner, nmeta) && i < |refs| && s < NSLOT && refs[i][s] == 0
    requires 0 < b < |owner| && owner[b] == Free
    ensures OwnersOk(Attached(refs, i, s, b), owner[b := Slot(i, s)], nmeta)
  {
    var r, o := Attached(refs, i, s, b), owner[b := Slot(i, s)];
    forall j, t | 0 <= j < |r| && 0 <= t < NSLOT && r[j][t] != 0
      ensures r[j][t] < |o| && o[r[j][t]] == Slot(j, t)
    {
      if j != i || t != s { assert r[j][t] == refs[j][t]; }
    }
  }

  /** A zeroed block in slot s <= NDIRECT: only that address changes, for a fresh indirect
      block names nothing. */
  lemma AttachInInode(refs: Table, inode: seq<Inode>, data: seq<Block>, i: nat, s: nat, b: nat)
    requires TableOk(refs, inode, data) && i < |inode| && s <= NDIRECT && refs[i][s] == 0
    requires b < |data| && (s == NDIRECT ==> data[b] == ZERO_BLOCK)
    ensures TableOk(Attached(refs, i, s, b), inode[i := inode[i].(addrs := inode[i].addrs[s := b])], data)
  {
    var ip := inode[i].(addrs := inode[i].addrs[s := b]);
    forall t | 0 <= t < NSLOT ensures refs[i][s := b][t] == Ref(ip, data, t) {
      assert refs[i][t] == Ref(inode[i], data, t) && refs[i][s] == Ref(inode[i], data, s);
      if s == NDIRECT && t > NDIRECT { ZeroWords(t - NDIRECT - 1); }
    }
  }

  /** A block entered in the indirect block of inode i: only that address changes. */
  lemma AttachInIndirect(refs: Table, inode: seq<Inode>, data: seq<Block>, owner: seq<Owner>, nmeta: nat, i: nat,
                         s: nat, b: nat)
    requires TableOk(refs, inode, data) && OwnersOk(refs, owner, nmeta) && |owner| == |data|
    requires i < |inode| && NDIRECT < s < NSLOT && b < 0x1_0000_0000 && refs[i][NDIRECT] != 0
    ensures var a := refs[i][NDIRECT];
            a < |data| && TableOk(Attached(refs, i, s, b), inode, data[a := PutWord(data[a], s - NDIRECT - 1, b)])
  {
    var a := refs[i][NDIRECT];
    var d := data[a := PutWord(data[a], s - NDIRECT - 1, b)];
    var r := Attached(refs, i, s, b);
    forall j | 0 <= j < |inode| ensures j != i ==> inode[j].addrs[NDIRECT] != a || a == 0 {
      assert refs[j][NDIRECT] == Ref(inode[j], data, NDIRECT);
      assert refs[j][NDIRECT] != 0 ==> owner[refs[j][NDIRECT]] == Slot(j, NDIRECT);
    }
    assert refs[i][NDIRECT] == Ref(inode[i], data, NDIRECT);
    forall j, t | 0 <= j < |inode| && 0 <= t < NSLOT ensures r[j][t] == Ref(inode[j], d, t) {
      assert refs[j][t] == Ref(inode[j], data, t);
      if j == i && t > NDIRECT {
        WordAfterPut(data[a], s - NDIRECT - 1, b, t - NDIRECT - 1);
      }
    }
  }

  // ---- taking the blocks of one inode away -------------------------------------

  /** Slots of inode i that itrunc has given back: direct ones below lo, indirect entries below hi. */
  predicate Gone(o: Owner, i: nat, lo: nat, hi: nat) {
    o.Slot? && o.inum == i && (o.slot < lo || NDIRECT < o.slot < hi)
  }

  /** The bitmap part-way through itrunc. */
  ghost predicate FreedBits(bits: seq<BitBlock>, owner: seq<Owner>, i: nat, lo: nat, hi: nat) {
    && |owner| <= BPB * |bits|
    && forall b :: 0 <= b < |owner| ==> (Bit(bits, b) <==> owner[b] != Free && !Gone(owner[b], i, lo, hi))
  }

  ghost function Disowned(owner: seq<Owner>, i: nat): (r: seq<Owner>) {
    seq(|owner|, b requires 0 <= b < |owner| => if owner[b].Slot? && owner[b].inum == i then Free else owner[b])
  }

  ghost function Emptied(refs: Table, i: nat): (r: Table)
    requires i < |refs|
  {
    var row: seq<nat> := seq(NSLOT, _ => 0);
    refs[i := row]
  }

  lemma DisownedOk(refs: Table, owner: seq<Owner>, nmeta: nat, i: nat)
    requires OwnersOk(refs, owner, nmeta) && i < |refs|
    ensures OwnersOk(Emptied(refs, i), Disowned(owner, i), nmeta)
  {
    var r, o := Emptied(refs, i), Disowned(owner, i);
    forall j, s | 0 <= j < |r| && 0 <= s < NSLOT && r[j][s] != 0
      ensures r[j][s] < |o| && o[r[j][s]] == Slot(j, s)
    {
      assert j != i && r[j][s] == refs[j][s];
    }
  }

  function NoAddrs(): (r: seq<nat>)
    ensures |r| == NDIRECT + 1
  {
    seq(NDIRECT + 1, _ => 0)
  }

  /** Emptying one inode leaves the rest of the table as it was. */
  lemma EmptiedOk(refs: Table, inode: seq<Inode>, data: seq<Block>, owner: seq<Owner>, nmeta: nat, i: nat)
    requires TableOk(refs, inode, data) && DenseOk(refs, inode) && OwnersOk(refs, owner, nmeta) && i < |inode|
             && |data| == |owner|
    ensures var inode' := inode[i := Inode(0, NoAddrs())];
            && TableOk(Emptied(refs, i), inode', data) && DenseOk(Emptied(refs, i), inode')
            && OwnersOk(Emptied(refs, i), Disowned(owner, i), nmeta)
  {
    DisownedOk(refs, owner, nmeta, i);
  }

  lemma EmptiedBits(bits: seq<BitBlock>, refs: Table, owner: seq<Owner>, nmeta: nat, i: nat)
    requires OwnersOk(refs, owner, nmeta) && FreedBits(bits, owner, i, NDIRECT + 1, NSLOT)
    ensures BitsOk(bits, Disowned(owner, i), 0)
  {
  }

  /** Writing one piece after another is writing both at once. */
  lemma SpliceTwice(was: seq<Byte>, off: nat, a: seq<Byte>, b: seq<Byte>)
    requires off <= |was|
    ensures off + |a| <= |Splice(was, off, a)|
    ensures Splice(Splice(was, off, a), off + |a|, b) == Splice(was, off, a + b)
  {
  }
}
