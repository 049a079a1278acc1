/** Block allocation, block mapping, reading, writing and truncating files.

    `data` and `bits` are what bread returns (the newest versions); `inode` is the locked
    in-memory copy and `dinode` its copy in the inode blocks, kept by iupdate. */
module FileSystem {
  import opened Blocks
  import opened Bitmap
  import opened FileBlocks
  import opened Counting

  const IPB := 16
  const CHUNK := 3 * BSIZE    // the bytes of one transaction of filewrite

  /** Disk blocks an operation hands to log_write. */
  datatype Touched = DataBlk(b: nat) | BitmapBlk(k: nat) | InodeBlk(k: nat)

  /** The block at a disk address, if the address is one. */
  ghost function Blk(b: nat): (r: set<Touched>) {
    if b == 0 then {} else {DataBlk(b)}
  }

  /** Every block that differs between two points in time has been handed to log_write in between. */
  ghost predicate ChangesLogged(data0: seq<Block>, bits0: seq<BitBlock>, logged0: set<Touched>,
                                data1: seq<Block>, bits1: seq<BitBlock>, logged1: set<Touched>)
    ensures ChangesLogged(data0, bits0, logged0, data1, bits1, logged1) ==>
              |data0| == |data1| && |bits0| == |bits1|
  {
    && |data0| == |data1| && |bits0| == |bits1| && logged0 <= logged1
    && (forall b :: 0 <= b < |data1| && data1[b] != data0[b] ==> DataBlk(b) in logged1)
    && (forall k :: 0 <= k < |bits1| && bits1[k] != bits0[k] ==> BitmapBlk(k) in logged1)
  }

  lemma ChangesLoggedTwice(data0: seq<Block>, bits0: seq<BitBlock>, logged0: set<Touched>,
                           data1: seq<Block>, bits1: seq<BitBlock>, logged1: set<Touched>,
                           data2: seq<Block>, bits2: seq<BitBlock>, logged2: set<Touched>)
    requires ChangesLogged(data0, bits0, logged0, data1, bits1, logged1)
    requires ChangesLogged(data1, bits1, logged1, data2, bits2, logged2)
    ensures ChangesLogged(data0, bits0, logged0, data2, bits2, logged2)
  {
  }

  lemma NothingChanged(data: seq<Block>, bits: seq<BitBlock>, logged: set<Touched>)
    ensures ChangesLogged(data, bits, logged, data, bits, logged)
  {
  }

  class FileSystem {
    const size: nat
    const nmeta: nat
    var bits: seq<BitBlock>
    var data: seq<Block>
    var inode: seq<Inode>
    var dinode: seq<Inode>
    var logged: set<Touched>       // the blocks handed to log_write in this transaction

    ghost var refs: Table
    ghost var owner: seq<Owner>
    ghost var loan: nat            // a block handed out by balloc and not yet attached

    ghost predicate Valid()
      reads this`bits, this`data, this`inode, this`dinode, this`refs, this`owner, this`loan
      ensures Valid() ==> && |data| == |owner| == size < 0x1_0000_0000 && 0 < nmeta <= size <= BPB * |bits|
                          && |refs| == |inode| == |dinode|
                          && forall i :: 0 <= i < |refs| ==> |refs[i]| == NSLOT && |inode[i].addrs| == NDIRECT + 1
    {
      && |data| == |owner| == size < 0x1_0000_0000 && |inode| == |dinode|
      && TableOk(refs, inode, data)
      && OwnersOk(refs, owner, nmeta)
      && BitsOk(bits, owner, loan)
      && DenseOk(refs, inode)
    }

    /** No block is free. */
    ghost predicate DiskFull()
      reads this`owner
    {
      forall c :: 0 <= c < |owner| ==> owner[c] != Free
    }

    /** An empty file system as mkfs lays it out: nmeta metadata blocks in use, no files' blocks. */
    constructor (size_: nat, nmeta_: nat, ninodes: nat)
      requires 0 < nmeta_ <= size_ < 0x1_0000_0000
      ensures Valid() && loan == 0 && size == size_ && nmeta == nmeta_ && |inode| == ninodes
      ensures forall i :: 0 <= i < ninodes ==> inode[i] == Inode(0, NoAddrs()) == dinode[i]
      ensures forall b :: 0 <= b < size ==> owner[b] == if b < nmeta then Meta else Free
    {
      size, nmeta := size_, nmeta_;
      data := seq(size_, _ => ZERO_BLOCK);
      var empty: BitBlock := seq(BSIZE, _ => 0);
      var marks: seq<BitBlock> := seq(size_ / BPB + 1, _ => empty);
      var used := 0;
      while used < nmeta_
        invariant 0 <= used <= nmeta_ && |marks| == size_ / BPB + 1
        invariant forall b :: 0 <= b < BPB * |marks| ==> (Bit(marks, b) <==> b < used)
      {
        marks := SetBit(marks, used);
        used := used + 1;
      }
      bits := marks;
      inode := seq(ninodes, _ => Inode(0, NoAddrs()));
      dinode := seq(ninodes, _ => Inode(0, NoAddrs()));
      ghost var row: seq<nat> := seq(NSLOT, _ => 0);
      refs := seq(ninodes, _ => row);
      owner := seq(size_, b => if b < nmeta_ then Meta else Free);
      loan := 0;
      logged := {};
    }

    /** The bitmap's blocks. */
    ghost function Maps(): (r: set<Touched>) {
      set c | 0 <= c < size :: BitmapBlk(c / BPB)
    }

    ghost function File(i: nat): (r: seq<Byte>)
      requires i < |inode| && i < |refs|
      reads this
    {
      Content(inode[i], refs[i], data)
    }

    /** The search in balloc: bitmap block by bitmap block, bit by bit. */
    method FindFree() returns (b: nat)
      requires Valid() && loan == 0
      ensures b == 0 ==> DiskFull()
      ensures b != 0 ==> b < size && owner[b] == Free && forall c :: 0 <= c < b ==> owner[c] != Free
    {
      hide TableOk, DenseOk, Bit;
      b := 0;
      var found := false;
      var k := 0;
      while k * BPB < size && !found
        invariant 0 <= k
        invariant !found ==> b == 0 && forall c :: 0 <= c < k * BPB && c < size ==> owner[c] != Free
        invariant found ==> b < size && owner[b] == Free && forall c :: 0 <= c < b ==> owner[c] != Free
        decreases size - k * BPB, !found
      {
        var bi := 0;
        BitAt(bits, k, bi);
        while bi < BPB && k * BPB + bi < size && Test(bits[k], bi)
          invariant 0 <= bi <= BPB
          invariant bi < BPB && k * BPB + bi < size ==> (Bit(bits, k * BPB + bi) <==> Test(bits[k], bi))
          invariant forall c :: 0 <= c < k * BPB + bi && c < size ==> owner[c] != Free
        {
          bi := bi + 1;
          if bi < BPB && k * BPB + bi < size { BitAt(bits, k, bi); }
        }
        if bi < BPB && k * BPB + bi < size {
          b := k * BPB + bi;
          found := true;
        } else {
          k := k + 1;
        }
      }
    }

    /** balloc: the lowest free block, zeroed and marked in use; 0 if there is none. */
    method Balloc() returns (b: nat)
      requires Valid() && loan == 0
      modifies this`bits, this`data, this`loan, this`logged
      ensures Valid() && loan == b
      ensures b == 0 ==> bits == old(bits) && data == old(data) && logged == old(logged)
      ensures b == 0 ==> DiskFull()
      ensures b != 0 ==> && b < size && owner[b] == Free && (forall c :: 0 <= c < b ==> owner[c] != Free)
                         && data == old(data)[b := ZERO_BLOCK]
                         && logged == old(logged) + {BitmapBlk(b / BPB), DataBlk(b)}
      ensures ChangesLogged(old(data), old(bits), old(logged), data, bits, logged)
    {
      b := FindFree();
      if b != 0 {
        bits := SetBit(bits, b);
        TableKept(refs, inode, data, owner, nmeta, b, ZERO_BLOCK);
        data := data[b := ZERO_BLOCK];
        loan := b;
        logged := logged + {BitmapBlk(b / BPB), DataBlk(b)};
      }
    }

    /** bfree: clear the block's bit. False is the "freeing free block" panic. */
    method Bfree(b: nat) returns (ok: bool)
      requires b < BPB * |bits|
      modifies this`bits, this`logged
      ensures ok == old(Bit(bits, b))
      ensures ok ==> bits == ClearBit(old(bits), b) && logged == old(logged) + {BitmapBlk(b / BPB)}
      ensures !ok ==> bits == old(bits) && logged == old(logged)
    {
      ok := Bit(bits, b);
      if ok {
        bits := ClearBit(bits, b);
        logged := logged + {BitmapBlk(b / BPB)};
      }
    }

    /** Nothing that was referenced has moved, been rewritten or changed owner, and no file has
        changed size; `refs` may have gained addresses. */
    ghost predicate Extends(refs0: Table, data0: seq<Block>, owner0: seq<Owner>, inode0: seq<Inode>)
      reads this
    {
      && |refs| == |refs0| && |data| == |data0| == |owner| == |owner0| && |inode| == |inode0|
      && (forall j :: 0 <= j < |inode| ==> inode[j].size == inode0[j].size)
      && (forall j, s :: 0 <= j < |refs| && 0 <= s < |refs0[j]| && refs0[j][s] != 0 ==>
          s < |refs[j]| && refs[j][s] == refs0[j][s])
      && (forall b :: 0 <= b < |owner| && owner0[b] != Free ==> owner[b] == owner0[b])
      && (forall b :: 0 <= b < |owner| && owner0[b] != Free && (owner0[b].Slot? ==> owner0[b].slot != NDIRECT) ==>
          data[b] == data0[b])
    }

    /** bmap: the disk address of block bn of inode i, allocating it (and the indirect block)
        if there is none; 0 if the disk is full. */
    method Bmap(i: nat, bn: nat) returns (addr: nat)
      requires Valid() && loan == 0 && i < |inode| && bn < MAXFILE
      modifies this`bits, this`data, this`loan, this`logged, this`inode, this`refs, this`owner
      ensures Valid() && loan == 0
      ensures Extends(old(refs), old(data), old(owner), old(inode))
      ensures addr == refs[i][SlotOf(bn)]
      ensures addr == 0 ==> DiskFull()
      ensures forall j :: 0 <= j < |inode| && j != i ==> refs[j] == old(refs[j]) && inode[j] == old(inode[j])
      ensures forall s :: 0 <= s < NSLOT && s != NDIRECT && s != SlotOf(bn) ==> refs[i][s] == old(refs[i][s])
      ensures old(refs[i][SlotOf(bn)]) != 0 ==>
                bits == old(bits) && data == old(data) && inode == old(inode) && refs == old(refs)
                  && owner == old(owner) && logged == old(logged)
      ensures logged <= old(logged) + Blk(addr) + Blk(refs[i][NDIRECT]) + Maps()
      ensures ChangesLogged(old(data), old(bits), old(logged), data, bits, logged)
    {
      if bn < NDIRECT {
        addr := BmapInode(i, bn);
      } else {
        addr := BmapIndirect(i, bn);
      }
    }

    /** The part of bmap that reads or fills one address of the inode itself. */
    method BmapInode(i: nat, s: nat) returns (addr: nat)
      requires Valid() && loan == 0 && i < |inode| && s <= NDIRECT
      modifies this`bits, this`data, this`loan, this`logged, this`inode, this`refs, this`owner
      ensures Valid() && loan == 0
      ensures Extends(old(refs), old(data), old(owner), old(inode))
      ensures addr == refs[i][s]
      ensures addr == 0 ==> DiskFull()
      ensures forall j :: 0 <= j < |inode| && j != i ==> refs[j] == old(refs[j]) && inode[j] == old(inode[j])
      ensures forall t :: 0 <= t < NSLOT && t != s ==> refs[i][t] == old(refs[i][t])
      ensures old(refs[i][s]) != 0 ==>
                bits == old(bits) && data == old(data) && inode == old(inode) && refs == old(refs)
                  && owner == old(owner) && logged == old(logged)
      ensures logged <= old(logged) + Blk(addr) + Maps()
      ensures ChangesLogged(old(data), old(bits), old(logged), data, bits, logged)
    {
      hide TableOk, OwnersOk, BitsOk, DenseOk;
      Addresses(i, s);
      addr := inode[i].addrs[s];
      if addr == 0 {
        addr := Balloc();
        if addr != 0 {
          AttachDirect(i, s, addr);
        }
      }
    }

    method BmapIndirect(i: nat, bn: nat) returns (addr: nat)
      requires Valid() && loan == 0 && i < |inode| && NDIRECT <= bn < MAXFILE
      modifies this`bits, this`data, this`loan, this`logged, this`inode, this`refs, this`owner
      ensures Valid() && loan == 0
      ensures Extends(old(refs), old(data), old(owner), old(inode))
      ensures addr == refs[i][SlotOf(bn)]
      ensures addr == 0 ==> DiskFull()
      ensures forall j :: 0 <= j < |inode| && j != i ==> refs[j] == old(refs[j]) && inode[j] == old(inode[j])
      ensures forall s :: 0 <= s < NSLOT && s != NDIRECT && s != SlotOf(bn) ==> refs[i][s] == old(refs[i][s])
      ensures old(refs[i][SlotOf(bn)]) != 0 ==>
                bits == old(bits) && data == old(data) && inode == old(inode) && refs == old(refs)
                  && owner == old(owner) && logged == old(logged)
      ensures logged <= old(logged) + Blk(addr) + Blk(refs[i][NDIRECT]) + Maps()
      ensures ChangesLogged(old(data), old(bits), old(logged), data, bits, logged)
    {
      hide TableOk, OwnersOk, BitsOk, DenseOk, ChangesLogged;
      Addresses(i, bn + 1);
      var ind := BmapInode(i, NDIRECT);
      Addresses(i, bn + 1);
      if ind == 0 {
        addr := 0;
      } else {
        AttachedSelf(refs, i, bn + 1);
        ghost var data1, bits1, logged1 := data, bits, logged;
        addr := BmapEntry(i, bn + 1);
        ChangesLoggedTwice(old(data), old(bits), old(logged), data1, bits1, logged1, data, bits, logged);
      }
    }

    /** The part of bmap that reads or fills one entry of the indirect block. */
    method BmapEntry(i: nat, s: nat) returns (addr: nat)
      requires Valid() && loan == 0 && i < |inode| && NDIRECT < s < NSLOT && refs[i][NDIRECT] != 0
      modifies this`bits, this`data, this`loan, this`logged, this`refs, this`owner
      ensures Valid() && loan == 0
      ensures Extends(old(refs), old(data), old(owner), old(inode))
      ensures addr == refs[i][s]
      ensures addr == 0 ==> DiskFull()
      ensures refs == Attached(old(refs), i, s, addr)
      ensures old(refs[i][s]) != 0 ==> addr == old(refs[i][s]) && bits == old(bits) && data == old(data)
                                       && owner == old(owner) && logged == old(logged)
      ensures logged <= old(logged) + Blk(addr) + Blk(refs[i][NDIRECT]) + Maps()
      ensures ChangesLogged(old(data), old(bits), old(logged), data, bits, logged)
    {
      hide TableOk, OwnersOk, BitsOk, DenseOk, ChangesLogged;
      Addresses(i, s);
      Addresses(i, NDIRECT);
      NothingChanged(data, bits, logged);
      addr := Word(data[inode[i].addrs[NDIRECT]], s - NDIRECT - 1);
      if addr == 0 {
        addr := Balloc();
        if addr != 0 {
          ghost var data1, bits1, logged1 := data, bits, logged;
          AttachIndirect(i, s, addr);
          ChangesLoggedTwice(old(data), old(bits), old(logged), data1, bits1, logged1, data, bits, logged);
        }
      }
      AttachedSelf(old(refs), i, s);
    }

    lemma Addresses(i: nat, s: nat)
      requires Valid() && i < |inode| && s < NSLOT
      ensures inode[i].addrs[NDIRECT] == refs[i][NDIRECT] < |data|
      ensures refs[i][s] == Ref(inode[i], data, s)
      ensures refs[i][s] != 0 ==> refs[i][s] < size && owner[refs[i][s]] == Slot(i, s)
      ensures refs[i][s] < size
    {
      assert refs[i][NDIRECT] == Ref(inode[i], data, NDIRECT);
    }

    method AttachDirect(i: nat, s: nat, b: nat)
      requires Valid() && loan == b != 0 && i < |inode| && s <= NDIRECT && refs[i][s] == 0
      requires b < size && owner[b] == Free && data[b] == ZERO_BLOCK
      modifies this`loan, this`inode, this`refs, this`owner
      ensures Valid() && loan == 0
      ensures refs == Attached(old(refs), i, s, b) && owner == old(owner)[b := Slot(i, s)]
      ensures inode == old(inode)[i := old(inode[i]).(addrs := old(inode[i]).addrs[s := b])]
    {
      AttachOwners(refs, owner, nmeta, i, s, b);
      AttachInInode(refs, inode, data, i, s, b);
      inode := inode[i := inode[i].(addrs := inode[i].addrs[s := b])];
      refs := Attached(refs, i, s, b);
      owner := owner[b := Slot(i, s)];
      loan := 0;
    }

    method AttachIndirect(i: nat, s: nat, b: nat)
      requires Valid() && loan == b != 0 && i < |inode| && NDIRECT < s < NSLOT && refs[i][s] == 0
               && refs[i][NDIRECT] != 0
      requires b < size && owner[b] == Free
      modifies this`loan, this`data, this`refs, this`owner, this`logged
      ensures Valid() && loan == 0
      ensures refs == Attached(old(refs), i, s, b) && owner == old(owner)[b := Slot(i, s)]
      ensures var a := old(refs[i][NDIRECT]); a < |old(data)|
                                              && data == old(data)[a := PutWord(old(data)[a], s - NDIRECT - 1, b)]
      ensures logged == old(logged) + {DataBlk(old(refs[i][NDIRECT]))}
      ensures ChangesLogged(old(data), old(bits), old(logged), data, bits, logged)
    {
      AttachOwners(refs, owner, nmeta, i, s, b);
      AttachInIndirect(refs, inode, data, owner, nmeta, i, s, b);
      var a := inode[i].addrs[NDIRECT];
      assert a == refs[i][NDIRECT] by { assert refs[i][NDIRECT] == Ref(inode[i], data, NDIRECT); }
      data := data[a := PutWord(data[a], s - NDIRECT - 1, b)];
      refs := Attached(refs, i, s, b);
      owner := owner[b := Slot(i, s)];
      loan := 0;
      logged := logged + {DataBlk(a)};
    }

    /** What bmap added changes no byte a file already had. */
    lemma ByteKept(refs0: Table, data0: seq<Block>, owner0: seq<Owner>, inode0: seq<Inode>, j: nat, p: nat)
      requires OwnersOk(refs0, owner0, nmeta) && Extends(refs0, data0, owner0, inode0)
      requires j < |refs0| && |refs[j]| == NSLOT && p < MAXFILE * BSIZE && refs0[j][SlotOf(p / BSIZE)] != 0
      ensures FileByte(refs[j], data, p) == FileByte(refs0[j], data0, p)
      ensures refs[j][SlotOf(p / BSIZE)] == refs0[j][SlotOf(p / BSIZE)]
    {
      var s := SlotOf(p / BSIZE);
      assert owner0[refs0[j][s]] == Slot(j, s);
    }

    lemma FilesKept(refs0: Table, data0: seq<Block>, owner0: seq<Owner>, inode0: seq<Inode>, j: nat)
      requires OwnersOk(refs0, owner0, nmeta) && DenseOk(refs0, inode0) && Extends(refs0, data0, owner0, inode0)
      requires j < |refs0| && |refs[j]| == NSLOT
      ensures Content(inode[j], refs[j], data) == Content(inode0[j], refs0[j], data0)
    {
      forall p | 0 <= p < inode0[j].size
        ensures FileByte(refs[j], data, p) == FileByte(refs0[j], data0, p)
      {
        assert (p / BSIZE) * BSIZE < inode0[j].size && p / BSIZE < MAXFILE;
        ByteKept(refs0, data0, owner0, inode0, j, p);
      }
    }

    /** readi: exactly the requested slice of the file, cut at its end; -1 if a copy to the
        caller fails. `fails` says whether the copy of the chunk that starts at byte tot fails. */
    method Readi(i: nat, off: Word32, n: Word32, fails: nat -> bool) returns (r: int, dst: seq<Byte>)
      requires Valid() && loan == 0 && i < |inode|
      modifies this`bits, this`data, this`loan, this`logged, this`inode, this`refs, this`owner
      ensures unchanged(this)
      ensures var want := if off > inode[i].size || off + n >= 0x1_0000_0000 then 0
                          else if off + n > inode[i].size then inode[i].size - off else n;
              && (r == -1 || r == want == |dst|)
              && (r == -1 ==> |dst| < want && fails(|dst|))
              && (off <= inode[i].size ==> off + |dst| <= inode[i].size && dst == File(i)[off..off + |dst|])
    {
      hide Valid, Content, Extends;
      FileLength(i);
      dst := [];
      r := 0;
      if off > inode[i].size || (off + n) % 0x1_0000_0000 < off {
        return;
      }
      var want: nat := if off + n > inode[i].size then inode[i].size - off else n;
      ghost var f := File(i);
      var tot := 0;
      while tot < want && r == 0
        invariant unchanged(this) && f == File(i) && |f| == inode[i].size
        invariant tot == |dst| <= want && off + want <= inode[i].size
        invariant r == 0 || (r == -1 && tot < want && fails(tot))
        invariant dst == f[off..off + tot]
        decreases want - tot, if r == 0 then 1 else 0
      {
        var p := off + tot;
        var m := if want - tot < BSIZE - p % BSIZE then want - tot else BSIZE - p % BSIZE;
        var chunk := FetchChunk(i, p, m);
        if fails(tot) {
          r := -1;
        } else {
          Slices(f, off, p, p + m);
          dst := dst + chunk;
          tot := tot + m;
        }
      }
      if r == 0 {
        r := tot;
      }
    }

    /** bmap and bread within readi: the block is there, so nothing is allocated. */
    method FetchChunk(i: nat, p: nat, m: nat) returns (chunk: seq<Byte>)
      requires Valid() && loan == 0 && i < |inode| && p + m <= inode[i].size && p % BSIZE + m <= BSIZE && m > 0
      modifies this`bits, this`data, this`loan, this`logged, this`inode, this`refs, this`owner
      ensures unchanged(this)
      ensures |File(i)| == inode[i].size && chunk == File(i)[p..p + m]
    {
      hide Valid, Extends;
      InFile(i, p);
      var addr := Bmap(i, p / BSIZE);
      ReadChunk(i, p, m);
      chunk := data[addr][p % BSIZE..p % BSIZE + m];
    }

    lemma FileLength(i: nat)
      requires i < |inode| && i < |refs|
      ensures |File(i)| == inode[i].size
    {
    }

    lemma InFile(i: nat, p: nat)
      requires Valid() && i < |inode| && p < inode[i].size
      ensures p / BSIZE < MAXFILE && refs[i][SlotOf(p / BSIZE)] != 0
    {
      assert (p / BSIZE) * BSIZE < inode[i].size;
    }

    lemma ReadChunk(i: nat, p: nat, m: nat)
      requires Valid() && i < |inode| && p + m <= inode[i].size && p % BSIZE + m <= BSIZE && m > 0
      ensures refs[i][SlotOf(p / BSIZE)] < |data|
      ensures File(i)[p..p + m] == data[refs[i][SlotOf(p / BSIZE)]][p % BSIZE..p % BSIZE + m]
    {
      InFile(i, p);
      Addresses(i, SlotOf(p / BSIZE));
      forall q | p <= q < p + m ensures q / BSIZE == p / BSIZE && q % BSIZE == p % BSIZE + (q - p) {
        SameBlock(p, m, q);
      }
    }

    /** Put bytes into one mapped block of file i (the memmove and log_write of writei). */
    method PutChunk(i: nat, p: nat, chunk: seq<Byte>, addr: nat)
      requires Valid() && loan == 0 && i < |inode| && p < MAXFILE * BSIZE && p % BSIZE + |chunk| <= BSIZE
      requires addr == refs[i][SlotOf(p / BSIZE)] != 0
      modifies this`data, this`logged
      ensures Valid() && logged == old(logged) + {DataBlk(addr)}
      ensures forall q :: 0 <= q < MAXFILE * BSIZE && refs[i][SlotOf(q / BSIZE)] != 0 ==>
                FileByte(refs[i], data, q) == if p <= q < p + |chunk| then
                    chunk[q - p] else FileByte(refs[i], old(data), q)
      ensures forall j :: 0 <= j < |inode| && j != i ==> File(j) == old(File(j))
      ensures ChangesLogged(old(data), old(bits), old(logged), data, bits, logged)
    {
      Addresses(i, SlotOf(p / BSIZE));
      TableKept(refs, inode, data, owner, nmeta, addr, PutBytes(data[addr], p % BSIZE, chunk));
      ghost var data0 := data;
      data := data[addr := PutBytes(data[addr], p % BSIZE, chunk)];
      logged := logged + {DataBlk(addr)};
      forall q | 0 <= q < MAXFILE * BSIZE && refs[i][SlotOf(q / BSIZE)] != 0
        ensures FileByte(refs[i], data, q) == if p <= q < p + |chunk| then chunk[q - p] else FileByte(refs[i], data0, q)
      {
        ChunkShows(refs, owner, nmeta, data0, i, p, chunk, q);
      }
      forall j | 0 <= j < |inode| && j != i ensures File(j) == old(File(j)) {
        OtherFileKept(j, i, SlotOf(p / BSIZE), data0);
      }
    }

    lemma OtherFileKept(j: nat, i: nat, s: nat, data0: seq<Block>)
      requires Valid() && i < |inode| && j < |inode| && j != i && s < NSLOT && refs[i][s] != 0
      requires |data0| == |data| && forall b :: 0 <= b < |data| && b != refs[i][s] ==> data[b] == data0[b]
      ensures Content(inode[j], refs[j], data) == Content(inode[j], refs[j], data0)
    {
      forall bn | 0 <= bn < MAXFILE && bn * BSIZE < inode[j].size
        ensures refs[j][SlotOf(bn)] < |data| && data[refs[j][SlotOf(bn)]] == data0[refs[j][SlotOf(bn)]]
      {
        Addresses(i, s);
        Addresses(j, SlotOf(bn));
        assert owner[refs[j][SlotOf(bn)]] == Slot(j, SlotOf(bn));
      }
      ContentKept(inode[j], refs[j], data0, refs[j], data);
    }

    /** Bytes of file i: `src[..tot]` from `off` on, `was` everywhere else. */
    ghost predicate Written(i: nat, was: seq<Byte>, off: nat, src: seq<Byte>, tot: nat)
      reads this
    {
      && i < |refs| && |refs[i]| == NSLOT && tot <= |src| && off + |src| <= MAXFILE * BSIZE
      && off <= |was| <= MAXFILE * BSIZE
      && forall q :: 0 <= q < MAXFILE * BSIZE && (q < |was| || q < off + tot) ==>
           && refs[i][SlotOf(q / BSIZE)] != 0
           && FileByte(refs[i], data, q) == if off <= q < off + tot then src[q - off] else was[q]
    }

    /** One turn of writei's loop. addr == 0 is a full disk; `fail` is a failing user copy. */
    method WriteChunk(i: nat, ghost was: seq<Byte>, off: nat, src: seq<Byte>, tot: nat, fail: bool)
      returns (addr: nat, m: nat)
      requires Valid() && loan == 0 && i < |inode| && tot < |src| && Written(i, was, off, src, tot)
      modifies this`bits, this`data, this`loan, this`logged, this`inode, this`refs, this`owner
      ensures Valid() && loan == 0 && |inode| == old(|inode|)
      ensures addr == 0 ==> DiskFull()
      ensures m == if addr == 0 || fail then 0 else if |src| - tot < BSIZE - (off + tot) % BSIZE then
                |src| - tot else BSIZE - (off + tot) % BSIZE
      ensures Written(i, was, off, src, tot + m)
      ensures inode[i].size == old(inode[i].size)
      ensures forall j :: 0 <= j < |inode| && j != i ==>
                inode[j] == old(inode[j]) && refs[j] == old(refs[j]) && File(j) == old(File(j))
      ensures forall s :: 0 <= s < NSLOT && s != NDIRECT && old(refs[i][s]) != 0 ==> refs[i][s] == old(refs[i][s])
      ensures old(refs[i][NDIRECT]) != 0 ==> refs[i][NDIRECT] == old(refs[i][NDIRECT])
      ensures addr == refs[i][SlotOf((off + tot) / BSIZE)]
      ensures logged <= old(logged) + Blk(addr) + Blk(refs[i][NDIRECT]) + Maps()
      ensures ChangesLogged(old(data), old(bits), old(logged), data, bits, logged)
    {
      hide Valid, Extends, Content, ChangesLogged;
      var p := off + tot;
      addr := MapForWrite(i, was, off, src, tot);
      m := 0;
      if addr != 0 && !fail {
        m := if |src| - tot < BSIZE - p % BSIZE then |src| - tot else BSIZE - p % BSIZE;
        ghost var data1, bits1, logged1 := data, bits, logged;
        PutChunk(i, p, src[tot..tot + m], addr);
        ChangesLoggedTwice(old(data), old(bits), old(logged), data1, bits1, logged1, data, bits, logged);
        forall q | p <= q < p + m ensures q / BSIZE == p / BSIZE { SameBlock(p, m, q); }
      }
    }

    /** bmap within writei: nothing written so far, here or in another file, changes. */
    method MapForWrite(i: nat, ghost was: seq<Byte>, off: nat, src: seq<Byte>, tot: nat) returns (addr: nat)
      requires Valid() && loan == 0 && i < |inode| && tot < |src| && Written(i, was, off, src, tot)
      modifies this`bits, this`data, this`loan, this`logged, this`inode, this`refs, this`owner
      ensures Valid() && loan == 0 && |inode| == old(|inode|)
      ensures addr == 0 ==> DiskFull()
      ensures Written(i, was, off, src, tot)
      ensures inode[i].size == old(inode[i].size)
      ensures forall j :: 0 <= j < |inode| && j != i ==>
                inode[j] == old(inode[j]) && refs[j] == old(refs[j]) && File(j) == old(File(j))
      ensures forall s :: 0 <= s < NSLOT && s != NDIRECT && old(refs[i][s]) != 0 ==> refs[i][s] == old(refs[i][s])
      ensures old(refs[i][NDIRECT]) != 0 ==> refs[i][NDIRECT] == old(refs[i][NDIRECT])
      ensures addr == refs[i][SlotOf((off + tot) / BSIZE)]
      ensures logged <= old(logged) + Blk(addr) + Blk(refs[i][NDIRECT]) + Maps()
      ensures ChangesLogged(old(data), old(bits), old(logged), data, bits, logged)
    {
      hide TableOk, BitsOk, Content, ChangesLogged;
      addr := Bmap(i, (off + tot) / BSIZE);
      forall j | 0 <= j < |inode| && j != i ensures File(j) == old(File(j)) {
        FilesKept(old(refs), old(data), old(owner), old(inode), j);
      }
      forall q | 0 <= q < MAXFILE * BSIZE && (q < |was| || q < off + tot)
        ensures refs[i][SlotOf(q / BSIZE)] != 0 && FileByte(refs[i], data, q) == FileByte(old(refs[i]), old(data), q)
      {
        ByteKept(old(refs), old(data), old(owner), old(inode), i, q);
      }
    }

    /** iupdate: copy the in-memory inode to its inode block. */
    method Iupdate(i: nat)
      requires i < |inode| && i < |dinode|
      modifies this`dinode, this`logged
      ensures dinode == old(dinode)[i := inode[i]] && logged == old(logged) + {InodeBlk(i / IPB)}
    {
      dinode := dinode[i := inode[i]];
      logged := logged + {InodeBlk(i / IPB)};
    }

    /** The blocks a write of n bytes at off may log: the data blocks it covers, the indirect
        block, the bitmap and the inode's block. */
    ghost function WriteSet(i: nat, off: nat, n: nat): (r: set<Touched>)
      requires i < |refs| && |refs[i]| == NSLOT && off + n <= MAXFILE * BSIZE
      reads this`refs
    {
      (set bn | off / BSIZE <= bn < (off + n + BSIZE - 1) / BSIZE && bn < MAXFILE
       && refs[i][SlotOf(bn)] != 0 :: DataBlk(refs[i][SlotOf(bn)]))
      + Blk(refs[i][NDIRECT]) + {InodeBlk(i / IPB)}
      + Maps()
    }

    /** writei: file i takes the first r bytes of src at off, no other file changes, and the
        inode is saved. r is short only when a user copy fails or the disk is full; -1 means
        an offset past the end, or more than MAXFILE blocks, and no change at all. */
    method Writei(i: nat, off: Word32, src: seq<Byte>, fails: nat -> bool) returns (r: int)
      requires Valid() && loan == 0 && i < |inode| && |src| < 0x1_0000_0000
      modifies this`bits, this`data, this`loan, this`logged, this`inode, this`refs, this`owner, this`dinode
      ensures Valid() && loan == 0 && |inode| == old(|inode|)
      ensures r == -1 <==> off > old(inode[i].size) || off + |src| > MAXFILE * BSIZE
      ensures r == -1 ==> unchanged(this)
      ensures r != -1 ==>
                && 0 <= r <= |src|
                && File(i) == Splice(old(File(i)), off, src[..r])
                && inode[i].size == |File(i)| && dinode == old(dinode)[i := inode[i]]
                && (r < |src| ==> fails(r) || DiskFull()) && CopiesWork(fails, off, r)
                && logged <= old(logged) + WriteSet(i, off, |src|) && InodeBlk(i / IPB) in logged
      ensures forall j :: 0 <= j < |inode| && j != i ==> inode[j] == old(inode[j]) && File(j) == old(File(j))
      ensures ChangesLogged(old(data), old(bits), old(logged), data, bits, logged)
    {
      hide Valid, Written, Content, WriteSet, Splice, ChangesLogged;
      FileLength(i);
      InodeBound(i);
      NothingChanged(data, bits, logged);
      if off > inode[i].size || (off + |src|) % 0x1_0000_0000 < off {
        return -1;
      }
      if off + |src| > MAXFILE * BSIZE {
        return -1;
      }
      ghost var was := File(i);
      WrittenStart(i, off, src);
      var tot := WriteLoop(i, was, off, src, fails);
      GrowTo(i, was, off, src, tot);
      ghost var data1, bits1, logged1 := data, bits, logged;
      SaveInode(i, off, |src|, old(logged));
      ChangesLoggedTwice(old(data), old(bits), old(logged), data1, bits1, logged1, data, bits, logged);
      r := tot;
    }

    /** iupdate at the end of writei, with the bound on what the whole call logged. */
    method SaveInode(i: nat, ghost off: nat, ghost n: nat, ghost base: set<Touched>)
      requires Valid() && i < |inode| && off + n <= MAXFILE * BSIZE && logged <= base + WriteSet(i, off, n)
      modifies this`dinode, this`logged
      ensures Valid() && dinode == old(dinode)[i := inode[i]] && logged <= base + WriteSet(i, off, n)
      ensures ChangesLogged(data, bits, old(logged), data, bits, logged) && InodeBlk(i / IPB) in logged
    {
      Iupdate(i);
    }

    /** The loop of writei. */
    method WriteLoop(i: nat, ghost was: seq<Byte>, off: nat, src: seq<Byte>, fails: nat -> bool) returns (tot: nat)
      requires Valid() && loan == 0 && i < |inode| && Written(i, was, off, src, 0)
      modifies this`bits, this`data, this`loan, this`logged, this`inode, this`refs, this`owner
      ensures Valid() && loan == 0 && |inode| == old(|inode|) && tot <= |src|
      ensures off + |src| <= MAXFILE * BSIZE
      ensures Written(i, was, off, src, tot)
      ensures inode[i].size == old(inode[i].size)
      ensures tot < |src| ==> fails(tot) || DiskFull()
      ensures CopiesWork(fails, off, tot)
      ensures forall j :: 0 <= j < |inode| && j != i ==> inode[j] == old(inode[j]) && File(j) == old(File(j))
      ensures logged <= old(logged) + WriteSet(i, off, |src|)
      ensures ChangesLogged(old(data), old(bits), old(logged), data, bits, logged)
    {
      hide Valid, Written, Content, WriteSet, ChangesLogged;
      WrittenBounds(i, was, off, src, 0);
      NothingChanged(data, bits, logged);
      tot := 0;
      var stop := false;
      while tot < |src| && !stop
        invariant Valid() && loan == 0 && |inode| == old(|inode|)
        invariant 0 <= tot <= |src| && Written(i, was, off, src, tot)
        invariant inode[i].size == old(inode[i].size)
        invariant stop ==> tot < |src| && (fails(tot) || DiskFull())
        invariant CopiesWork(fails, off, tot)
        invariant forall j :: 0 <= j < |inode| && j != i ==> inode[j] == old(inode[j]) && File(j) == old(File(j))
        invariant logged <= old(logged) + WriteSet(i, off, |src|)
        invariant ChangesLogged(old(data), old(bits), old(logged), data, bits, logged)
        decreases |src| - tot, !stop
      {
        ghost var data1, bits1, logged1 := data, bits, logged;
        var addr, m := WriteStep(i, was, off, src, tot, fails(tot), old(logged));
        ChangesLoggedTwice(old(data), old(bits), old(logged), data1, bits1, logged1, data, bits, logged);
        if addr == 0 || fails(tot) {
          stop := true;
        }
        MoreCopied(fails, off, tot, m);
        tot := tot + m;
      }
    }

    /** One turn of the loop, with the bound on what has been logged since `base`. */
    method WriteStep(i: nat, ghost was: seq<Byte>, off: nat, src: seq<Byte>, tot: nat, fail: bool,
                     ghost base: set<Touched>)
      returns (addr: nat, m: nat)
      requires Valid() && loan == 0 && i < |inode| && tot < |src| && Written(i, was, off, src, tot)
      requires logged <= base + WriteSet(i, off, |src|)
      modifies this`bits, this`data, this`loan, this`logged, this`inode, this`refs, this`owner
      ensures Valid() && loan == 0 && |inode| == old(|inode|)
      ensures addr == 0 ==> DiskFull()
      ensures m == if addr == 0 || fail then 0 else if |src| - tot < BSIZE - (off + tot) % BSIZE then
                |src| - tot else BSIZE - (off + tot) % BSIZE
      ensures Written(i, was, off, src, tot + m)
      ensures inode[i].size == old(inode[i].size)
      ensures forall j :: 0 <= j < |inode| && j != i ==>
                inode[j] == old(inode[j]) && refs[j] == old(refs[j]) && File(j) == old(File(j))
      ensures logged <= base + WriteSet(i, off, |src|)
      ensures ChangesLogged(old(data), old(bits), old(logged), data, bits, logged)
    {
      hide Valid, Written, Content;
      WrittenBounds(i, was, off, src, tot);
      ghost var wset := WriteSet(i, off, |src|);
      addr, m := WriteChunk(i, was, off, src, tot, fail);
      ghost var bn := (off + tot) / BSIZE;
      assert off / BSIZE <= bn < (off + |src| + BSIZE - 1) / BSIZE && bn < MAXFILE;
      assert Blk(addr) <= WriteSet(i, off, |src|);
      assert wset <= WriteSet(i, off, |src|);
    }

    lemma WrittenBounds(i: nat, was: seq<Byte>, off: nat, src: seq<Byte>, tot: nat)
      requires Written(i, was, off, src, tot)
      ensures i < |refs| && |refs[i]| == NSLOT && tot <= |src| && off + |src| <= MAXFILE * BSIZE
    {
    }

    /** The end of writei: the file grows if the write went past its end. */
    method GrowTo(i: nat, ghost was: seq<Byte>, off: nat, ghost src: seq<Byte>, tot: nat)
      requires Valid() && i < |inode| && Written(i, was, off, src, tot) && |was| == inode[i].size
      modifies this`inode
      ensures Valid() && |inode| == old(|inode|)
      ensures File(i) == Splice(was, off, src[..tot]) && inode[i].size == |File(i)|
      ensures forall j :: 0 <= j < |inode| && j != i ==> inode[j] == old(inode[j]) && File(j) == old(File(j))
    {
      hide OwnersOk, BitsOk;
      if off + tot > inode[i].size {
        forall bn | 0 <= bn < MAXFILE && bn * BSIZE < off + tot ensures refs[i][SlotOf(bn)] != 0 {
          assert (bn * BSIZE) / BSIZE == bn;
        }
        assert TableOk(refs, inode[i := inode[i].(size := off + tot)], data) by {
          forall s | 0 <= s < NSLOT ensures refs[i][s] == Ref(inode[i].(size := off + tot), data, s) {
            assert refs[i][s] == Ref(inode[i], data, s);
          }
        }
        inode := inode[i := inode[i].(size := off + tot)];
      }
    }

    /** ip->size set back to an earlier value: the file is cut there; the blocks beyond stay its own. */
    method SetSize(i: nat, sz: nat)
      requires Valid() && i < |inode| && sz <= inode[i].size
      modifies this`inode
      ensures Valid() && |inode| == old(|inode|)
      ensures inode[i].size == sz && |old(File(i))| == old(inode[i].size) && File(i) == old(File(i))[..sz]
      ensures forall j :: 0 <= j < |inode| && j != i ==> inode[j] == old(inode[j]) && File(j) == old(File(j))
    {
      hide OwnersOk, BitsOk;
      assert TableOk(refs, inode[i := inode[i].(size := sz)], data) by {
        forall s | 0 <= s < NSLOT ensures refs[i][s] == Ref(inode[i].(size := sz), data, s) {
          assert refs[i][s] == Ref(inode[i], data, s);
        }
      }
      inode := inode[i := inode[i].(size := sz)];
    }

    /** The same with the iupdate that saves it. */
    method CutBack(i: nat, sz: nat)
      requires Valid() && i < |inode| && sz <= inode[i].size
      modifies this`inode, this`dinode, this`logged
      ensures Valid() && |inode| == old(|inode|) && dinode == old(dinode)[i := inode[i]]
      ensures inode[i].size == sz && |old(File(i))| == old(inode[i].size) && File(i) == old(File(i))[..sz]
      ensures forall j :: 0 <= j < |inode| && j != i ==> inode[j] == old(inode[j]) && File(j) == old(File(j))
    {
      SetSize(i, sz);
      hide TableOk, OwnersOk, BitsOk, DenseOk, Content;
      Iupdate(i);
    }

    lemma InodeBound(i: nat)
      requires Valid() && i < |inode|
      ensures inode[i].size <= MAXFILE * BSIZE
    {
    }

    lemma WrittenStart(i: nat, off: nat, src: seq<Byte>)
      requires Valid() && i < |inode| && off <= inode[i].size && off + |src| <= MAXFILE * BSIZE
      ensures |File(i)| == inode[i].size && Written(i, File(i), off, src, 0)
    {
      forall q | 0 <= q < MAXFILE * BSIZE && q < inode[i].size ensures refs[i][SlotOf(q / BSIZE)] != 0 {
        InFile(i, q);
      }
    }

    /** A bit is set exactly for a metadata block and for a block that exactly one slot of one inode
        names; block 0 is never named. */
    lemma AllocatedIffReferencedOnce(b: nat)
      requires Valid() && loan == 0 && b < size
      ensures Bit(bits, b) <==> b < nmeta || exists i: nat, s: nat :: NamedBy(i, s, b)
      ensures forall i: nat, s: nat, j: nat, t: nat :: NamedBy(i, s, b) && NamedBy(j, t, b) ==>
                i == j && s == t && b >= nmeta
    {
      if owner[b].Slot? { assert NamedBy(owner[b].inum, owner[b].slot, b); }
      forall i: nat, s: nat | NamedBy(i, s, b) ensures owner[b] == Slot(i, s) { assert refs[i][s] == b; }
    }

    /** Slot s of inode i holds this address. */
    ghost predicate NamedBy(i: nat, s: nat, b: nat)
      reads this
    {
      i < |refs| && s < |refs[i]| && s < NSLOT && refs[i][s] == b && b != 0
    }

    // ---- truncation --------------------------------------------------------------

    /** One bfree of itrunc, for slot s: `lo` and `hi` say what is gone before, `lo1` and `hi1` after. */
    method FreeSlot(i: nat, s: nat, b: nat, ghost lo: nat, ghost hi: nat, ghost lo1: nat, ghost hi1: nat)
      returns (ok: bool)
      requires OwnersOk(refs, owner, nmeta) && i < |refs| && s < NSLOT && b == refs[i][s]
               && FreedBits(bits, owner, i, lo, hi)
      requires !Gone(Slot(i, s), i, lo, hi) && Gone(Slot(i, s), i, lo1, hi1)
      requires forall t :: 0 <= t < NSLOT && t != s ==> (Gone(Slot(i, t), i, lo, hi) <==> Gone(Slot(i, t), i, lo1, hi1))
      modifies this`bits, this`logged
      ensures ok && FreedBits(bits, owner, i, lo1, hi1) && |bits| == |old(bits)|
      ensures |owner| <= size ==> logged <= old(logged) + Maps()
    {
      ok := true;
      if b != 0 {
        ok := Bfree(b);
      }
      forall c | 0 <= c < |owner|
        ensures Gone(owner[c], i, lo1, hi1) <==> Gone(owner[c], i, lo, hi) || owner[c] == Slot(i, s)
      {
        assert owner[c].Slot? && owner[c].inum == i ==> owner[c] == Slot(i, owner[c].slot);
      }
    }

    /** The first loop of itrunc: the direct blocks. */
    method FreeDirect(i: nat) returns (ok: bool)
      requires Valid() && loan == 0 && i < |inode|
      modifies this`bits, this`logged, this`inode
      ensures ok && FreedBits(bits, owner, i, NDIRECT, NDIRECT + 1) && logged <= old(logged) + Maps()
      ensures |inode| == |old(inode)| && inode == old(inode)[i := inode[i]] && inode[i].size == old(inode[i]).size
      ensures |inode[i].addrs| == NDIRECT + 1 && inode[i].addrs[NDIRECT] == old(inode[i]).addrs[NDIRECT]
      ensures forall s :: 0 <= s < NDIRECT ==> inode[i].addrs[s] == 0
    {
      hide OwnersOk, DenseOk, Bit;
      ok := true;
      var s := 0;
      assert forall t :: 0 <= t < NDIRECT ==> refs[i][t] == Ref(inode[i], data, t);
      while s < NDIRECT
        invariant 0 <= s <= NDIRECT && ok && FreedBits(bits, owner, i, s, NDIRECT + 1) && logged <= old(logged) + Maps()
        invariant |inode| == |old(inode)| && forall j :: 0 <= j < |inode| && j != i ==> inode[j] == old(inode[j])
        invariant inode[i].size == old(inode[i]).size && |inode[i].addrs| == NDIRECT + 1
        invariant forall t :: 0 <= t < s ==> inode[i].addrs[t] == 0
        invariant forall t :: s <= t <= NDIRECT ==> inode[i].addrs[t] == old(inode[i]).addrs[t]
      {
        var freed := FreeSlot(i, s, inode[i].addrs[s], s, NDIRECT + 1, s + 1, NDIRECT + 1);
        ok := ok && freed;
        inode := inode[i := inode[i].(addrs := inode[i].addrs[s := 0])];
        s := s + 1;
      }
    }

    /** The second part of itrunc: the blocks the indirect block names, then the block itself. */
    method FreeIndirect(i: nat) returns (ok: bool)
      requires i < |inode| == |refs| && |data| == |owner| == size && OwnersOk(refs, owner, nmeta)
               && FreedBits(bits, owner, i, NDIRECT, NDIRECT + 1)
      requires |inode[i].addrs| == NDIRECT + 1 && inode[i].addrs[NDIRECT] < |data|
      requires forall s :: NDIRECT <= s < NSLOT ==> refs[i][s] == Ref(inode[i], data, s)
      modifies this`bits, this`logged
      ensures ok && FreedBits(bits, owner, i, NDIRECT + 1, NSLOT) && logged <= old(logged) + Maps()
    {
      hide Bit;
      ok := true;
      var j := 0;
      if inode[i].addrs[NDIRECT] != 0 {
        while j < NINDIRECT
          invariant 0 <= j <= NINDIRECT && ok && FreedBits(bits, owner, i, NDIRECT, NDIRECT + 1 + j)
          invariant logged <= old(logged) + Maps()
        {
          var freed := FreeSlot(i, NDIRECT + 1 + j, Word(data[inode[i].addrs[NDIRECT]], j), NDIRECT, NDIRECT + 1 + j,
                                NDIRECT, NDIRECT + 2 + j);
          ok := ok && freed;
          j := j + 1;
        }
        var freed := FreeSlot(i, NDIRECT, inode[i].addrs[NDIRECT], NDIRECT, NSLOT, NDIRECT + 1, NSLOT);
        ok := ok && freed;
      } else {
        NoIndirect(i);
      }
    }

    /** Without an indirect block there is nothing behind it to free. */
    lemma NoIndirect(i: nat)
      requires i < |refs| && OwnersOk(refs, owner, nmeta) && FreedBits(bits, owner, i, NDIRECT, NDIRECT + 1)
      requires forall s :: NDIRECT <= s < NSLOT ==> refs[i][s] == 0
      ensures FreedBits(bits, owner, i, NDIRECT + 1, NSLOT)
    {
      forall b | 0 <= b < |owner| && owner[b].Slot? && owner[b].inum == i ensures owner[b].slot < NDIRECT {
        assert refs[i][owner[b].slot] == b && owner[0] == Meta;
      }
    }

    /** itrunc: the file is empty, every block it had is free again, and nothing else changes;
        the "freeing free block" panic is not reached. */
    method Itrunc(i: nat) returns (ok: bool)
      requires Valid() && loan == 0 && i < |inode|
      modifies this`bits, this`logged, this`inode, this`refs, this`owner, this`dinode
      ensures ok && Valid() && |inode| == old(|inode|)
      ensures File(i) == [] && inode[i].size == 0 && dinode == old(dinode)[i := inode[i]]
      ensures logged <= old(logged) + Maps() + {InodeBlk(i / IPB)}
      ensures forall s :: 0 <= s < NSLOT ==> refs[i][s] == 0
      ensures forall b :: 0 <= b < size ==>
                owner[b] == if old(owner[b]).Slot? && old(owner[b]).inum == i then Free else old(owner[b])
      ensures forall j :: 0 <= j < |inode| && j != i ==>
                inode[j] == old(inode[j]) && refs[j] == old(refs[j]) && File(j) == old(File(j))
    {
      hide OwnersOk, BitsOk, DenseOk, FreedBits, Gone;
      EmptiedOk(refs, inode, data, owner, nmeta, i);
      ok := FreeDirect(i);
      assert forall s :: NDIRECT <= s < NSLOT ==> refs[i][s] == Ref(inode[i], data, s) by {
        assert forall s :: NDIRECT <= s < NSLOT ==> refs[i][s] == Ref(old(inode[i]), data, s);
      }
      var rest := FreeIndirect(i);
      ok := ok && rest;
      EmptiedBits(bits, refs, owner, nmeta, i);
      inode := inode[i := Inode(0, inode[i].addrs[NDIRECT := 0])];
      assert inode[i].addrs == NoAddrs() && inode == old(inode)[i := Inode(0, NoAddrs())];
      Iupdate(i);
      refs := Emptied(refs, i);
      owner := Disowned(owner, i);
    }

    // ---- filewrite -----------------------------------------------------------------

    /** One transaction of filewrite: writei of at most 3 blocks' worth of bytes, logging at most
        4 data blocks, the indirect block, the inode's block and the bitmap. */
    method WriteTransaction(i: nat, off: Word32, src: seq<Byte>, fails: nat -> bool) returns (r: int)
      requires Valid() && loan == 0 && i < |inode| && |src| <= CHUNK
      modifies this`bits, this`data, this`loan, this`logged, this`inode, this`refs, this`owner, this`dinode
      ensures Valid() && loan == 0 && |inode| == old(|inode|)
      ensures r == -1 <==> off > old(inode[i].size) || off + |src| > MAXFILE * BSIZE
      ensures r == -1 ==> File(i) == old(File(i))
      ensures r != -1 ==>
                && 0 <= r <= |src| && |old(File(i))| == old(inode[i].size)
                && File(i) == Splice(old(File(i)), off, src[..r])
                && (r < |src| ==> fails(r) || DiskFull()) && CopiesWork(fails, off, r)
      ensures forall j :: 0 <= j < |inode| && j != i ==> inode[j] == old(inode[j]) && File(j) == old(File(j))
      ensures inode[i].size == |File(i)|
      ensures |logged| <= 6 + |bits| && ChangesLogged(old(data), old(bits), {}, data, bits, logged)
      ensures dinode == old(dinode)[i := dinode[i]] && (dinode != old(dinode) ==> InodeBlk(i / IPB) in logged)
      ensures r != -1 ==> dinode[i] == inode[i]
      ensures r == -1 ==> inode == old(inode) && dinode == old(dinode)
      ensures forall t :: t in logged ==> OnDisk(t, i)
    {
      hide Valid, Content, Splice, WriteSet;
      FileLength(i);
      logged := {};
      r := Writei(i, off, src, fails);
      FileLength(i);
      if r != -1 {
        WriteSetSize(i, off, |src|);
        WriteSetOnDisk(i, off, |src|);
        Subset(logged, WriteSet(i, off, |src|));
      }
    }

    /** filewrite on an inode, n bytes of src at the file offset: one transaction per 3 blocks.
        Whatever the number of transactions, the file takes one prefix src[..done] at off and the
        offset moves by done; the result is n if all of it went in and -1 otherwise, which needs a bad
        offset, a file past its largest size, a failing copy or a full disk. */
    method FileWrite(i: nat, off: Word32, n: int, src: seq<Byte>, fails: nat -> bool)
      returns (r: int, off': nat, ghost done: nat)
      requires Valid() && loan == 0 && i < |inode| && |src| == (if n < 0 then 0 else n) && n < 0x8000_0000
      modifies this`bits, this`data, this`loan, this`logged, this`inode, this`refs, this`owner, this`dinode
      ensures Valid() && loan == 0 && |inode| == old(|inode|)
      ensures r == if done == n then n else -1
      ensures done <= |src| && off' == off + done
      ensures |old(File(i))| == old(inode[i].size)
      ensures off > old(inode[i].size) ==> done == 0 && File(i) == old(File(i))
      ensures off <= old(inode[i].size) ==> File(i) == Splice(old(File(i)), off, src[..done])
      ensures done < n ==> MayStop(old(inode[i].size), off, n, done, fails, DiskFull())
      ensures ChunksWork(fails, off, done) && (0 < done ==> off + done <= MAXFILE * BSIZE)
      ensures forall j :: 0 <= j < |inode| && j != i ==> inode[j] == old(inode[j]) && File(j) == old(File(j))
    {
      hide Valid, Content, Splice, ChunksWork, DiskFull, MayStop, Progress;
      ghost var was := File(i);
      FileLength(i);
      var k: nat, stop := 0, false;
      off', done := off, 0;
      ProgressStart(i, off, src);
      NoChunksYet(fails, off);
      while k < n && !stop
        invariant Valid() && loan == 0 && |inode| == old(|inode|)
        invariant 0 <= k <= done <= |src| && off' == off + done && (!stop ==> k == done) && (stop ==> k < n && done < n)
        invariant Progress(i, was, off, src, done) && ChunksWork(fails, off, done) && off' < 0x1_0000_0000
        invariant stop ==> MayStop(|was|, off, n, done, fails, DiskFull())
        invariant !stop && k < n ==> k % CHUNK == 0
        invariant forall j :: 0 <= j < |inode| && j != i ==> inode[j] == old(inode[j]) && File(j) == old(File(j))
        decreases n - k, !stop
      {
        var n1 := if n - k > CHUNK then CHUNK else n - k;
        var w := WriteOnce(i, was, off, src, fails, k, n1);
        if w >= 0 {
          off', done := off' + w, done + w;
        }
        if w != n1 {
          stop := true;
        } else {
          k := k + w;
        }
      }
      r := if k == n then n else -1;
      ProgressIs(i, was, off, src, done);
    }

    /** File i is `was` with src[..done] at off. */
    ghost predicate Progress(i: nat, was: seq<Byte>, off: nat, src: seq<Byte>, done: nat)
      reads this
    {
      && i < |inode| && i < |refs| && done <= |src| && |File(i)| == inode[i].size
      && (if off > |was| then done == 0 && File(i) == was
          else off + done <= |File(i)| && File(i) == Splice(was, off, src[..done]))
      && (0 < done ==> off + done <= MAXFILE * BSIZE)
    }

    lemma ProgressStart(i: nat, off: nat, src: seq<Byte>)
      requires i < |inode| && i < |refs|
      ensures Progress(i, File(i), off, src, 0)
    {
      hide Content, Splice;
      FileLength(i);
      SpliceNothing(File(i), off, src);
    }

    lemma ProgressIs(i: nat, was: seq<Byte>, off: nat, src: seq<Byte>, done: nat)
      requires Progress(i, was, off, src, done)
      ensures off > |was| ==> done == 0 && File(i) == was
      ensures off <= |was| ==> File(i) == Splice(was, off, src[..done])
      ensures 0 < done ==> off + done <= MAXFILE * BSIZE
    {
    }

    /** One turn of filewrite's loop, n1 bytes from k on. */
    method WriteOnce(i: nat, ghost was: seq<Byte>, off: nat, src: seq<Byte>, fails: nat -> bool, k: nat, n1: nat)
      returns (w: int)
      requires Valid() && loan == 0 && Progress(i, was, off, src, k) && ChunksWork(fails, off, k)
      requires k + n1 <= |src| && n1 <= CHUNK && k % CHUNK == 0 && off + k < 0x1_0000_0000
      modifies this`bits, this`data, this`loan, this`logged, this`inode, this`refs, this`owner, this`dinode
      ensures Valid() && loan == 0 && |inode| == old(|inode|) && -1 <= w <= n1
      ensures var done := if w >= 0 then k + w else k;
              && Progress(i, was, off, src, done) && ChunksWork(fails, off, done) && off + done < 0x1_0000_0000
              && (w < n1 ==> MayStop(|was|, off, |src|, done, fails, DiskFull()))
      ensures w == CHUNK ==> (k + w) % CHUNK == 0
      ensures forall j :: 0 <= j < |inode| && j != i ==> inode[j] == old(inode[j]) && File(j) == old(File(j))
    {
      hide Valid, Content, Splice, ChunksWork, CopiesWork, DiskFull, MayStop;
      ghost var before := File(i);
      var here := (t: nat) => fails(k + t);
      w := WriteTransaction(i, off + k, src[k..k + n1], here);
      if w >= 0 {
        SpliceMore(was, off, src, k, src[k..k + n1][..w], before);
        MoreChunks(fails, here, off, k, w);
      }
      if w < n1 {
        StopCause(|was|, off, |src|, k, n1, w, fails, here, DiskFull());
      }
    }

    /** A block a transaction on inode i may touch: one of its data blocks, the bitmap's, or its inode's. */
    ghost predicate OnDisk(t: Touched, i: nat)
      reads this`bits
    {
      match t
      case DataBlk(b) => nmeta <= b < size
      case BitmapBlk(k) => k < |bits|
      case InodeBlk(k) => k == i / IPB
    }

    lemma WriteSetOnDisk(i: nat, off: nat, n: nat)
      requires Valid() && i < |inode| && i < |refs| && off + n <= MAXFILE * BSIZE
      ensures forall t :: t in WriteSet(i, off, n) ==> OnDisk(t, i)
    {
      hide TableOk, BitsOk, DenseOk;
      forall s | 0 <= s < NSLOT && refs[i][s] != 0 ensures nmeta <= refs[i][s] < size {
        assert owner[refs[i][s]] == Slot(i, s);
      }
    }

    lemma WriteSetSize(i: nat, off: nat, n: nat)
      requires Valid() && i < |refs| && off + n <= MAXFILE * BSIZE && n <= 3 * BSIZE
      ensures |WriteSet(i, off, n)| <= 6 + |bits|
    {
      hide Valid;
      var first, end := off / BSIZE, (off + n + BSIZE - 1) / BSIZE;
      assert end <= first + 4;
      var row := refs[i];
      var nth := (k: int) => if 0 <= k < MAXFILE - first then DataBlk(row[SlotOf(first + k)]) else DataBlk(0);
      var blocks := set bn | first <= bn < end && bn < MAXFILE && row[SlotOf(bn)] != 0 :: DataBlk(row[SlotOf(bn)]);
      forall bn | first <= bn < end && bn < MAXFILE ensures DataBlk(row[SlotOf(bn)]) in Image(4, nth) {
        assert DataBlk(row[SlotOf(bn)]) == nth(bn - first);
      }
      ImageSize(4, nth);
      Subset(blocks, Image(4, nth));
      var region := (k: int) => if k < 0 then BitmapBlk(0) else BitmapBlk(k);
      var maps := Maps();
      forall c | 0 <= c < size ensures BitmapBlk(c / BPB) in Image(|bits|, region) {
        assert BitmapBlk(c / BPB) == region(c / BPB);
      }
      ImageSize(|bits|, region);
      Subset(maps, Image(|bits|, region));
      assert WriteSet(i, off, n) == blocks + Blk(row[NDIRECT]) + {InodeBlk(i / IPB)} + maps;
    }
  }

  /** writei copies piece by piece: the first starts at the first byte, each other one with a block of the
      file. None that starts before `done` fails. */
  ghost predicate CopiesWork(fails: nat -> bool, off: nat, done: nat) {
    forall t :: 0 <= t < done && PieceAt(off, t) ==> !fails(t)
  }

  predicate PieceAt(off: nat, t: nat) {
    t == 0 || (off + t) % BSIZE == 0
  }

  lemma MoreCopied(fails: nat -> bool, off: nat, tot: nat, m: nat)
    requires CopiesWork(fails, off, tot) && (m == 0 || !fails(tot)) && (off + tot) % BSIZE + m <= BSIZE
    ensures CopiesWork(fails, off, tot + m)
  {
    forall t | tot < t < tot + m ensures !PieceAt(off, t) {
      SameBlock(off + tot, m, off + t);
    }
  }

  /** In filewrite a piece also starts with each transaction. */
  ghost predicate ChunksWork(fails: nat -> bool, off: nat, done: nat) {
    forall t :: 0 <= t < done && (t % CHUNK == 0 || PieceAt(off, t)) ==> !fails(t)
  }

  lemma MoreChunks(fails: nat -> bool, here: nat -> bool, off: nat, k: nat, w: nat)
    requires ChunksWork(fails, off, k) && k % CHUNK == 0 && w <= CHUNK && forall t: nat :: here(t) == fails(k + t)
    requires CopiesWork(here, off + k, w)
    ensures ChunksWork(fails, off, k + w) && (w == CHUNK ==> (k + w) % CHUNK == 0)
  {
    forall t | k <= t < k + w && (t % CHUNK == 0 || PieceAt(off, t)) ensures !fails(t) {
      assert t % CHUNK == 0 ==> t == k;
      assert PieceAt(off + k, t - k);
      assert !here(t - k);
    }
  }

  lemma NoChunksYet(fails: nat -> bool, off: nat)
    ensures ChunksWork(fails, off, 0)
  {
  }

  /** Why filewrite of n bytes at off may end after `done` of them: a bad offset, the largest file size, a
      failing copy or a full disk. */
  predicate MayStop(size: nat, off: nat, n: int, done: nat, fails: nat -> bool, full: bool) {
    off > size || off + n > MAXFILE * BSIZE || fails(done) || full
  }

  lemma StopCause(size: nat, off: nat, n: int, k: nat, n1: nat, w: int, fails: nat -> bool, here: nat -> bool,
                  full: bool)
    requires forall t: nat :: here(t) == fails(k + t)
    requires k + n1 <= n && -1 <= w < n1 && (k > 0 ==> off <= size)
    requires w == -1 ==> (k == 0 && off > size) || off + k + n1 > MAXFILE * BSIZE
    requires w >= 0 ==> here(w) || full
    ensures MayStop(size, off, n, if w >= 0 then k + w else k, fails, full)
  {
  }

  ghost function Image(n: nat, f: int -> Touched): (r: set<Touched>) {
    set k | 0 <= k < n :: f(k)
  }

  lemma {:induction false} ImageSize(n: nat, f: int -> Touched)
    ensures |Image(n, f)| <= n
  {
    if n > 0 {
      ImageSize(n - 1, f);
      assert Image(n, f) == Image(n - 1, f) + {f(n - 1)};
    }
  }

  lemma SpliceNothing(was: seq<Byte>, off: nat, src: seq<Byte>)
    ensures off <= |was| ==> Splice(was, off, src[..0]) == was
  {
  }

  lemma SpliceMore(was: seq<Byte>, off: nat, src: seq<Byte>, done: nat, more: seq<Byte>, now: seq<Byte>)
    requires off <= |was| && done + |more| <= |src| && more == src[done..done + |more|]
             && now == Splice(was, off, src[..done])
    ensures off + done <= |now| && off + done + |more| <= |Splice(now, off + done, more)|
    ensures Splice(now, off + done, more) == Splice(was, off, src[..done + |more|])
  {
    assert src[..done + |more|] == src[..done] + more;
    SpliceTwice(was, off, src[..done], more);
  }

  lemma Slices<T>(f: seq<T>, a: nat, b: nat, c: nat)
    requires a <= b <= c <= |f|
    ensures f[a..c] == f[a..b] + f[b..c]
  {
  }
}
