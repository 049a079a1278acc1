/** A file system as it lies on disk: the bitmap's bytes, the inodes' words, the data blocks. */
module FileDisk {
  import opened Blocks
  import opened Counting
  import opened CrashRecovery
  import opened Bitmap
  import opened FileBlocks
  import opened Files = FileSystem

  /** Where mkfs puts the bitmap and the inodes. */
  datatype Super = Super(bmapstart: nat, inodestart: nat)

  /** What the disk holds of a file system. */
  datatype Fs = Fs(bits: seq<BitBlock>, data: seq<Block>, inode: seq<Inode>)

  /** The block number that log_write sees: BBLOCK, IBLOCK or the address itself. */
  function BlockNo(sb: Super, t: Touched): (b: nat) {
    match t
    case DataBlk(b) => b
    case BitmapBlk(k) => sb.bmapstart + k
    case InodeBlk(k) => sb.inodestart + k
  }

  ghost function BlockNos(sb: Super, ts: set<Touched>): (r: set<nat>) {
    set t | t in ts :: BlockNo(sb, t)
  }

  lemma {:induction false} NoMoreNumbers(sb: Super, ts: set<Touched>)
    ensures |BlockNos(sb, ts)| <= |ts|
  {
    if ts != {} {
      var t :| t in ts;
      NoMoreNumbers(sb, ts - {t});
      assert BlockNos(sb, ts) == BlockNos(sb, ts - {t}) + {BlockNo(sb, t)};
    }
  }

  // ---- bitmap and inode blocks as bytes -----------------------------------------------------

  function ByteOf(x: bv8): (b: Byte) {
    x as int
  }

  function MapBytes(b: BitBlock): (r: Block) {
    seq(BSIZE, i requires 0 <= i < BSIZE => ByteOf(b[i]))
  }

  const INODE_WORDS := 16    // a struct dinode is 64 bytes: two words of type and links, size, addresses

  function Address(b: Block, slot: nat, j: nat): (a: nat)
    requires slot < IPB && j < NDIRECT + 1
  {
    Word(b, INODE_WORDS * slot + 3 + j)
  }

  /** Inode `slot` of an inode block. */
  function InodeIn(b: Block, slot: nat): (ip: Inode)
    requires slot < IPB
    ensures |ip.addrs| == NDIRECT + 1
  {
    Inode(Word(b, INODE_WORDS * slot + 2),
          seq(NDIRECT + 1, j requires 0 <= j < NDIRECT + 1 => Address(b, slot, j)))
  }

  predicate Fits32(ip: Inode) {
    && ip.size < 0x1_0000_0000 && |ip.addrs| == NDIRECT + 1
    && forall j :: 0 <= j < |ip.addrs| ==> ip.addrs[j] < 0x1_0000_0000
  }

  /** iupdate's copy of the first n addresses. */
  function PutAddrs(b: Block, slot: nat, ip: Inode, n: nat): (r: Block)
    requires slot < IPB && Fits32(ip) && n <= NDIRECT + 1
  {
    if n == 0 then b else PutWord(PutAddrs(b, slot, ip, n - 1), INODE_WORDS * slot + 2 + n, ip.addrs[n - 1])
  }

  /** iupdate: the inode over its old bytes in its block. */
  function PutInode(b: Block, slot: nat, ip: Inode): (r: Block)
    requires slot < IPB && Fits32(ip)
  {
    PutAddrs(PutWord(b, INODE_WORDS * slot + 2, ip.size), slot, ip, NDIRECT + 1)
  }

  lemma {:induction false} AddrWords(b: Block, slot: nat, ip: Inode, n: nat, w: nat)
    requires slot < IPB && Fits32(ip) && n <= NDIRECT + 1 && w < WORDS
    ensures var first := INODE_WORDS * slot + 3;
            Word(PutAddrs(b, slot, ip, n), w) == if first <= w < first + n then ip.addrs[w - first] else Word(b, w)
  {
    hide Word, PutWord;
    if n > 0 {
      AddrWords(b, slot, ip, n - 1, w);
      WordAfterPut(PutAddrs(b, slot, ip, n - 1), INODE_WORDS * slot + 2 + n, ip.addrs[n - 1], w);
    }
  }

  /** An inode written into its slot is read back, and its neighbours in the block stay. */
  lemma InodeWritten(b: Block, slot: nat, ip: Inode, other: nat)
    requires slot < IPB && other < IPB && Fits32(ip)
    ensures InodeIn(PutInode(b, slot, ip), other) == if other == slot then ip else InodeIn(b, other)
  {
    hide Word, PutWord, PutAddrs;
    var b1 := PutWord(b, INODE_WORDS * slot + 2, ip.size);
    forall w: nat | INODE_WORDS * other + 2 <= w < INODE_WORDS * (other + 1)
      ensures Word(PutInode(b, slot, ip), w) ==
              if other != slot then Word(b, w)
              else if w == INODE_WORDS * slot + 2 then ip.size else ip.addrs[w - INODE_WORDS * slot - 3]
    {
      AddrWords(b1, slot, ip, NDIRECT + 1, w);
      WordAfterPut(b, INODE_WORDS * slot + 2, ip.size, w);
    }
  }

  // ---- the whole disk -------------------------------------------------------------------------

  /** mkfs's order: log, inodes, bitmap, data. */
  ghost predicate Ordered(sb: Super, lay: Layout, nmeta: nat, f: Fs) {
    && lay.start + lay.size <= sb.inodestart && sb.bmapstart + |f.bits| <= nmeta <= |f.data|
    && sb.inodestart <= sb.bmapstart
    && forall i :: 0 <= i < |f.inode| ==> sb.inodestart + i / IPB < sb.bmapstart
  }

  /** Disk d holds file system f. */
  ghost predicate Shows(sb: Super, nmeta: nat, d: Disk, f: Fs) {
    && |d| == |f.data| && nmeta <= |d| && sb.bmapstart + |f.bits| <= nmeta
    && (forall k :: 0 <= k < |f.bits| ==> d[sb.bmapstart + k] == MapBytes(f.bits[k]))
    && (forall i :: 0 <= i < |f.inode| ==>
          sb.inodestart + i / IPB < |d| && InodeIn(d[sb.inodestart + i / IPB], i % IPB) == f.inode[i])
    && (forall b :: nmeta <= b < |d| ==> d[b] == f.data[b])
  }

  /** What a disk shows does not depend on its log. */
  lemma ShowsHomes(sb: Super, lay: Layout, nmeta: nat, a: Disk, b: Disk, f: Fs)
    requires Shows(sb, nmeta, a, f) && SameHomes(lay, a, b) && Ordered(sb, lay, nmeta, f)
    ensures Shows(sb, nmeta, b, f)
  {
    hide InodeIn, MapBytes;
    forall i | 0 <= i < |f.inode|
      ensures sb.inodestart + i / IPB < |b| && b[sb.inodestart + i / IPB] == a[sb.inodestart + i / IPB]
    {
      assert !InLog(lay, sb.inodestart + i / IPB);
    }
    forall c | sb.bmapstart <= c < |b| ensures b[c] == a[c] {
      assert !InLog(lay, c);
    }
  }

  /** The disk while the blocks in `todo` are still to be written: those are as in f, the others as in g. */
  ghost predicate Between(sb: Super, nmeta: nat, d: Disk, f: Fs, g: Fs, todo: set<Touched>) {
    && |d| == |f.data| == |g.data| && |f.bits| == |g.bits| && |f.inode| == |g.inode|
    && nmeta <= |d| && sb.bmapstart + |f.bits| <= nmeta
    && (forall k :: 0 <= k < |f.bits| ==>
          d[sb.bmapstart + k] == MapBytes(if BitmapBlk(k) in todo then f.bits[k] else g.bits[k]))
    && (forall i :: 0 <= i < |f.inode| ==>
          && sb.inodestart + i / IPB < |d|
          && InodeIn(d[sb.inodestart + i / IPB], i % IPB) ==
             if InodeBlk(i / IPB) in todo then f.inode[i] else g.inode[i])
    && (forall b :: nmeta <= b < |d| ==> d[b] == if DataBlk(b) in todo then f.data[b] else g.data[b])
  }

  lemma BetweenStart(sb: Super, nmeta: nat, d: Disk, f: Fs, g: Fs, i: nat, todo: set<Touched>)
    requires Shows(sb, nmeta, d, f) && ChangesLogged(f.data, f.bits, {}, g.data, g.bits, todo)
    requires i < |f.inode| == |g.inode| && g.inode == f.inode[i := g.inode[i]]
    requires g.inode != f.inode ==> InodeBlk(i / IPB) in todo
    ensures Between(sb, nmeta, d, f, g, todo)
  {
    hide InodeIn, MapBytes;
  }

  lemma BetweenEnd(sb: Super, nmeta: nat, d: Disk, f: Fs, g: Fs)
    requires Between(sb, nmeta, d, f, g, {})
    ensures Shows(sb, nmeta, d, g)
  {
    hide InodeIn, MapBytes;
  }

  /** A touched block with its new contents, over its old ones. */
  function NewBlock(was: Block, t: Touched, g: Fs, i: nat): (r: Block)
    requires i < |g.inode| && Fits32(g.inode[i])
    requires t.DataBlk? ==> t.b < |g.data|
    requires t.BitmapBlk? ==> t.k < |g.bits|
  {
    match t
    case DataBlk(b) => g.data[b]
    case BitmapBlk(k) => MapBytes(g.bits[k])
    case InodeBlk(_) => PutInode(was, i % IPB, g.inode[i])
  }

  /** A block of a transaction on inode i. */
  ghost predicate Touchable(nmeta: nat, f: Fs, t: Touched, i: nat) {
    match t
    case DataBlk(b) => nmeta <= b < |f.data|
    case BitmapBlk(k) => k < |f.bits|
    case InodeBlk(k) => k == i / IPB
  }

  lemma NumberInRange(sb: Super, lay: Layout, nmeta: nat, f: Fs, t: Touched, i: nat)
    requires Ordered(sb, lay, nmeta, f) && Touchable(nmeta, f, t, i) && i < |f.inode|
    ensures BlockNo(sb, t) < |f.data| && !InLog(lay, BlockNo(sb, t))
  {
  }

  lemma DataWritten(sb: Super, lay: Layout, nmeta: nat, d: Disk, f: Fs, g: Fs, todo: set<Touched>, b: nat)
    requires Between(sb, nmeta, d, f, g, todo) && Ordered(sb, lay, nmeta, f) && nmeta <= b < |d|
    ensures Between(sb, nmeta, d[b := g.data[b]], f, g, todo - {DataBlk(b)})
  {
    hide InodeIn, MapBytes;
  }

  lemma MapWritten(sb: Super, lay: Layout, nmeta: nat, d: Disk, f: Fs, g: Fs, todo: set<Touched>, k: nat)
    requires Between(sb, nmeta, d, f, g, todo) && Ordered(sb, lay, nmeta, f) && k < |f.bits|
    ensures Between(sb, nmeta, d[sb.bmapstart + k := MapBytes(g.bits[k])], f, g, todo - {BitmapBlk(k)})
  {
    hide InodeIn, MapBytes;
  }

  lemma InodesWritten(sb: Super, lay: Layout, nmeta: nat, d: Disk, f: Fs, g: Fs, todo: set<Touched>, i: nat)
    requires Between(sb, nmeta, d, f, g, todo) && Ordered(sb, lay, nmeta, f)
    requires i < |f.inode| && g.inode == f.inode[i := g.inode[i]] && Fits32(g.inode[i])
    ensures var at := sb.inodestart + i / IPB;
            at < |d| && Between(sb, nmeta, d[at := PutInode(d[at], i % IPB, g.inode[i])], f, g,
                                todo - {InodeBlk(i / IPB)})
  {
    hide InodeIn, MapBytes, PutInode;
    var at := sb.inodestart + i / IPB;
    var d1 := d[at := PutInode(d[at], i % IPB, g.inode[i])];
    forall j | 0 <= j < |f.inode|
      ensures InodeIn(d1[sb.inodestart + j / IPB], j % IPB) ==
              if InodeBlk(j / IPB) in todo - {InodeBlk(i / IPB)} then f.inode[j] else g.inode[j]
    {
      if j / IPB == i / IPB {
        InodeWritten(d[at], i % IPB, g.inode[i], j % IPB);
      }
    }
  }

  /** Writing a touched block brings the disk one block nearer to g. */
  lemma BetweenStep(sb: Super, lay: Layout, nmeta: nat, d: Disk, f: Fs, g: Fs, todo: set<Touched>, t: Touched, i: nat)
    requires Between(sb, nmeta, d, f, g, todo) && Ordered(sb, lay, nmeta, f) && Touchable(nmeta, f, t, i)
    requires i < |f.inode| && g.inode == f.inode[i := g.inode[i]] && Fits32(g.inode[i])
    ensures var b := BlockNo(sb, t);
            b < |d| && Between(sb, nmeta, d[b := NewBlock(d[b], t, g, i)], f, g, todo - {t})
  {
    hide Between, MapBytes, PutInode, Ordered;
    BetweenSizes(sb, nmeta, d, f, g, todo);
    match t
    case DataBlk(b) => DataWritten(sb, lay, nmeta, d, f, g, todo, b);
    case BitmapBlk(k) => MapWritten(sb, lay, nmeta, d, f, g, todo, k);
    case InodeBlk(_) => InodesWritten(sb, lay, nmeta, d, f, g, todo, i);
  }

  lemma BetweenSizes(sb: Super, nmeta: nat, d: Disk, f: Fs, g: Fs, todo: set<Touched>)
    requires Between(sb, nmeta, d, f, g, todo)
    ensures |d| == |f.data| == |g.data| && |f.bits| == |g.bits| && |f.inode| == |g.inode|
    ensures nmeta <= |d| && sb.bmapstart + |f.bits| <= nmeta
  {
  }

  // ---- what a file system on disk means ---------------------------------------------------------

  ghost predicate Structure(nmeta: nat, f: Fs, refs: Table, owner: seq<Owner>) {
    && |owner| == |f.data| && TableOk(refs, f.inode, f.data) && OwnersOk(refs, owner, nmeta)
    && BitsOk(f.bits, owner, 0) && DenseOk(refs, f.inode)
  }

  /** The bitmap marks exactly the metadata and the blocks that one slot of one inode names, and files
      have no holes. */
  ghost predicate Good(nmeta: nat, f: Fs) {
    exists refs, owner :: Structure(nmeta, f, refs, owner)
  }

  ghost function Row(ip: Inode, data: seq<Block>): (r: seq<nat>) {
    if |ip.addrs| == NDIRECT + 1 && ip.addrs[NDIRECT] < |data|
    then seq(NSLOT, s requires 0 <= s < NSLOT => Ref(ip, data, s)) else []
  }

  /** A file's contents, read off the disk. */
  ghost function FileOf(f: Fs, i: nat): (r: seq<Byte>)
    requires i < |f.inode|
  {
    Content(f.inode[i], Row(f.inode[i], f.data), f.data)
  }

  ghost function Saved(fs: FileSystem): (f: Fs)
    reads fs
  {
    Fs(fs.bits, fs.data, fs.dinode)
  }

  /** With every inode saved, the disk's file system is good and holds the files. */
  lemma SavedIs(fs: FileSystem)
    requires fs.Valid() && fs.loan == 0 && fs.dinode == fs.inode
    ensures Good(fs.nmeta, Saved(fs))
    ensures forall i :: 0 <= i < |fs.inode| ==> FileOf(Saved(fs), i) == fs.File(i)
    ensures forall i :: 0 <= i < |fs.inode| ==> Fits32(fs.inode[i])
  {
    hide OwnersOk, BitsOk, DenseOk, Content;
    assert Structure(fs.nmeta, Saved(fs), fs.refs, fs.owner);
    forall i | 0 <= i < |fs.inode| ensures FileOf(Saved(fs), i) == fs.File(i) && Fits32(fs.inode[i]) {
      assert Row(fs.inode[i], fs.data) == fs.refs[i];
      InodeFits(fs, i);
    }
  }

  lemma InodeFits(fs: FileSystem, i: nat)
    requires fs.Valid() && i < |fs.inode|
    ensures Fits32(fs.inode[i])
  {
    hide TableOk, BitsOk, OwnersOk, DenseOk;
    fs.InodeBound(i);
    forall j | 0 <= j < NDIRECT + 1 ensures fs.inode[i].addrs[j] < 0x1_0000_0000 {
      fs.Addresses(i, j);
      assert fs.refs[i][j] == fs.inode[i].addrs[j];
    }
  }
}
