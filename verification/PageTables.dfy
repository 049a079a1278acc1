/** Sv39 page tables (section 4.4 of the RISC-V Privileged Architecture, version 20211203) in
    physical frames, and the flat map from page to frame that they stand for.

    A frame is used either as a table of 512 entries or as 4096 bytes. Every frame has one role;
    the tables of an address space hold exactly what its flat map says. */
module PageTables {
  import opened Blocks

  const PGSIZE := 4096
  const ENTRIES := 512

  datatype Perm = Perm(write: bool, exec: bool, user: bool)
  /** A zero entry, a valid entry without R, W or X, or a valid readable entry. */
  datatype Pte = Zero | Ptr(frame: nat) | Leaf(frame: nat, perm: Perm)
  datatype Frame = Ptes(e: seq<Pte>) | Bytes(b: seq<Byte>)

  datatype Page = Page(frame: nat, perm: Perm)

  /** One address space: its root frame; its second and third level tables, by the part of the page
      number that leads to them; and the pages it maps. */
  datatype Space = Space(root: nat, mid: map<nat, nat>, low: map<nat, nat>, flat: map<nat, Page>)

  datatype Role =
    | Free
    | Loose                    // from kalloc, not yet put to use
    | Root(a: nat)
    | Mid(a: nat, i: nat)
    | Low(a: nat, k: nat)
    | User(a: nat, v: nat)
    | Trap(a: nat)             // the trapframe of process a
    | Dead(level: nat, at: nat) // table page of the address space being freed

  type Spaces = map<nat, Space>

  /** Page numbers: MAXVA is 2^38. */
  const MAXPN := 0x400_0000
  const TRAMPOLINE := 0x3ff_ffff
  const TRAPFRAME := 0x3ff_fffe

  function PtrTo(m: map<nat, nat>, i: nat): (e: Pte) {
    if i in m then Ptr(m[i]) else Zero
  }

  function LeafAt(flat: map<nat, Page>, v: nat): (e: Pte) {
    if v in flat then Leaf(flat[v].frame, flat[v].perm) else Zero
  }

  predicate IsTable(mem: seq<Frame>, f: nat) {
    f < |mem| && mem[f].Ptes? && |mem[f].e| == ENTRIES
  }

  predicate IsPage(mem: seq<Frame>, f: nat) {
    f < |mem| && mem[f].Bytes? && |mem[f].b| == PGSIZE
  }

  const ZERO_TABLE := Ptes(seq(ENTRIES, _ => Zero))
  const ZERO_PAGE := Bytes(seq(PGSIZE, _ => 0))

  // ---- an address space and its tables ----------------------------------------------

  ghost predicate RootRow(mem: seq<Frame>, role: seq<Role>, a: nat, sp: Space) {
    && IsTable(mem, sp.root) && |role| == |mem| && role[sp.root] == Root(a)
    && forall i :: 0 <= i < ENTRIES ==> mem[sp.root].e[i] == PtrTo(sp.mid, i)
  }

  ghost predicate MidRow(mem: seq<Frame>, role: seq<Role>, a: nat, sp: Space, i: nat) {
    && i in sp.mid && i < ENTRIES && IsTable(mem, sp.mid[i]) && |role| == |mem| && role[sp.mid[i]] == Mid(a, i)
    && forall j :: 0 <= j < ENTRIES ==> mem[sp.mid[i]].e[j] == PtrTo(sp.low, i * 512 + j)
  }

  ghost predicate LowRow(mem: seq<Frame>, role: seq<Role>, a: nat, sp: Space, k: nat) {
    && k in sp.low && k / 512 in sp.mid && IsTable(mem, sp.low[k]) && |role| == |mem| && role[sp.low[k]] == Low(a, k)
    && forall x :: 0 <= x < ENTRIES ==> mem[sp.low[k]].e[x] == LeafAt(sp.flat, k * 512 + x)
  }

  /** A mapped user page has a frame of its own. The trapframe and trampoline pages above are the kernel's. */
  ghost predicate PageRow(mem: seq<Frame>, role: seq<Role>, a: nat, sp: Space, v: nat) {
    && v in sp.flat && v / 512 in sp.low && |role| == |mem|
    && (v < TRAPFRAME ==> IsPage(mem, sp.flat[v].frame) && role[sp.flat[v].frame] == User(a, v))
  }

  ghost predicate SpaceOk(mem: seq<Frame>, role: seq<Role>, a: nat, sp: Space) {
    && RootRow(mem, role, a, sp)
    && (forall i {:trigger sp.mid[i]} {:trigger i in sp.mid} :: i in sp.mid ==> MidRow(mem, role, a, sp, i))
    && (forall k {:trigger sp.low[k]} {:trigger k in sp.low} :: k in sp.low ==> LowRow(mem, role, a, sp, k))
    && (forall v {:trigger sp.flat[v]} {:trigger v in sp.flat} :: v in sp.flat ==> PageRow(mem, role, a, sp, v))
  }

  /** A role names the one place that uses the frame. */
  predicate RoleOk(r: Role, f: nat, spaces: Spaces) {
    match r
    case Root(a) => a in spaces && spaces[a].root == f
    case Mid(a, i) => a in spaces && i in spaces[a].mid && spaces[a].mid[i] == f
    case Low(a, k) => a in spaces && k in spaces[a].low && spaces[a].low[k] == f
    case User(a, v) => a in spaces && v in spaces[a].flat && spaces[a].flat[v].frame == f && v < TRAPFRAME
    case _ => true
  }

  ghost predicate FreeOk(role: seq<Role>, freelist: seq<nat>) {
    && (forall i, j :: 0 <= i < j < |freelist| ==> freelist[i] != freelist[j])
    && (forall f {:trigger f in freelist} :: f in freelist ==> f < |role| && role[f].Free?)
    && (forall f {:trigger role[f]} :: 0 <= f < |role| && role[f].Free? ==> f in freelist)
  }

  /** Free list, table pages, mapped frames and the rest partition memory, and every address
      space's tables are its flat map. */
  ghost predicate World(mem: seq<Frame>, role: seq<Role>, freelist: seq<nat>, spaces: Spaces) {
    && |role| == |mem| && FreeOk(role, freelist)
    && (forall f {:trigger role[f]} :: 0 <= f < |role| ==> RoleOk(role[f], f, spaces))
    && (forall a {:trigger spaces[a]} {:trigger a in spaces} :: a in spaces ==> SpaceOk(mem, role, a, spaces[a]))
  }

  // ---- what a change leaves alone -----------------------------------------------------

  predicate Belongs(r: Role, a: nat) {
    match r
    case Root(b) => a == b
    case Mid(b, _) => a == b
    case Low(b, _) => a == b
    case User(b, _) => a == b
    case Trap(b) => a == b
    case _ => false
  }

  /** The tables and pages of address space a are as they were. */
  ghost predicate FramesKept(mem: seq<Frame>, role: seq<Role>, mem': seq<Frame>, role': seq<Role>, a: nat) {
    && |mem'| == |role'| == |mem| == |role|
    && forall f :: 0 <= f < |role| && Belongs(role[f], a) && !role[f].Trap? ==>
         role'[f] == role[f] && mem'[f] == mem[f]
  }

  lemma RootRowStays(mem: seq<Frame>, role: seq<Role>, mem': seq<Frame>, role': seq<Role>, a: nat, sp: Space)
    requires RootRow(mem, role, a, sp) && FramesKept(mem, role, mem', role', a)
    ensures RootRow(mem', role', a, sp)
  {
    assert Belongs(role[sp.root], a);
  }

  lemma MidRowStays(mem: seq<Frame>, role: seq<Role>, mem': seq<Frame>, role': seq<Role>, a: nat, sp: Space, i: nat)
    requires MidRow(mem, role, a, sp, i) && FramesKept(mem, role, mem', role', a)
    ensures MidRow(mem', role', a, sp, i)
  {
    assert Belongs(role[sp.mid[i]], a);
  }

  lemma LowRowStays(mem: seq<Frame>, role: seq<Role>, mem': seq<Frame>, role': seq<Role>, a: nat, sp: Space, k: nat)
    requires LowRow(mem, role, a, sp, k) && FramesKept(mem, role, mem', role', a)
    ensures LowRow(mem', role', a, sp, k)
  {
    assert Belongs(role[sp.low[k]], a);
  }

  lemma PageRowStays(mem: seq<Frame>, role: seq<Role>, mem': seq<Frame>, role': seq<Role>, a: nat, sp: Space, v: nat)
    requires PageRow(mem, role, a, sp, v) && FramesKept(mem, role, mem', role', a)
    ensures PageRow(mem', role', a, sp, v)
  {
    assert v < TRAPFRAME ==> Belongs(role[sp.flat[v].frame], a);
  }

  /** An address space keeps its tables if no frame of its own changes. */
  lemma SpaceKept(mem: seq<Frame>, role: seq<Role>, mem': seq<Frame>, role': seq<Role>, a: nat, sp: Space)
    requires SpaceOk(mem, role, a, sp) && FramesKept(mem, role, mem', role', a)
    ensures SpaceOk(mem', role', a, sp)
  {
    hide MidRow, LowRow, PageRow, RootRow, FramesKept;
    RootRowStays(mem, role, mem', role', a, sp);
    forall i | i in sp.mid ensures MidRow(mem', role', a, sp, i) { MidRowStays(mem, role, mem', role', a, sp, i); }
    forall k | k in sp.low ensures LowRow(mem', role', a, sp, k) { LowRowStays(mem, role, mem', role', a, sp, k); }
    forall v | v in sp.flat ensures PageRow(mem', role', a, sp, v) { PageRowStays(mem, role, mem', role', a, sp, v); }
  }

  lemma WorldStep(mem: seq<Frame>, role: seq<Role>, freelist: seq<nat>, spaces: Spaces, mem': seq<Frame>,
                  role': seq<Role>, freelist': seq<nat>, a: nat, sp: Space)
    requires World(mem, role, freelist, spaces) && |mem'| == |role'| == |mem| && FreeOk(role', freelist')
    requires SpaceOk(mem', role', a, sp)
    requires forall f, b :: 0 <= f < |role| && b != a && Belongs(role[f], b) ==>
               role'[f] == role[f] && mem'[f] == mem[f]
    requires forall f :: 0 <= f < |role'| ==> RoleOk(role'[f], f, spaces[a := sp])
    ensures World(mem', role', freelist', spaces[a := sp])
  {
    var spaces' := spaces[a := sp];
    forall b | b in spaces' ensures SpaceOk(mem', role', b, spaces'[b]) {
      if b != a {
        assert SpaceOk(mem, role, b, spaces[b]);
        SpaceKept(mem, role, mem', role', b, spaces[b]);
      }
    }
  }

  /** kalloc: the first frame of the free list, now full of junk. */
  lemma TakeFrame(mem: seq<Frame>, role: seq<Role>, freelist: seq<nat>, spaces: Spaces, junk: Frame)
    requires World(mem, role, freelist, spaces) && freelist != []
    ensures var f := freelist[0];
            f < |mem| && role[f].Free? && World(mem[f := junk], role[f := Loose], freelist[1..], spaces)
  {
    var f := freelist[0];
    assert f in freelist;
    var mem', role' := mem[f := junk], role[f := Loose];
    assert FreeOk(role', freelist[1..]) by {
      forall g | g in freelist[1..] ensures g < |role'| && role'[g].Free? {
        assert g in freelist && g != f;
      }
      forall g | 0 <= g < |role'| && role'[g].Free? ensures g in freelist[1..] {
        assert role[g].Free? && g in freelist && g != f;
      }
    }
    forall b | b in spaces ensures SpaceOk(mem', role', b, spaces[b]) {
      assert SpaceOk(mem, role, b, spaces[b]);
      SpaceKept(mem, role, mem', role', b, spaces[b]);
    }
  }

  /** kfree of a frame nothing uses. */
  lemma GiveFrame(mem: seq<Frame>, role: seq<Role>, freelist: seq<nat>, spaces: Spaces, f: nat, junk: Frame)
    requires World(mem, role, freelist, spaces) && f < |role| && (role[f].Loose? || role[f].Dead?)
    ensures World(mem[f := junk], role[f := Free], [f] + freelist, spaces)
  {
    var mem', role', freelist' := mem[f := junk], role[f := Free], [f] + freelist;
    assert f !in freelist;
    assert FreeOk(role', freelist') by {
      forall g | 0 <= g < |role'| && role'[g].Free? ensures g in freelist' {
        assert g == f || g in freelist;
      }
    }
    forall b | b in spaces ensures SpaceOk(mem', role', b, spaces[b]) {
      assert SpaceOk(mem, role, b, spaces[b]);
      SpaceKept(mem, role, mem', role', b, spaces[b]);
    }
  }

  /** A table entry changed. */
  function SetEntry(mem: seq<Frame>, t: nat, i: nat, e: Pte): (m: seq<Frame>)
    requires IsTable(mem, t) && i < ENTRIES
    ensures |m| == |mem|
  {
    mem[t := Ptes(mem[t].e[i := e])]
  }

  // ---- rows that a change does not touch ----------------------------------------------

  lemma MidRowKept(mem: seq<Frame>, role: seq<Role>, mem': seq<Frame>, role': seq<Role>, a: nat, sp: Space, sp': Space,
                   i: nat)
    requires MidRow(mem, role, a, sp, i) && |mem'| == |role'| == |mem| && i in sp'.mid && sp'.mid[i] == sp.mid[i]
    requires mem'[sp.mid[i]] == mem[sp.mid[i]] && role'[sp.mid[i]] == role[sp.mid[i]] && sp'.low == sp.low
    ensures MidRow(mem', role', a, sp', i)
  {
  }

  lemma LowRowKept(mem: seq<Frame>, role: seq<Role>, mem': seq<Frame>, role': seq<Role>, a: nat, sp: Space, sp': Space,
                   k: nat)
    requires LowRow(mem, role, a, sp, k) && |mem'| == |role'| == |mem| && k in sp'.low && sp'.low[k] == sp.low[k]
             && k / 512 in sp'.mid
    requires mem'[sp.low[k]] == mem[sp.low[k]] && role'[sp.low[k]] == role[sp.low[k]] && sp'.flat == sp.flat
    ensures LowRow(mem', role', a, sp', k)
  {
  }

  lemma PageRowKept(mem: seq<Frame>, role: seq<Role>, mem': seq<Frame>, role': seq<Role>, a: nat, sp: Space,
                    sp': Space, v: nat)
    requires PageRow(mem, role, a, sp, v) && |mem'| == |role'| == |mem| && v in sp'.flat && sp'.flat[v] == sp.flat[v]
             && v / 512 in sp'.low
    requires v < TRAPFRAME ==> var f := sp.flat[v].frame; IsPage(mem', f) && role'[f] == role[f]
    ensures PageRow(mem', role', a, sp', v)
  {
  }

  /** What the rows say about the frames they use. */
  lemma RowFacts(mem: seq<Frame>, role: seq<Role>, a: nat, sp: Space)
    requires SpaceOk(mem, role, a, sp)
    ensures |role| == |mem| && IsTable(mem, sp.root) && role[sp.root] == Root(a)
    ensures forall i :: i in sp.mid ==> i < ENTRIES && IsTable(mem, sp.mid[i]) && role[sp.mid[i]] == Mid(a, i)
    ensures forall k :: k in sp.low ==> k / 512 in sp.mid && IsTable(mem, sp.low[k]) && role[sp.low[k]] == Low(a, k)
    ensures forall v :: v in sp.flat ==> v / 512 in sp.low
    ensures forall v :: v in sp.flat && v < TRAPFRAME ==>
              IsPage(mem, sp.flat[v].frame) && role[sp.flat[v].frame] == User(a, v)
  {
    forall i | i in sp.mid ensures i < ENTRIES && IsTable(mem, sp.mid[i]) && role[sp.mid[i]] == Mid(a, i) {
      assert MidRow(mem, role, a, sp, i);
    }
    forall k | k in sp.low ensures k / 512 in sp.mid && IsTable(mem, sp.low[k]) && role[sp.low[k]] == Low(a, k) {
      assert LowRow(mem, role, a, sp, k);
    }
    forall v | v in sp.flat
      ensures v / 512 in sp.low
      ensures v < TRAPFRAME ==> IsPage(mem, sp.flat[v].frame) && role[sp.flat[v].frame] == User(a, v)
    {
      assert PageRow(mem, role, a, sp, v);
    }
  }

  /** A table without entries stands for nothing. */
  lemma EmptyMid(sp: Space, i: nat, x: nat)
    requires i !in sp.mid && x < ENTRIES && forall k :: k in sp.low ==> k / 512 in sp.mid
    ensures PtrTo(sp.low, i * 512 + x) == Zero
  {
    assert (i * 512 + x) / 512 == i;
  }

  lemma EmptyLow(sp: Space, k: nat, x: nat)
    requires k !in sp.low && x < ENTRIES && forall v :: v in sp.flat ==> v / 512 in sp.low
    ensures LeafAt(sp.flat, k * 512 + x) == Zero
  {
    assert (k * 512 + x) / 512 == k;
  }

  /** A new second-level table, empty. */
  lemma AddMid(mem: seq<Frame>, role: seq<Role>, a: nat, sp: Space, i: nat, f: nat)
    requires SpaceOk(mem, role, a, sp) && i < ENTRIES && i !in sp.mid && f < |role| && role[f].Loose?
    ensures IsTable(mem, sp.root) && |role| == |mem| && f != sp.root
    ensures SpaceOk(SetEntry(mem[f := ZERO_TABLE], sp.root, i, Ptr(f)), role[f := Mid(a, i)], a,
                    sp.(mid := sp.mid[i := f]))
  {
    hide MidRow, LowRow, PageRow;
    RowFacts(mem, role, a, sp);
    var mem', role', sp' := SetEntry(mem[f := ZERO_TABLE], sp.root, i, Ptr(f)), role[f := Mid(a, i)],
      sp.(mid := sp.mid[i := f]);
    forall j | j in sp'.mid ensures MidRow(mem', role', a, sp', j) {
      if j == i { FreshMid(mem', role', a, sp, i, f); } else { MidRowKept(mem, role, mem', role', a, sp, sp', j); }
    }
    forall k | k in sp'.low ensures LowRow(mem', role', a, sp', k) {
      LowRowKept(mem, role, mem', role', a, sp, sp', k);
    }
    forall v | v in sp'.flat ensures PageRow(mem', role', a, sp', v) {
      PageRowKept(mem, role, mem', role', a, sp, sp', v);
    }
  }

  lemma FreshMid(mem: seq<Frame>, role: seq<Role>, a: nat, sp: Space, i: nat, f: nat)
    requires i !in sp.mid && i < ENTRIES && f < |mem| == |role| && mem[f] == ZERO_TABLE && role[f] == Mid(a, i)
    requires forall k :: k in sp.low ==> k / 512 in sp.mid
    ensures MidRow(mem, role, a, sp.(mid := sp.mid[i := f]), i)
  {
    forall x | 0 <= x < ENTRIES ensures mem[f].e[x] == PtrTo(sp.low, i * 512 + x) { EmptyMid(sp, i, x); }
  }

  /** A new third-level table, empty. */
  lemma AddLow(mem: seq<Frame>, role: seq<Role>, a: nat, sp: Space, k: nat, f: nat)
    requires SpaceOk(mem, role, a, sp) && k / 512 in sp.mid && k !in sp.low && f < |role| && role[f].Loose?
    ensures IsTable(mem, sp.mid[k / 512]) && |role| == |mem| && f != sp.mid[k / 512]
    ensures SpaceOk(SetEntry(mem[f := ZERO_TABLE], sp.mid[k / 512], k % 512, Ptr(f)), role[f := Low(a, k)], a,
                    sp.(low := sp.low[k := f]))
  {
    hide MidRow, LowRow, PageRow;
    RowFacts(mem, role, a, sp);
    var t := sp.mid[k / 512];
    var mem', role', sp' := SetEntry(mem[f := ZERO_TABLE], t, k % 512, Ptr(f)), role[f := Low(a, k)],
      sp.(low := sp.low[k := f]);
    forall i | i in sp'.mid ensures MidRow(mem', role', a, sp', i) {
      MidRowGains(mem, role, mem', role', a, sp, k, f, i);
    }
    forall m | m in sp'.low ensures LowRow(mem', role', a, sp', m) {
      if m == k { FreshLow(mem', role', a, sp, k, f); } else { LowRowKept(mem, role, mem', role', a, sp, sp', m); }
    }
    forall v | v in sp'.flat ensures PageRow(mem', role', a, sp', v) {
      PageRowKept(mem, role, mem', role', a, sp, sp', v);
    }
  }

  lemma MidRowGains(mem: seq<Frame>, role: seq<Role>, mem': seq<Frame>, role': seq<Role>, a: nat, sp: Space, k: nat,
                    f: nat, i: nat)
    requires MidRow(mem, role, a, sp, i) && |mem'| == |role'| == |mem| && IsTable(mem', sp.mid[i])
             && role'[sp.mid[i]] == role[sp.mid[i]]
    requires mem'[sp.mid[i]].e == if i == k / 512 then mem[sp.mid[i]].e[k % 512 := Ptr(f)] else mem[sp.mid[i]].e
    ensures MidRow(mem', role', a, sp.(low := sp.low[k := f]), i)
  {
    forall j | 0 <= j < ENTRIES ensures mem'[sp.mid[i]].e[j] == PtrTo(sp.low[k := f], i * 512 + j) {
      assert i * 512 + j == k <==> i == k / 512 && j == k % 512;
      assert mem[sp.mid[i]].e[j] == PtrTo(sp.low, i * 512 + j);
    }
  }

  lemma FreshLow(mem: seq<Frame>, role: seq<Role>, a: nat, sp: Space, k: nat, f: nat)
    requires k !in sp.low && k / 512 in sp.mid && f < |mem| == |role| && mem[f] == ZERO_TABLE && role[f] == Low(a, k)
    requires forall v :: v in sp.flat ==> v / 512 in sp.low
    ensures LowRow(mem, role, a, sp.(low := sp.low[k := f]), k)
  {
    forall x | 0 <= x < ENTRIES ensures mem[f].e[x] == LeafAt(sp.flat, k * 512 + x) { EmptyLow(sp, k, x); }
  }

  // ---- one page mapped or unmapped ------------------------------------------------------

  /** The flat map with page v set or, for None, removed. */
  datatype Change = Set(page: Page) | Unset

  function Applied(flat: map<nat, Page>, v: nat, c: Change): (r: map<nat, Page>) {
    match c
    case Set(page) => flat[v := page]
    case Unset => flat - {v}
  }

  lemma LowRowChanges(mem: seq<Frame>, role: seq<Role>, mem': seq<Frame>, role': seq<Role>, a: nat, sp: Space, v: nat,
                      c: Change, k: nat)
    requires LowRow(mem, role, a, sp, k) && |mem'| == |role'| == |mem| && IsTable(mem', sp.low[k])
             && role'[sp.low[k]] == role[sp.low[k]]
    requires mem'[sp.low[k]].e == if k == v / 512 then mem[sp.low[k]].e[v % 512 := LeafAt(Applied(sp.flat, v, c), v)]
                                  else mem[sp.low[k]].e
    ensures LowRow(mem', role', a, sp.(flat := Applied(sp.flat, v, c)), k)
  {
    forall x | 0 <= x < ENTRIES ensures mem'[sp.low[k]].e[x] == LeafAt(Applied(sp.flat, v, c), k * 512 + x) {
      assert k * 512 + x == v <==> k == v / 512 && x == v % 512;
      assert mem[sp.low[k]].e[x] == LeafAt(sp.flat, k * 512 + x);
    }
  }

  /** Writing one third-level entry maps or unmaps one page and nothing else. */
  lemma ChangeLeaf(mem: seq<Frame>, role: seq<Role>, a: nat, sp: Space, v: nat, c: Change, role': seq<Role>)
    requires SpaceOk(mem, role, a, sp) && v / 512 in sp.low && |role'| == |role|
    requires forall f :: 0 <= f < |role| && Belongs(role[f], a) && role[f] != User(a, v) ==> role'[f] == role[f]
    requires c.Set? && v < TRAPFRAME ==> IsPage(mem, c.page.frame) && role'[c.page.frame] == User(a, v)
    ensures IsTable(mem, sp.low[v / 512])
    ensures SpaceOk(SetEntry(mem, sp.low[v / 512], v % 512, LeafAt(Applied(sp.flat, v, c), v)), role', a,
                    sp.(flat := Applied(sp.flat, v, c)))
  {
    hide RootRow, MidRow, LowRow, PageRow, Applied, LeafAt;
    RowFacts(mem, role, a, sp);
    var t := sp.low[v / 512];
    var flat' := Applied(sp.flat, v, c);
    var mem', sp' := SetEntry(mem, t, v % 512, LeafAt(flat', v)), sp.(flat := flat');
    AppliedElsewhere(sp.flat, v, c);
    assert role[t] == Low(a, v / 512);
    UpperKept(mem, role, mem', role', a, sp, sp');
    forall k | k in sp'.low ensures LowRow(mem', role', a, sp', k) {
      LowRowChanges(mem, role, mem', role', a, sp, v, c, k);
    }
    PagesChange(mem, role, mem', role', a, sp, v, c);
  }

  lemma PagesChange(mem: seq<Frame>, role: seq<Role>, mem': seq<Frame>, role': seq<Role>, a: nat, sp: Space, v: nat,
                    c: Change)
    requires SpaceOk(mem, role, a, sp) && v / 512 in sp.low && |mem'| == |role'| == |mem|
    requires forall f :: 0 <= f < |mem| && mem[f].Bytes? ==> mem'[f] == mem[f]
    requires forall f :: 0 <= f < |role| && Belongs(role[f], a) && role[f] != User(a, v) ==> role'[f] == role[f]
    requires c.Set? && v < TRAPFRAME ==> IsPage(mem, c.page.frame) && role'[c.page.frame] == User(a, v)
    ensures var sp' := sp.(flat := Applied(sp.flat, v, c)); forall u :: u in sp'.flat ==>
              PageRow(mem', role', a, sp', u)
  {
    hide RootRow, MidRow, LowRow;
    var sp' := sp.(flat := Applied(sp.flat, v, c));
    forall u | u in sp'.flat ensures PageRow(mem', role', a, sp', u) {
      if u != v { assert PageRow(mem, role, a, sp, u); }
    }
  }

  /** The first two levels stay as they are when only third-level tables and pages change. */
  lemma UpperKept(mem: seq<Frame>, role: seq<Role>, mem': seq<Frame>, role': seq<Role>, a: nat, sp: Space, sp': Space)
    requires SpaceOk(mem, role, a, sp) && |mem'| == |role'| == |mem| && sp' == sp.(flat := sp'.flat)
    requires forall f :: 0 <= f < |role| && (role[f].Root? || role[f].Mid?) && Belongs(role[f], a) ==>
               role'[f] == role[f] && mem'[f] == mem[f]
    ensures RootRow(mem', role', a, sp') && forall i :: i in sp'.mid ==> MidRow(mem', role', a, sp', i)
  {
    hide LowRow, PageRow;
    forall i | i in sp'.mid ensures MidRow(mem', role', a, sp', i) {
      assert MidRow(mem, role, a, sp, i);
      MidRowKept(mem, role, mem', role', a, sp, sp', i);
    }
  }

  lemma AppliedElsewhere(flat: map<nat, Page>, v: nat, c: Change)
    ensures var r := Applied(flat, v, c);
            && (forall u :: u != v ==> (u in r <==> u in flat)) && (forall u :: u in r && u != v ==> r[u] == flat[u])
            && (v in r <==> c.Set?) && (c.Set? ==> r[v] == c.page)
  {
  }

  // ---- the same changes, for the whole memory ----------------------------------------------

  lemma SameFree(role: seq<Role>, role': seq<Role>, freelist: seq<nat>)
    requires FreeOk(role, freelist) && |role'| == |role| && forall f :: 0 <= f < |role| ==>
               (role[f].Free? <==> role'[f].Free?)
    ensures FreeOk(role', freelist)
  {
  }

  lemma WorldAddMid(mem: seq<Frame>, role: seq<Role>, freelist: seq<nat>, spaces: Spaces, a: nat, i: nat, f: nat)
    requires World(mem, role, freelist, spaces) && a in spaces && i < ENTRIES && i !in spaces[a].mid && f < |role|
             && role[f].Loose?
    ensures IsTable(mem, spaces[a].root) && |role| == |mem| && f != spaces[a].root
    ensures World(SetEntry(mem[f := ZERO_TABLE], spaces[a].root, i, Ptr(f)), role[f := Mid(a, i)], freelist,
                  spaces[a := spaces[a].(mid := spaces[a].mid[i := f])])
  {
    hide SpaceOk, FreeOk;
    var sp := spaces[a];
    AddMid(mem, role, a, sp, i, f);
    SameFree(role, role[f := Mid(a, i)], freelist);
    RootRole(mem, role, a, sp);
    WorldStep(mem, role, freelist, spaces, SetEntry(mem[f := ZERO_TABLE], sp.root, i, Ptr(f)), role[f := Mid(a, i)],
              freelist, a,
              sp.(mid := sp.mid[i := f]));
  }

  lemma RootRole(mem: seq<Frame>, role: seq<Role>, a: nat, sp: Space)
    requires SpaceOk(mem, role, a, sp)
    ensures sp.root < |role| && role[sp.root] == Root(a)
  {
  }

  lemma WorldAddLow(mem: seq<Frame>, role: seq<Role>, freelist: seq<nat>, spaces: Spaces, a: nat, k: nat, f: nat)
    requires World(mem, role, freelist, spaces) && a in spaces && k / 512 in spaces[a].mid && k !in spaces[a].low
             && f < |role| && role[f].Loose?
    ensures var t := spaces[a].mid[k / 512]; IsTable(mem, t) && |role| == |mem| && f != t
    ensures World(SetEntry(mem[f := ZERO_TABLE], spaces[a].mid[k / 512], k % 512, Ptr(f)), role[f := Low(a, k)],
                  freelist,
                  spaces[a := spaces[a].(low := spaces[a].low[k := f])])
  {
    hide SpaceOk, FreeOk, RoleOk, Belongs;
    var sp := spaces[a];
    AddLow(mem, role, a, sp, k, f);
    SameFree(role, role[f := Low(a, k)], freelist);
    RowFacts(mem, role, a, sp);
    LowBelongs(a, k);
    LowRoleOk(spaces[a := sp.(low := sp.low[k := f])], a, k, f);
    MoreTables(role, role[f := Low(a, k)], spaces, a, sp.(low := sp.low[k := f]), f, Low(a, k));
    OneOwner(Mid(a, k / 512), a) by { assert Belongs(Mid(a, k / 512), a) by { MidBelongs(a, k / 512); } }
    WorldStep(mem, role, freelist, spaces, SetEntry(mem[f := ZERO_TABLE], sp.mid[k / 512], k % 512, Ptr(f)),
              role[f := Low(a, k)], freelist, a,
              sp.(low := sp.low[k := f]));
  }

  lemma LowRoleOk(spaces: Spaces, a: nat, k: nat, f: nat)
    requires a in spaces && k in spaces[a].low && spaces[a].low[k] == f
    ensures RoleOk(Low(a, k), f, spaces)
  {
  }

  lemma MidBelongs(a: nat, i: nat)
    ensures Belongs(Mid(a, i), a)
  {
  }

  /** A space with one more table: all roles still name what they are for. */
  lemma MoreTables(role: seq<Role>, role': seq<Role>, spaces: Spaces, a: nat, sp: Space, f: nat, r: Role)
    requires f < |role| && role' == role[f := r] && a in spaces && f < |role| && role[f].Loose?
             && RoleOk(r, f, spaces[a := sp]) && Belongs(r, a)
    requires forall g :: 0 <= g < |role| ==> RoleOk(role[g], g, spaces)
    requires sp.root == spaces[a].root && sp.flat == spaces[a].flat
    requires forall i :: i in spaces[a].mid ==> i in sp.mid && sp.mid[i] == spaces[a].mid[i]
    requires forall k :: k in spaces[a].low ==> k in sp.low && sp.low[k] == spaces[a].low[k]
    ensures forall g :: 0 <= g < |role'| ==> RoleOk(role'[g], g, spaces[a := sp])
    ensures forall b :: !Belongs(role[f], b)
  {
    forall g | 0 <= g < |role'| ensures RoleOk(role'[g], g, spaces[a := sp]) {
      assert RoleOk(role[g], g, spaces);
    }
  }

  /** The roles after page v of space a is set or unset: its frame, if from the pool, comes into use or falls loose. */
  ghost function Rerole(role: seq<Role>, a: nat, sp: Space, v: nat, c: Change): (r: seq<Role>)
    ensures |r| == |role|
  {
    if v >= TRAPFRAME then role
    else match c
      case Set(page) => if page.frame < |role| then role[page.frame := User(a, v)] else role
      case Unset => if v in sp.flat && sp.flat[v].frame < |role| then role[sp.flat[v].frame := Loose] else role
  }

  /** A page that may be mapped at v: a loose frame, or one of the kernel's two pages. */
  ghost predicate Mappable(mem: seq<Frame>, role: seq<Role>, a: nat, sp: Space, v: nat, page: Page) {
    && v !in sp.flat
    && (v < TRAPFRAME ==> IsPage(mem, page.frame) && page.frame < |role| && role[page.frame].Loose?)
    && v < MAXPN
  }

  lemma WorldChangeLeaf(mem: seq<Frame>, role: seq<Role>, freelist: seq<nat>, spaces: Spaces, a: nat, v: nat, c: Change)
    requires World(mem, role, freelist, spaces) && a in spaces && v / 512 in spaces[a].low
    requires c.Set? ==> Mappable(mem, role, a, spaces[a], v, c.page)
    requires c.Unset? ==> v in spaces[a].flat
    ensures var sp := spaces[a]; IsTable(mem, sp.low[v / 512]) && |role| == |mem|
    ensures var sp := spaces[a];
            World(SetEntry(mem, sp.low[v / 512], v % 512, LeafAt(Applied(sp.flat, v, c), v)),
                  Rerole(role, a, sp, v, c), freelist,
                  spaces[a := sp.(flat := Applied(sp.flat, v, c))])
  {
    hide World, SpaceOk, FreeOk, RoleOk, Rerole, Applied, LeafAt, Belongs, Mappable;
    var sp := spaces[a];
    var role' := Rerole(role, a, sp, v, c);
    RerolePrep(mem, role, freelist, spaces, a, v, c);
    ChangeLeaf(mem, role, a, sp, v, c, role');
    WorldStep(mem, role, freelist, spaces, SetEntry(mem, sp.low[v / 512], v % 512, LeafAt(Applied(sp.flat, v, c), v)),
              role', freelist, a,
              sp.(flat := Applied(sp.flat, v, c)));
  }

  lemma RerolePrep(mem: seq<Frame>, role: seq<Role>, freelist: seq<nat>, spaces: Spaces, a: nat, v: nat, c: Change)
    requires World(mem, role, freelist, spaces) && a in spaces && v / 512 in spaces[a].low
    requires c.Set? ==> Mappable(mem, role, a, spaces[a], v, c.page)
    requires c.Unset? ==> v in spaces[a].flat
    ensures var sp := spaces[a]; var role' := Rerole(role, a, sp, v, c);
            && SpaceOk(mem, role, a, sp) && FreeOk(role', freelist) && |role| == |mem|
            && (forall f :: 0 <= f < |role'| ==> RoleOk(role'[f], f, spaces[a := sp.(flat := Applied(sp.flat, v, c))]))
            && (forall f :: 0 <= f < |role| && Belongs(role[f], a) && role[f] != User(a, v) ==> role'[f] == role[f])
            && (forall f, b :: 0 <= f < |role| && b != a && Belongs(role[f], b) ==>
                role'[f] == role[f] && f != sp.low[v / 512])
            && (c.Set? && v < TRAPFRAME ==> IsPage(mem, c.page.frame) && role'[c.page.frame] == User(a, v))
  {
    hide World, SpaceOk, FreeOk, RoleOk, Rerole, Applied;
    var sp := spaces[a];
    WorldParts(mem, role, freelist, spaces, a);
    MappableFacts(mem, role, a, sp, v, c);
    ReroleOk(mem, role, freelist, spaces, a, v, c);
    ReroleOnly(mem, role, a, sp, v, c);
    SameFree(role, Rerole(role, a, sp, v, c), freelist);
    RowFacts(mem, role, a, sp);
    assert role[sp.low[v / 512]] == Low(a, v / 512);
  }

  lemma WorldParts(mem: seq<Frame>, role: seq<Role>, freelist: seq<nat>, spaces: Spaces, a: nat)
    requires World(mem, role, freelist, spaces) && a in spaces
    ensures SpaceOk(mem, role, a, spaces[a]) && FreeOk(role, freelist) && |role| == |mem|
  {
  }

  lemma MappableFacts(mem: seq<Frame>, role: seq<Role>, a: nat, sp: Space, v: nat, c: Change)
    requires c.Set? ==> Mappable(mem, role, a, sp, v, c.page)
    ensures c.Set? && v < TRAPFRAME ==> IsPage(mem, c.page.frame)
  {
  }

  lemma LowBelongs(a: nat, k: nat)
    ensures Belongs(Low(a, k), a)
  {
  }

  lemma OneOwner(r: Role, a: nat)
    requires Belongs(r, a)
    ensures forall b :: b != a ==> !Belongs(r, b)
  {
  }

  lemma ReroleOk(mem: seq<Frame>, role: seq<Role>, freelist: seq<nat>, spaces: Spaces, a: nat, v: nat, c: Change)
    requires World(mem, role, freelist, spaces) && a in spaces
    requires c.Set? ==> Mappable(mem, role, a, spaces[a], v, c.page)
    requires c.Unset? ==> v in spaces[a].flat
    ensures var role', sp' := Rerole(role, a, spaces[a], v, c), spaces[a].(flat := Applied(spaces[a].flat, v, c));
            (forall f :: 0 <= f < |role'| ==> RoleOk(role'[f], f, spaces[a := sp']))
  {
    hide SpaceOk, FreeOk, RoleOk;
    var sp := spaces[a];
    RowFacts(mem, role, a, sp);
    if v < TRAPFRAME {
      if c.Set? { UserRole(role, role[c.page.frame := User(a, v)], spaces, a, sp, v, c.page); }
      else { LooseRole(role, role[sp.flat[v].frame := Loose], spaces, a, sp, v); }
    } else {
      HighRole(role, spaces, a, sp, v, c);
    }
  }

  lemma ReroleOnly(mem: seq<Frame>, role: seq<Role>, a: nat, sp: Space, v: nat, c: Change)
    requires SpaceOk(mem, role, a, sp)
    requires c.Set? ==> Mappable(mem, role, a, sp, v, c.page)
    requires c.Unset? ==> v in sp.flat
    ensures var role' := Rerole(role, a, sp, v, c);
            && (forall f :: 0 <= f < |role| && Belongs(role[f], a) && role[f] != User(a, v) ==> role'[f] == role[f])
            && (forall f, b :: 0 <= f < |role| && b != a && Belongs(role[f], b) ==> role'[f] == role[f])
            && (forall f :: 0 <= f < |role| ==> (role[f].Free? <==> role'[f].Free?))
            && (c.Set? && v < TRAPFRAME ==> role'[c.page.frame] == User(a, v))
  {
    if v < TRAPFRAME {
      hide SpaceOk, IsPage, IsTable;
      RowFacts(mem, role, a, sp);
      var f := if c.Set? then c.page.frame else sp.flat[v].frame;
      assert role[f] == if c.Set? then Loose else User(a, v);
    }
  }

  lemma UserRole(role: seq<Role>, role': seq<Role>, spaces: Spaces, a: nat, sp: Space, v: nat, page: Page)
    requires a in spaces && sp == spaces[a] && forall g :: 0 <= g < |role| ==> RoleOk(role[g], g, spaces)
    requires v < TRAPFRAME && v !in sp.flat && page.frame < |role| && role[page.frame].Loose?
             && role' == role[page.frame := User(a, v)]
    ensures forall g :: 0 <= g < |role'| ==> RoleOk(role'[g], g, spaces[a := sp.(flat := sp.flat[v := page])])
  {
    forall g | 0 <= g < |role'| ensures RoleOk(role'[g], g, spaces[a := sp.(flat := sp.flat[v := page])]) {
      assert RoleOk(role[g], g, spaces);
    }
  }

  lemma LooseRole(role: seq<Role>, role': seq<Role>, spaces: Spaces, a: nat, sp: Space, v: nat)
    requires a in spaces && sp == spaces[a] && forall g :: 0 <= g < |role| ==> RoleOk(role[g], g, spaces)
    requires v in sp.flat && sp.flat[v].frame < |role| && role' == role[sp.flat[v].frame := Loose]
    ensures forall g :: 0 <= g < |role'| ==> RoleOk(role'[g], g, spaces[a := sp.(flat := sp.flat - {v})])
  {
    forall g | 0 <= g < |role'| ensures RoleOk(role'[g], g, spaces[a := sp.(flat := sp.flat - {v})]) {
      assert RoleOk(role[g], g, spaces);
    }
  }

  lemma HighRole(role: seq<Role>, spaces: Spaces, a: nat, sp: Space, v: nat, c: Change)
    requires a in spaces && sp == spaces[a] && forall g :: 0 <= g < |role| ==> RoleOk(role[g], g, spaces)
    requires v >= TRAPFRAME
    ensures forall g :: 0 <= g < |role| ==> RoleOk(role[g], g, spaces[a := sp.(flat := Applied(sp.flat, v, c))])
  {
    forall g | 0 <= g < |role| ensures RoleOk(role[g], g, spaces[a := sp.(flat := Applied(sp.flat, v, c))]) {
      assert RoleOk(role[g], g, spaces);
    }
  }

  // ---- reading the tables ---------------------------------------------------------------

  lemma RootEntry(mem: seq<Frame>, role: seq<Role>, a: nat, sp: Space, v: nat)
    requires SpaceOk(mem, role, a, sp) && v < MAXPN
    ensures IsTable(mem, sp.root) && v / 512 / 512 < ENTRIES
            && mem[sp.root].e[v / 512 / 512] == PtrTo(sp.mid, v / 512 / 512)
  {
  }

  lemma MidEntry(mem: seq<Frame>, role: seq<Role>, a: nat, sp: Space, v: nat)
    requires SpaceOk(mem, role, a, sp) && v / 512 / 512 in sp.mid
    ensures IsTable(mem, sp.mid[v / 512 / 512]) && mem[sp.mid[v / 512 / 512]].e[v / 512 % 512] == PtrTo(sp.low, v / 512)
  {
    hide LowRow, PageRow, RootRow;
    var i := v / 512 / 512;
    assert MidRow(mem, role, a, sp, i);
    assert i * 512 + v / 512 % 512 == v / 512;
  }

  lemma LowEntry(mem: seq<Frame>, role: seq<Role>, a: nat, sp: Space, v: nat)
    requires SpaceOk(mem, role, a, sp) && v / 512 in sp.low
    ensures IsTable(mem, sp.low[v / 512]) && mem[sp.low[v / 512]].e[v % 512] == LeafAt(sp.flat, v)
  {
    hide MidRow, PageRow, RootRow;
    var k := v / 512;
    assert LowRow(mem, role, a, sp, k);
    assert k * 512 + v % 512 == v;
  }
}
