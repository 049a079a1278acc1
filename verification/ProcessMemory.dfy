/** The memory of processes: creating, copying, growing and freeing address spaces. */
module ProcessMemory {
  import opened Blocks
  import opened PageTables
  import opened VirtualMemory
  import opened TableTeardown

  datatype Proc = Proc(pagetable: nat, trapframe: nat, sz: nat, quota: nat)

  const KERNEL_X := Perm(false, true, false)
  const KERNEL_W := Perm(true, false, false)
  const TEXT := 0    // the frame number entered for the trampoline; it is not from the pool

  ghost predicate NoneOf(role: seq<Role>, a: nat) {
    forall f {:trigger role[f]} :: 0 <= f < |role| ==> !Belongs(role[f], a)
  }

  ghost predicate Quiet(role: seq<Role>) {
    forall f {:trigger role[f]} :: 0 <= f < |role| ==> !Unsettled(role[f])
  }

  /** The same frames are free, and every other frame has the same use and the same contents. */
  ghost predicate Restored(role: seq<Role>, mem: seq<Frame>, role': seq<Role>, mem': seq<Frame>) {
    && role' == role && |mem| == |mem'| == |role|
    && forall f {:trigger mem'[f]} :: 0 <= f < |role| && !role[f].Free? ==> mem'[f] == mem[f]
  }

  lemma QuietKept(role: seq<Role>, mem: seq<Frame>, role': seq<Role>, mem': seq<Frame>, a: nat)
    requires OnlyMine(role, mem, role', mem', a) && Quiet(role)
    ensures Quiet(role')
  {
  }

  /** A frame comes into use as a root table. */
  lemma NewSpace(mem: seq<Frame>, role: seq<Role>, freelist: seq<nat>, spaces: Spaces, a: nat, f: nat)
    requires World(mem, role, freelist, spaces) && a !in spaces && f < |role| && role[f].Loose?
    ensures f < |mem| && World(mem[f := ZERO_TABLE], role[f := Root(a)], freelist,
                               spaces[a := Space(f, map[], map[], map[])])
  {
    hide FreeOk;
    var mem', role', sp := mem[f := ZERO_TABLE], role[f := Root(a)], Space(f, map[], map[], map[]);
    SameFree(role, role', freelist);
    forall g | 0 <= g < |role'| ensures RoleOk(role'[g], g, spaces[a := sp]) {
      assert RoleOk(role[g], g, spaces);
    }
    WorldStep(mem, role, freelist, spaces, mem', role', freelist, a, sp);
  }

  /** A frame's role changes between waiting and holding a trapframe. */
  lemma SwitchRole(mem: seq<Frame>, role: seq<Role>, freelist: seq<nat>, spaces: Spaces, f: nat, r: Role)
    requires World(mem, role, freelist, spaces) && f < |role| && (role[f].Loose? || role[f].Trap?)
             && (r.Loose? || r.Trap?)
    requires role[f].Trap? || r.Trap?
    ensures World(mem, role[f := r], freelist, spaces)
  {
    hide FreeOk;
    var role' := role[f := r];
    SameFree(role, role', freelist);
    forall g | 0 <= g < |role'| ensures RoleOk(role'[g], g, spaces) { assert RoleOk(role[g], g, spaces); }
    forall b | b in spaces ensures SpaceOk(mem, role', b, spaces[b]) {
      assert SpaceOk(mem, role, b, spaces[b]);
      TrapKept(mem, role, role', b, spaces[b], f);
    }
  }

  lemma TrapKept(mem: seq<Frame>, role: seq<Role>, role': seq<Role>, a: nat, sp: Space, f: nat)
    requires SpaceOk(mem, role, a, sp) && f < |role| && (role[f].Loose? || role[f].Trap?) && |role'| == |role|
             && role' == role[f := role'[f]]
    ensures SpaceOk(mem, role', a, sp)
  {
    hide SpaceOk;
    RowFacts(mem, role, a, sp);
    SpaceKept(mem, role, mem, role', a, sp);
  }

  /** Without a space only a trapframe can still belong to it. */
  lemma OnlyTrapLeft(mem: seq<Frame>, role: seq<Role>, freelist: seq<nat>, spaces: Spaces, a: nat)
    requires World(mem, role, freelist, spaces) && a !in spaces
    ensures forall f :: 0 <= f < |role| && Belongs(role[f], a) ==> role[f] == Trap(a)
  {
    hide FreeOk, SpaceOk;
    forall f | 0 <= f < |role| && Belongs(role[f], a) ensures role[f] == Trap(a) { assert RoleOk(role[f], f, spaces); }
  }

  /** uvmcreate: an empty root table. */
  method Uvmcreate(m: Memory, ghost a: nat) returns (ok: bool, root: nat)
    requires m.Valid() && a !in m.spaces
    modifies m
    ensures m.Valid() && OnlyMine(old(m.role), old(m.mem), m.role, m.mem, a)
    ensures ok ==> m.spaces == old(m.spaces)[a := Space(root, map[], map[], map[])]
    ensures !ok ==> m.spaces == old(m.spaces)
    ensures (ok <==> |old(m.freelist)| >= 1) && (ok ==> |old(m.freelist)| == |m.freelist| + 1)
  {
    hide World;
    SizesMatch(m.mem, m.role, m.freelist, m.spaces);
    ok, root := m.Kalloc();
    if ok {
      NewSpace(m.mem, m.role, m.freelist, m.spaces, a, root);
      m.mem := m.mem[root := ZERO_TABLE];
      m.role := m.role[root := Root(a)];
      m.spaces := m.spaces[a := Space(root, map[], map[], map[])];
    }
  }

  lemma SizesMatch(mem: seq<Frame>, role: seq<Role>, freelist: seq<nat>, spaces: Spaces)
    requires World(mem, role, freelist, spaces)
    ensures |role| == |mem|
  {
  }

  /** uvmfree: the user pages below sz, then all table pages. */
  method Uvmfree(m: Memory, root: nat, sz: nat, ghost a: nat) returns (ok: bool)
    requires m.Valid() && a in m.spaces && root == m.spaces[a].root && Pages(sz) <= TRAPFRAME
    requires (forall v :: v in m.spaces[a].flat ==> v < Pages(sz))
             && (forall f :: 0 <= f < |m.role| ==> !m.role[f].Dead?)
    modifies m
    ensures ok && m.Valid() && m.spaces == old(m.spaces) - {a} && OnlyMine(old(m.role), old(m.mem), m.role, m.mem, a)
  {
    hide World, OnlyMine, DeadSub, TagsOk, Freed;
    SizesMatch(m.mem, m.role, m.freelist, m.spaces);
    m.NoChange(a);
    if sz > 0 {
      m.Uvmunmap(root, 0, Pages(sz), true, a);
    }
    NothingMapped(old(m.spaces)[a].flat, m.spaces[a].flat, Pages(sz));
    NoDead(old(m.role), old(m.mem), m.role, m.mem, a);
    SizesMatch(m.mem, m.role, m.freelist, m.spaces);
    ghost var role1, mem1, sp := m.role, m.mem, m.spaces[a];
    BuriedIsDead(m.mem, m.role, m.freelist, m.spaces, a);
    BuryKeepsWorld(m.mem, m.role, m.freelist, m.spaces, a);
    m.role := Buried(m.role, a);
    m.spaces := m.spaces - {a};
    ok := Freewalk(m, root, 2, 0, sp);
    FreedIsMine(role1, mem1, m.role, m.mem, a);
    OnlyMineTwice(old(m.role), old(m.mem), role1, mem1, m.role, m.mem, a);
  }

  lemma NothingMapped(flat: map<nat, Page>, flat': map<nat, Page>, n: nat)
    requires flat' == Without(flat, 0, n) || (n == 0 && flat' == flat)
    requires forall v :: v in flat ==> v < n
    ensures flat' == map[]
  {
  }

  lemma NoDead(role: seq<Role>, mem: seq<Frame>, role': seq<Role>, mem': seq<Frame>, a: nat)
    requires OnlyMine(role, mem, role', mem', a) && forall f :: 0 <= f < |role| ==> !role[f].Dead?
    ensures forall f :: 0 <= f < |role'| ==> !role'[f].Dead?
  {
  }

  lemma FreedIsMine(role: seq<Role>, mem: seq<Frame>, role': seq<Role>, mem': seq<Frame>, a: nat)
    requires |mem| == |role| && Freed(Buried(role, a), mem, role', mem', 2, 0) && forall f :: 0 <= f < |role| ==>
               !role[f].Dead?
    ensures OnlyMine(role, mem, role', mem', a)
  {
  }

  function KernelPages(tf: nat): (r: map<nat, Page>) {
    map[TRAMPOLINE := Page(TEXT, KERNEL_X), TRAPFRAME := Page(tf, KERNEL_W)]
  }

  const KERNEL_MID := TRAMPOLINE / 512 / 512
  const KERNEL_LOW := TRAMPOLINE / 512

  /** An address space that has the tables of the two kernel pages and no others. */
  ghost predicate BareTables(sp: Space) {
    sp.mid.Keys == {KERNEL_MID} && sp.low.Keys == {KERNEL_LOW}
  }

  /** proc_pagetable: a table with only the two kernel pages, or, without memory for that, nothing. It takes
      three frames: the root table and a table at either level below, which both pages share. */
  method ProcPagetable(m: Memory, tf: nat, ghost a: nat) returns (ok: bool, root: nat)
    requires m.Valid() && a !in m.spaces && forall f :: 0 <= f < |m.role| ==> !m.role[f].Dead?
    modifies m
    ensures m.Valid() && OnlyMine(old(m.role), old(m.mem), m.role, m.mem, a)
    ensures ok ==> a in m.spaces && m.spaces == old(m.spaces)[a := m.spaces[a]] && m.spaces[a].root == root
                   && m.spaces[a].flat == KernelPages(tf) && BareTables(m.spaces[a])
    ensures !ok ==> m.spaces == old(m.spaces)
    ensures (ok <==> |old(m.freelist)| >= 3) && (ok ==> |old(m.freelist)| == |m.freelist| + 3)
  {
    hide World, OnlyMine, Mappable, PagesKept;
    ok, root := Uvmcreate(m, a);
    if !ok {
      return;
    }
    ghost var role1, mem1 := m.role, m.mem;
    HighMappable(m.mem, m.role, a, m.spaces[a], TRAMPOLINE, Page(TEXT, KERNEL_X));
    ok := m.MapPage(root, TRAMPOLINE, Page(TEXT, KERNEL_X), a);
    OnlyMineTwice(old(m.role), old(m.mem), role1, mem1, m.role, m.mem, a);
    if !ok {
      AbandonTable(m, root, a, old(m.role), old(m.mem));
      return;
    }
    ghost var role2, mem2 := m.role, m.mem;
    HighMappable(m.mem, m.role, a, m.spaces[a], TRAPFRAME, Page(tf, KERNEL_W));
    ok := m.MapPage(root, TRAPFRAME, Page(tf, KERNEL_W), a);
    OnlyMineTwice(old(m.role), old(m.mem), role2, mem2, m.role, m.mem, a);
    assert ok;    // its tables are those of the trampoline: the last error path is never taken
    assert m.spaces[a].flat == KernelPages(tf);
  }

  lemma HighMappable(mem: seq<Frame>, role: seq<Role>, a: nat, sp: Space, v: nat, page: Page)
    requires v !in sp.flat && TRAPFRAME <= v < MAXPN
    ensures Mappable(mem, role, a, sp, v, page)
  {
  }

  /** The error path of proc_pagetable. */
  method AbandonTable(m: Memory, root: nat, ghost a: nat, ghost role0: seq<Role>, ghost mem0: seq<Frame>)
    requires m.Valid() && a in m.spaces && root == m.spaces[a].root && OnlyMine(role0, mem0, m.role, m.mem, a)
    requires forall f :: 0 <= f < |role0| ==> !role0[f].Dead?
    requires m.spaces[a].flat == map[]
    modifies m
    ensures m.Valid() && m.spaces == old(m.spaces) - {a} && OnlyMine(role0, mem0, m.role, m.mem, a)
  {
    hide World, OnlyMine, PagesKept;
    NoDead(role0, mem0, m.role, m.mem, a);
    ghost var role2, mem2 := m.role, m.mem;
    var ok := Uvmfree(m, root, 0, a);
    OnlyMineTwice(role0, mem0, role2, mem2, m.role, m.mem, a);
  }

  /** proc_freepagetable: all of the address space goes, and with it every frame but the trapframe. */
  method ProcFreepagetable(m: Memory, root: nat, sz: nat, ghost a: nat) returns (ok: bool)
    requires m.Valid() && a in m.spaces && root == m.spaces[a].root && UserSpace(m.spaces[a].flat, sz)
    requires forall f :: 0 <= f < |m.role| ==> !m.role[f].Dead?
    modifies m
    ensures ok && m.Valid() && m.spaces == old(m.spaces) - {a} && OnlyMine(old(m.role), old(m.mem), m.role, m.mem, a)
  {
    hide World, OnlyMine, PagesKept;
    ghost var role0, mem0, flat0 := m.role, m.mem, m.spaces[a].flat;
    m.Uvmunmap(root, TRAMPOLINE, 1, false, a);
    ghost var role1, mem1 := m.role, m.mem;
    m.Uvmunmap(root, TRAPFRAME, 1, false, a);
    OnlyMineTwice(role0, mem0, role1, mem1, m.role, m.mem, a);
    ghost var role2, mem2 := m.role, m.mem;
    NoDead(role0, mem0, m.role, m.mem, a);
    PagesBound(sz);
    ok := Uvmfree(m, root, sz, a);
    OnlyMineTwice(role0, mem0, role2, mem2, m.role, m.mem, a);
  }

  lemma PagesBound(sz: nat)
    ensures sz <= TRAPFRAME * PGSIZE ==> Pages(sz) <= TRAPFRAME
  {
  }

  // ---- uvmcopy ----------------------------------------------------------------------------

  /** The pages below n of one map have copies in the other: same permissions, same bytes, other frames. */
  ghost predicate Copied(flat: map<nat, Page>, flat0: map<nat, Page>, flat': map<nat, Page>, mem: seq<Frame>, n: nat) {
    && Without(flat', 0, n) == flat0
    && forall v {:trigger v in flat'} {:trigger flat'[v]} :: 0 <= v < n ==>
         && (v in flat' <==> v in flat)
         && (v in flat ==> flat'[v].perm == flat[v].perm && flat'[v].frame < |mem| && flat[v].frame < |mem|
                           && mem[flat'[v].frame] == mem[flat[v].frame])
  }

  /** uvmcopy: the child gets its own copy of every page the parent has; the parent is not touched.
      It fails exactly when memory runs out, and then the child maps what it mapped before. */
  method Uvmcopy(m: Memory, old_: nat, new_: nat, sz: nat, ghost a: nat, ghost b: nat) returns (ok: bool)
    requires m.Valid() && a in m.spaces && b in m.spaces && a != b && old_ == m.spaces[a].root
             && new_ == m.spaces[b].root
    requires UserSpace(m.spaces[a].flat, sz) && forall v :: v in m.spaces[b].flat ==> v >= TRAPFRAME
    modifies m
    ensures m.Valid() && a in m.spaces && b in m.spaces && b in old(m.spaces)
            && m.spaces == old(m.spaces)[b := m.spaces[b]] && m.spaces[b].root == new_
    ensures OnlyMine(old(m.role), old(m.mem), m.role, m.mem, b)
    ensures ok ==> Copied(m.spaces[a].flat, old(m.spaces)[b].flat, m.spaces[b].flat, m.mem, Pages(sz))
    ensures !ok ==> m.spaces[b].flat == old(m.spaces)[b].flat
    ensures ok <==> |old(m.freelist)| >= FramesFor(Mapped(m.spaces[a].flat, 0, Pages(sz)), old(m.spaces)[b])
  {
    hide World, OnlyMine, PagesKept, Copied, FramesFor, Mapped;
    ghost var role0, mem0, flat0, flatA := m.role, m.mem, m.spaces[b].flat, m.spaces[a].flat;
    m.NoChange(b);
    NoneCopied(flatA, flat0, m.mem);
    PagesBound(sz);
    ghost var last := Pages(sz);
    ghost var cost := FramesFor(Mapped(flatA, 0, last), m.spaces[b]);
    ok := true;
    var v := 0;
    while v * PGSIZE < sz
      invariant m.Valid() && 0 <= v <= Pages(sz) && a in m.spaces && b in m.spaces
                && m.spaces == old(m.spaces)[b := m.spaces[b]] && m.spaces[b].root == new_
      invariant OnlyMine(role0, mem0, m.role, m.mem, b) && Copied(flatA, flat0, m.spaces[b].flat, m.mem, v)
      invariant |old(m.freelist)| + FramesFor(Mapped(flatA, v, last), m.spaces[b]) == |m.freelist| + cost
    {
      MappedFirst(flatA, v, last, sz);
      ghost var sp1 := m.spaces[b];
      var fine := CopyPage(m, old_, new_, v, a, b, role0, mem0, flat0, Mapped(flatA, v, last));
      if !fine {
        ghost var role1, mem1, flat1 := m.role, m.mem, m.spaces[b].flat;
        m.Uvmunmap(new_, 0, v, true, b);
        OnlyMineTwice(role0, mem0, role1, mem1, m.role, m.mem, b);
        CopiesUndone(flatA, flat0, flat1, mem1, v);
        return false;
      }
      v := v + 1;
    }
    NoneLeft(flatA, v, sz, m.spaces[b]);
  }

  /** The pages of a map from lo to hi. */
  ghost function Mapped(flat: map<nat, Page>, lo: nat, hi: nat): (r: set<nat>) {
    set v | v in flat && lo <= v < hi
  }

  lemma MappedFirst(flat: map<nat, Page>, v: nat, last: nat, sz: nat)
    requires v * PGSIZE < sz && last == Pages(sz)
    ensures v < last
    ensures v in flat <==> v in Mapped(flat, v, last)
    ensures Mapped(flat, v + 1, last) == Mapped(flat, v, last) - {v}
  {
  }

  lemma NoneLeft(flat: map<nat, Page>, v: nat, sz: nat, sp: Space)
    requires v * PGSIZE >= sz
    ensures FramesFor(Mapped(flat, v, Pages(sz)), sp) == 0
  {
    assert v >= Pages(sz);
    assert Mapped(flat, v, Pages(sz)) == {};
  }

  lemma NoneCopied(flat: map<nat, Page>, flat0: map<nat, Page>, mem: seq<Frame>)
    ensures Copied(flat, flat0, flat0, mem, 0)
  {
    WithoutNone(flat0, 0);
  }

  lemma CopiesUndone(flat: map<nat, Page>, flat0: map<nat, Page>, flat': map<nat, Page>, mem: seq<Frame>, n: nat)
    requires Copied(flat, flat0, flat', mem, n)
    ensures Without(flat', 0, n) == flat0
  {
  }

  /** One turn of uvmcopy's loop. */
  method CopyPage(m: Memory, old_: nat, new_: nat, v: nat, ghost a: nat, ghost b: nat, ghost role0: seq<Role>,
                  ghost mem0: seq<Frame>, ghost flat0: map<nat, Page>, ghost rest: set<nat>)
    returns (ok: bool)
    requires a in m.spaces && (v in rest <==> v in m.spaces[a].flat)
    requires m.Valid() && a in m.spaces && b in m.spaces && a != b && old_ == m.spaces[a].root
             && new_ == m.spaces[b].root && v < TRAPFRAME
    requires OnlyMine(role0, mem0, m.role, m.mem, b) && Copied(m.spaces[a].flat, flat0, m.spaces[b].flat, m.mem, v)
    requires forall u :: u in flat0 ==> u >= TRAPFRAME
    modifies m
    ensures m.Valid() && a in m.spaces && b in m.spaces && b in old(m.spaces)
            && m.spaces == old(m.spaces)[b := m.spaces[b]] && m.spaces[b].root == new_
    ensures OnlyMine(role0, mem0, m.role, m.mem, b)
            && Copied(m.spaces[a].flat, flat0, m.spaces[b].flat, m.mem, if ok then v + 1 else v)
    ensures ok ==> |old(m.freelist)| + FramesFor(rest - {v}, m.spaces[b])
                   == |m.freelist| + FramesFor(rest, old(m.spaces)[b])
    ensures !ok ==> |old(m.freelist)| < FramesFor(rest, old(m.spaces)[b])
  {
    hide World, OnlyMine, PagesKept, Copied, FramesFor, TablesFor;
    ghost var flatA, flat1, role1, mem1 := m.spaces[a].flat, m.spaces[b].flat, m.role, m.mem;
    ok := true;
    NotCopied(flatA, flat0, flat1, m.mem, v);
    var found, t := m.Walk(old_, v, false, a);
    if !found {
      m.NoLowNoPage(a, v);
      assert rest - {v} == rest;
      SkipPage(flatA, flat0, flat1, m.mem, v);
      return;
    }
    m.EntryAt(a, v, 0, t);
    var e := m.mem[t].e[v % 512];
    if e.Zero? {
      assert rest - {v} == rest;
      SkipPage(flatA, flat0, flat1, m.mem, v);
      return;
    }
    m.PageIsPage(a, v);
    var f;
    OnePageAtLeast(rest, m.spaces[b], v);
    ok, f := m.FreshPage(new_, v, e.perm, m.mem[e.frame].b, b);
    if ok {
      OnePageLess(rest, old(m.spaces)[b], m.spaces[b], v);
    }
    OnlyMineTwice(role0, mem0, role1, mem1, m.role, m.mem, b);
    ParentKept(m, a, b, role1, mem1);
    CopyKept(flatA, flat0, flat1, m.spaces[b].flat, mem1, m.mem, v, Page(f, e.perm), ok);
  }

  lemma NotCopied(flat: map<nat, Page>, flat0: map<nat, Page>, flat': map<nat, Page>, mem: seq<Frame>, v: nat)
    requires Copied(flat, flat0, flat', mem, v) && v < TRAPFRAME && forall u :: u in flat0 ==> u >= TRAPFRAME
    ensures v !in flat'
  {
    var rest := Without(flat', 0, v);
    assert v in flat' ==> v in rest;
  }

  lemma SkipPage(flat: map<nat, Page>, flat0: map<nat, Page>, flat': map<nat, Page>, mem: seq<Frame>, v: nat)
    requires Copied(flat, flat0, flat', mem, v) && v !in flat && v !in flat'
    ensures Copied(flat, flat0, flat', mem, v + 1)
  {
    WithoutNext(flat', 0, v);
  }

  /** What is done to one space does not show in another. */
  lemma ParentKept(m: Memory, a: nat, b: nat, role1: seq<Role>, mem1: seq<Frame>)
    requires m.Valid() && a in m.spaces && a != b && OnlyMine(role1, mem1, m.role, m.mem, b)
    ensures forall v :: v in m.spaces[a].flat && v < TRAPFRAME ==>
              && m.spaces[a].flat[v].frame < |m.mem| == |mem1|
              && m.mem[m.spaces[a].flat[v].frame] == mem1[m.spaces[a].flat[v].frame]
  {
    hide World, SpaceOk;
    WorldParts(m.mem, m.role, m.freelist, m.spaces, a);
    RowFacts(m.mem, m.role, a, m.spaces[a]);
    hide OnlyMine;
    forall v | v in m.spaces[a].flat && v < TRAPFRAME
      ensures m.spaces[a].flat[v].frame < |m.mem| == |mem1|
      ensures m.mem[m.spaces[a].flat[v].frame] == mem1[m.spaces[a].flat[v].frame]
    {
      NotMine(m.role, m.mem, role1, mem1, m.spaces[a].flat[v].frame, a, b);
    }
  }

  lemma NotMine(role: seq<Role>, mem: seq<Frame>, role1: seq<Role>, mem1: seq<Frame>, f: nat, a: nat, b: nat)
    requires OnlyMine(role1, mem1, role, mem, b) && f < |role| == |mem| && a != b && Belongs(role[f], a)
    ensures f < |mem1| == |mem| && mem[f] == mem1[f]
  {
  }

  lemma CopyKept(flat: map<nat, Page>, flat0: map<nat, Page>, flat1: map<nat, Page>, flat': map<nat, Page>,
                 mem1: seq<Frame>, mem: seq<Frame>,
                 v: nat, page: Page, ok: bool)
    requires Copied(flat, flat0, flat1, mem1, v) && v < TRAPFRAME && v in flat && v !in flat1
             && PagesKept(flat1, mem1, mem)
    requires forall u :: u in flat && u < TRAPFRAME ==>
               flat[u].frame < |mem| == |mem1| && mem[flat[u].frame] == mem1[flat[u].frame]
    requires flat' == if ok then flat1[v := page] else flat1
    requires ok ==> page.perm == flat[v].perm && page.frame < |mem| && mem[page.frame] == mem[flat[v].frame]
    ensures Copied(flat, flat0, flat', mem, if ok then v + 1 else v)
  {
    if ok { assert Without(flat', 0, v + 1) == Without(flat1, 0, v); }
  }

  // ---- processes ---------------------------------------------------------------------------

  /** A process's size, table and trapframe fit its address space. */
  ghost predicate ProcOk(mem: seq<Frame>, role: seq<Role>, a: nat, sp: Space, p: Proc) {
    && sp.root == p.pagetable && p.trapframe < |role| && role[p.trapframe] == Trap(a)
    && UserSpace(sp.flat, p.sz)
    && TRAMPOLINE in sp.flat && TRAPFRAME in sp.flat && sp.flat[TRAPFRAME].frame == p.trapframe
  }

  ghost predicate ProcsOk(mem: seq<Frame>, role: seq<Role>, spaces: Spaces, procs: map<nat, Proc>) {
    && spaces.Keys == procs.Keys && Quiet(role)
    && (forall a {:trigger procs[a]} {:trigger a in procs} :: a in procs ==>
        a in spaces && ProcOk(mem, role, a, spaces[a], procs[a]))
    && TrapsOwned(role, procs)
  }

  /** Every trapframe is the one of a process. */
  ghost predicate TrapsOwned(role: seq<Role>, procs: map<nat, Proc>) {
    forall f {:trigger role[f]} :: 0 <= f < |role| && role[f].Trap? ==>
      role[f].a in procs && procs[role[f].a].trapframe == f
  }

  /** What changed concerns process a alone. */
  lemma OneProcess(mem: seq<Frame>, role: seq<Role>, spaces: Spaces, procs: map<nat, Proc>, mem': seq<Frame>,
                   role': seq<Role>, spaces': Spaces, a: nat, p: Proc)
    requires ProcsOk(mem, role, spaces, procs) && a in procs && a in spaces && a in spaces'
             && spaces' == spaces[a := spaces'[a]]
    requires OnlyMine(role, mem, role', mem', a) && p.trapframe == procs[a].trapframe
             && ProcOk(mem', role', a, spaces'[a], p)
    ensures ProcsOk(mem', role', spaces', procs[a := p])
  {
    hide UserSpace;
    QuietKept(role, mem, role', mem', a);
    var procs' := procs[a := p];
    assert spaces'.Keys == procs'.Keys;
    forall b | b in procs' ensures b in spaces' && ProcOk(mem', role', b, spaces'[b], procs'[b]) {
      if b != a { assert ProcOk(mem, role, b, spaces[b], procs[b]); }
    }
    forall f | 0 <= f < |role'| && role'[f].Trap? ensures role'[f].a in procs' && procs'[role'[f].a].trapframe == f {
      assert role[f] == role'[f];
    }
  }

  class Processes {
    const m: Memory
    var procs: map<nat, Proc>

    ghost predicate Valid()
      reads this, m
    {
      m.Valid() && ProcsOk(m.mem, m.role, m.spaces, procs)
    }

    constructor (n: nat)
      ensures Valid() && procs == map[] && |m.mem| == n && fresh(m)
    {
      m := new Memory(n);
      procs := map[];
    }

    // ---- growing, shrinking, faulting ---------------------------------------------------------

    /** Why growproc refuses to grow a process by n bytes: the address space, the quota, or too few frames for
        the new pages and the tables they need. */
    ghost predicate CannotGrow(p: Proc, sp: Space, free: nat, n: int) {
      n > 0 && (|| p.sz + n > TRAPFRAME * PGSIZE || (p.quota > 0 && Pages(p.sz + n) > p.quota)
                || free < FramesFor(Range(Pages(p.sz), Pages(p.sz + n)), sp))
    }

    /** growproc. Growth is all or nothing and within the quota; shrinking unmaps exactly the pages above
        the new size; shrinking by more than the size changes nothing. */
    method Growproc(a: nat, n: int) returns (r: int)
      requires Valid() && a in procs && -0x8000_0000 <= n < 0x8000_0000
      modifies m, this`procs
      ensures Valid() && a in procs && a in old(procs) && a in m.spaces && a in old(m.spaces) && (r == 0 || r == -1)
      ensures procs == old(procs)[a := old(procs)[a].(sz := procs[a].sz)] && m.spaces == old(m.spaces)[a := m.spaces[a]]
      ensures OnlyMine(old(m.role), old(m.mem), m.role, m.mem, a)
      ensures r == -1 <==> CannotGrow(old(procs)[a], old(m.spaces)[a], old(|m.freelist|), n)
      ensures r == -1 ==> n > 0 && procs == old(procs) && m.spaces[a].flat == old(m.spaces)[a].flat
                          && PagesKept(m.spaces[a].flat, old(m.mem), m.mem)
      ensures n > 0 && r == 0 ==>
                var p := procs[a];
                && p.sz == old(procs)[a].sz + n && (p.quota > 0 ==> Pages(p.sz) <= p.quota)
                   && PagesKept(old(m.spaces)[a].flat, old(m.mem), m.mem)
                && ZeroPages(old(m.spaces)[a].flat, m.spaces[a].flat, m.mem, Pages(old(procs)[a].sz), Pages(p.sz),
                             Perm(true, false, true))
      ensures n <= 0 ==>
                var sz := old(procs)[a].sz;
                && r == 0 && procs[a].sz == (if sz + n < 0 then sz else sz + n)
                   && PagesKept(m.spaces[a].flat, old(m.mem), m.mem)
                && m.spaces[a].flat == Without(old(m.spaces)[a].flat, Pages(procs[a].sz), Pages(sz))
    {
      hide World, OnlyMine, PagesKept, ProcsOk, ZeroPages, UserSpace, Without, Pages, FramesFor, Range;
      var p := procs[a];
      ghost var mem0, role0, spaces0, procs0 := m.mem, m.role, m.spaces, procs;
      ProcFacts(m.mem, m.role, m.spaces, procs, a);
      m.NoChange(a);
      var sz := p.sz;
      r := 0;
      if n > 0 {
        if sz + n > TRAPFRAME * PGSIZE || (p.quota > 0 && Pages(sz + n) > p.quota) {
          SameMap(procs, a);
          return -1;
        }
        UserBelow(m.spaces[a].flat, sz);
        sz := m.Uvmalloc(p.pagetable, sz, sz + n, false, true, a);
        if sz == 0 {
          SameProcess(mem0, role0, spaces0, procs, m.mem, m.role, m.spaces, a);
          SameMap(procs, a);
          return -1;
        }
        GrownUser(spaces0[a].flat, m.spaces[a].flat, m.mem, p.sz, sz);
      } else if n < 0 {
        var want := (sz + n) % 0x1_0000_0000_0000_0000;
        sz := m.Uvmdealloc(p.pagetable, sz, want, a);
        ShrunkUser(spaces0[a].flat, p.sz, sz);
      } else {
        WithoutNone(m.spaces[a].flat, Pages(sz));
      }
      KernelStays(spaces0[a].flat, m.spaces[a].flat, m.mem, mem0, role0, m.role, a, p);
      OneProcess(mem0, role0, spaces0, procs, m.mem, m.role, m.spaces, a, p.(sz := sz));
      procs := procs[a := p.(sz := sz)];
    }

    /** sys_sbrk: the old size, or -1. Eager and shrinking calls go to growproc; lazy growth only moves the size. */
    method Sbrk(a: nat, n: int, eager: bool) returns (addr: int)
      requires Valid() && a in procs && -0x8000_0000 <= n < 0x8000_0000
      modifies m, this`procs
      ensures Valid() && a in procs && a in old(procs) && a in m.spaces && a in old(m.spaces)
      ensures addr == old(procs)[a].sz || addr == -1
      ensures procs == old(procs)[a := old(procs)[a].(sz := procs[a].sz)] && m.spaces == old(m.spaces)[a := m.spaces[a]]
      ensures OnlyMine(old(m.role), old(m.mem), m.role, m.mem, a)
      ensures addr == -1 <==> if eager then CannotGrow(old(procs)[a], old(m.spaces)[a], old(|m.freelist|), n)
                              else n > 0 && old(procs)[a].sz + n > TRAPFRAME * PGSIZE
      ensures addr == -1 ==> n > 0 && procs == old(procs) && m.spaces[a].flat == old(m.spaces)[a].flat
      ensures addr >= 0 && n > 0 ==> procs[a].sz == addr + n
      ensures addr >= 0 && n > 0 ==> SameView(old(m.mem), old(m.spaces)[a].flat, m.mem, m.spaces[a].flat, addr + n)
      ensures addr >= 0 && n <= 0 ==>
                && procs[a].sz == (if addr + n < 0 then addr else addr + n)
                && m.spaces[a].flat == Without(old(m.spaces)[a].flat, Pages(procs[a].sz), Pages(addr))
    {
      hide World, OnlyMine, PagesKept, ProcsOk, ZeroPages, UserSpace, SameView, FramesFor, Range;
      var p := procs[a];
      addr := p.sz;
      ProcFacts(m.mem, m.role, m.spaces, procs, a);
      m.NoChange(a);
      if eager || n < 0 {
        var r := Growproc(a, n);
        if r < 0 {
          return -1;
        }
        ProcFacts(m.mem, m.role, m.spaces, procs, a);
        if n > 0 {
          LazyIsEager(old(m.mem), old(m.spaces)[a].flat, m.mem, m.spaces[a].flat, addr, addr + n);
        }
      } else {
        if addr + n > TRAPFRAME * PGSIZE {
          SameMap(procs, a);
          return -1;
        }
        SameViewSelf(m.mem, m.spaces[a].flat, addr + n);
        WithoutNone(m.spaces[a].flat, Pages(addr));
        LargerUser(m.spaces[a].flat, addr, addr + n);
        OneProcess(m.mem, m.role, m.spaces, procs, m.mem, m.role, m.spaces, a, p.(sz := addr + n));
        procs := procs[a := p.(sz := addr + n)];
      }
    }

    /** A page fault of process a at va: invisible to what the process can read and write. */
    method Fault(a: nat, va: nat) returns (ok: bool)
      requires Valid() && a in procs
      modifies m
      ensures Valid() && a in m.spaces && a in old(m.spaces) && m.spaces == old(m.spaces)[a := m.spaces[a]]
      ensures OnlyMine(old(m.role), old(m.mem), m.role, m.mem, a)
      ensures SameView(old(m.mem), old(m.spaces)[a].flat, m.mem, m.spaces[a].flat, procs[a].sz)
      ensures ok ==> va / PGSIZE in m.spaces[a].flat && m.spaces[a].flat[va / PGSIZE].perm == Perm(true, false, true)
      ensures ok <==> && va < procs[a].sz && va / PGSIZE !in old(m.spaces)[a].flat
                      && |old(m.freelist)| > Memory.Missing(old(m.spaces)[a], va / PGSIZE)
    {
      hide World, OnlyMine, PagesKept, ProcsOk, UserSpace, SameView;
      ghost var mem0, role0, spaces0 := m.mem, m.role, m.spaces;
      ProcFacts(m.mem, m.role, m.spaces, procs, a);
      var f;
      ok, f := m.Vmfault(procs[a].pagetable, procs[a].sz, va, a);
      if ok {
        UserFacts(spaces0[a].flat, procs[a].sz, va / PGSIZE);
        FaultIsInvisible(mem0, spaces0[a].flat, m.mem, m.spaces[a].flat, procs[a].sz, va / PGSIZE, f);
        KernelStays(spaces0[a].flat, m.spaces[a].flat, m.mem, mem0, role0, m.role, a, procs[a]);
        assert procs[a := procs[a]] == procs;
        OneProcess(mem0, role0, spaces0, procs, m.mem, m.role, m.spaces, a, procs[a]);
      } else {
        PagesKeptView(mem0, m.mem, spaces0[a].flat, procs[a].sz);
        SameProcess(mem0, role0, spaces0, procs, m.mem, m.role, m.spaces, a);
      }
    }

    /** What copyin and copyout leave of a process and of the others. */
    lemma AfterCopy(mem0: seq<Frame>, role0: seq<Role>, spaces0: Spaces, a: nat)
      requires a in procs && ProcsOk(mem0, role0, spaces0, procs) && a in spaces0 && a in m.spaces
      requires m.spaces == spaces0[a := m.spaces[a]] && m.spaces[a].root == spaces0[a].root
      requires OnlyMine(role0, mem0, m.role, m.mem, a) && UserSpace(m.spaces[a].flat, procs[a].sz)
      requires Extended(spaces0[a].flat, m.spaces[a].flat)
      ensures ProcsOk(m.mem, m.role, m.spaces, procs)
    {
      hide World, OnlyMine, ProcsOk, UserSpace;
      ProcFacts(mem0, role0, spaces0, procs, a);
      KernelStays(spaces0[a].flat, m.spaces[a].flat, m.mem, mem0, role0, m.role, a, procs[a]);
      assert procs[a := procs[a]] == procs;
      OneProcess(mem0, role0, spaces0, procs, m.mem, m.role, m.spaces, a, procs[a]);
    }

    /** copyin from process a's memory: its own bytes, and nothing any process can see has changed. */
    method CopyFrom(a: nat, srcva: nat, len: nat) returns (ok: bool, dst: seq<Byte>)
      requires Valid() && a in procs
      modifies m
      ensures Valid() && a in m.spaces && a in old(m.spaces) && m.spaces == old(m.spaces)[a := m.spaces[a]]
      ensures OnlyMine(old(m.role), old(m.mem), m.role, m.mem, a)
      ensures SameView(old(m.mem), old(m.spaces)[a].flat, m.mem, m.spaces[a].flat, procs[a].sz)
      ensures ok ==> dst == Window(old(m.mem), old(m.spaces)[a].flat, srcva, len)
                     && AllReadable(old(m.spaces)[a].flat, procs[a].sz, srcva, len)
      ensures !ok ==> |m.freelist| <= 1 || !AllReadable(old(m.spaces)[a].flat, procs[a].sz, srcva, len)
    {
      hide World, OnlyMine, ProcsOk, UserSpace, SameView, Window, Extended, AllReadable;
      ghost var mem0, role0, spaces0 := m.mem, m.role, m.spaces;
      ProcFacts(m.mem, m.role, m.spaces, procs, a);
      ok, dst := m.Copyin(procs[a].pagetable, procs[a].sz, srcva, len, a);
      AfterCopy(mem0, role0, spaces0, a);
    }

    /** copyout to process a's memory: a prefix of src at dstva, all of it on success, and not another
        byte of this or any other process. */
    method CopyTo(a: nat, dstva: nat, src: seq<Byte>) returns (ok: bool, ghost done: nat)
      requires Valid() && a in procs
      modifies m
      ensures Valid() && a in m.spaces && a in old(m.spaces) && m.spaces == old(m.spaces)[a := m.spaces[a]]
      ensures OnlyMine(old(m.role), old(m.mem), m.role, m.mem, a)
      ensures SamePerms(old(m.spaces)[a].flat, m.spaces[a].flat, procs[a].sz)
      ensures done <= |src| && (ok ==> done == |src|)
      ensures Wrote(old(m.mem), old(m.spaces)[a].flat, m.mem, m.spaces[a].flat, dstva, src, done)
      ensures AllWritable(old(m.spaces)[a].flat, procs[a].sz, dstva, done)
      ensures !ok ==> |m.freelist| <= 1 || !AllWritable(old(m.spaces)[a].flat, procs[a].sz, dstva, |src|)
    {
      hide World, OnlyMine, ProcsOk, UserSpace, SamePerms, Wrote, Extended, AllWritable;
      ghost var mem0, role0, spaces0 := m.mem, m.role, m.spaces;
      ProcFacts(m.mem, m.role, m.spaces, procs, a);
      ok, done := m.Copyout(procs[a].pagetable, procs[a].sz, dstva, src, a);
      AfterCopy(mem0, role0, spaces0, a);
    }

    /** What another process can see stays, whatever process a does to frames of its own. */
    lemma OthersSeeNoChange(mem0: seq<Frame>, role0: seq<Role>, a: nat, b: nat)
      requires Valid() && a in procs && b in procs && b != a && OnlyMine(role0, mem0, m.role, m.mem, a)
      ensures b in m.spaces && SameView(mem0, m.spaces[b].flat, m.mem, m.spaces[b].flat, procs[b].sz)
    {
      hide World, ProcsOk, OnlyMine;
      ProcFacts(m.mem, m.role, m.spaces, procs, b);
      ParentKept(m, b, a, role0, mem0);
    }

    // ---- fork and exit -------------------------------------------------------------------------

    /** The frame of a trapframe, from kalloc. */
    method AllocTrapframe(ghost c: nat) returns (ok: bool, tf: nat)
      requires m.Valid() && NoneOf(m.role, c) && Quiet(m.role)
      modifies m`mem, m`freelist, m`role
      ensures m.Valid() && |old(m.role)| == |old(m.mem)|
      ensures ok ==> && tf < |old(m.role)| && old(m.role)[tf].Free? && m.role == old(m.role)[tf := Trap(c)]
                     && m.mem == old(m.mem)[tf := JUNK_ALLOC]
      ensures !ok ==> m.role == old(m.role) && m.mem == old(m.mem) && m.freelist == old(m.freelist)
      ensures (ok <==> |old(m.freelist)| >= 1) && (ok ==> |old(m.freelist)| == |m.freelist| + 1)
    {
      hide World;
      SizesMatch(m.mem, m.role, m.freelist, m.spaces);
      ok, tf := m.Kalloc();
      if ok {
        SwitchRole(m.mem, m.role, m.freelist, m.spaces, tf, Trap(c));
        m.role := m.role[tf := Trap(c)];
      }
    }

    /** kfree of a trapframe. */
    method FreeTrapframe(tf: nat)
      requires m.Valid() && tf < |m.role| && m.role[tf].Trap?
      modifies m`mem, m`freelist, m`role
      ensures m.Valid() && tf < |old(m.mem)| && m.role == old(m.role)[tf := Free]
              && m.mem == old(m.mem)[tf := JUNK_FREE]
    {
      hide World;
      SwitchRole(m.mem, m.role, m.freelist, m.spaces, tf, Loose);
      m.role := m.role[tf := Loose];
      m.Kfree(tf);
    }

    /** The memory side of kfork: a child whose memory is a copy of the parent's, or, if kalloc
        fails anywhere on the way, no change: the same frames are free and everything else is as it
        was. It fails exactly when there are fewer frames than the child needs. */
    method Fork(a: nat, c: nat) returns (ok: bool)
      requires Valid() && a in procs && c !in procs
      modifies m, this`procs
      ensures Valid() && a in procs && a in m.spaces
      ensures ok <==> |old(m.freelist)| >= ForkFrames(Mapped(m.spaces[a].flat, 0, Pages(procs[a].sz)))
      ensures !ok ==> procs == old(procs) && m.spaces == old(m.spaces)
                      && Restored(old(m.role), old(m.mem), m.role, m.mem)
      ensures ok ==> && a in old(procs) && c in procs && procs == old(procs)[c := procs[c]]
                     && procs[c].sz == procs[a].sz && procs[c].quota == procs[a].quota
                     && c in m.spaces && m.spaces == old(m.spaces)[c := m.spaces[c]]
                        && OthersKept(old(m.role), old(m.mem), m.role, m.mem)
                     && SameView(m.mem, m.spaces[a].flat, m.mem, m.spaces[c].flat, procs[a].sz)
    {
      hide World, OnlyMine, ProcsOk, UserSpace, SameView, Restored, NoneOf, Quiet, OthersKept, Copied, FramesFor,
           Mapped,
        BareTables, Pages, ForkFrames;
      ghost var mem0, role0, spaces0 := m.mem, m.role, m.spaces;
      ProcFacts(m.mem, m.role, m.spaces, procs, a);
      NoneOfNew(m.mem, m.role, m.freelist, m.spaces, procs, c);
      var root, tf;
      ok, root, tf := Allocproc(c);
      if !ok {
        ForkAtLeast(Mapped(m.spaces[a].flat, 0, Pages(procs[a].sz)));
        SameProcs(mem0, role0, spaces0, procs, m.mem, m.role);
        return;
      }
      ghost var mem1, role1 := m.mem, m.role;
      ghost var roleT, memT := role0[tf := Trap(c)], mem0[tf := JUNK_ALLOC];
      ForkCost(Mapped(m.spaces[a].flat, 0, Pages(procs[a].sz)), m.spaces[c]);
      ok := Uvmcopy(m, procs[a].pagetable, root, procs[a].sz, a, c);
      OnlyMineTwice(roleT, memT, role1, mem1, m.role, m.mem, c);
      TrapStays(roleT, memT, m.role, m.mem, c, tf);
      if ok {
        ForkKeepsOthers(role0, mem0, tf, c, m.role, m.mem);
        CopyLooksSame(m.mem, m.spaces[a].flat, m.spaces[c].flat, procs[a].sz, tf);
        NewProcess(mem0, role0, spaces0, procs, m.mem, m.role, m.spaces, c,
                   Proc(root, tf, procs[a].sz, procs[a].quota));
        procs := procs[c := Proc(root, tf, procs[a].sz, procs[a].quota)];
      } else {
        ghost var mem2, role2 := m.mem, m.role;
        NoDeadIn(role0, mem0, tf, c, role2, mem2);
        EmptyUser(m.spaces[c].flat, tf);
        SpacesBack(spaces0, m.spaces[c], c);
        var fine := Freeproc(root, tf, 0, c);
        OnlyTrapLeft(m.mem, m.role, m.freelist, m.spaces, c);
        ForkUndone(role0, mem0, tf, c, role2, mem2, m.role, m.mem);
        assert m.spaces == spaces0;
        SameProcs(mem0, role0, spaces0, procs, m.mem, m.role);
      }
    }

    /** The frames of a child whose parent has these pages: its trapframe and root table, the two tables of the
        kernel pages, a frame for every page and one for every further table that the pages need. */
    static ghost function ForkFrames(pages: set<nat>): (n: nat) {
      4 + |pages| + |Lows(pages) - {KERNEL_LOW}| + |Mids(pages) - {KERNEL_MID}|
    }

    lemma ForkAtLeast(pages: set<nat>)
      ensures ForkFrames(pages) >= 4
    {
    }

    lemma ForkCost(pages: set<nat>, sp: Space)
      requires BareTables(sp)
      ensures ForkFrames(pages) == 4 + FramesFor(pages, sp)
    {
    }

    /** The memory side of userinit: a first process of size 0, or no change without memory. */
    method Userinit(c: nat) returns (ok: bool)
      requires Valid() && c !in procs
      modifies m, this`procs
      ensures Valid()
      ensures ok <==> |old(m.freelist)| >= 4
      ensures ok ==> c in procs && procs == old(procs)[c := procs[c]] && procs[c].sz == 0
                     && OthersKept(old(m.role), old(m.mem), m.role, m.mem)
      ensures !ok ==> procs == old(procs) && m.spaces == old(m.spaces)
                      && Restored(old(m.role), old(m.mem), m.role, m.mem)
    {
      hide World, OnlyMine, ProcsOk, UserSpace, Restored, NoneOf, Quiet, OthersKept;
      ghost var mem0, role0, spaces0 := m.mem, m.role, m.spaces;
      QuietProcs(m.mem, m.role, m.spaces, procs);
      NoneOfNew(m.mem, m.role, m.freelist, m.spaces, procs, c);
      var root, tf;
      ok, root, tf := Allocproc(c);
      if ok {
        TrapStays(role0[tf := Trap(c)], mem0[tf := JUNK_ALLOC], m.role, m.mem, c, tf);
        ForkKeepsOthers(role0, mem0, tf, c, m.role, m.mem);
        EmptyUser(m.spaces[c].flat, tf);
        NewProcess(mem0, role0, spaces0, procs, m.mem, m.role, m.spaces, c, Proc(root, tf, 0, 0));
        procs := procs[c := Proc(root, tf, 0, 0)];
      } else {
        SameProcs(mem0, role0, spaces0, procs, m.mem, m.role);
      }
    }

    /** No frame is shared: a frame mapped for user memory is mapped once, by one process at one
        page, and is not free. */
    lemma FramesAreNotShared(a: nat, v: nat, b: nat, w: nat)
      requires Valid() && a in procs && b in procs && v < TRAPFRAME && w < TRAPFRAME
      requires a in m.spaces && b in m.spaces && v in m.spaces[a].flat && w in m.spaces[b].flat
      ensures m.spaces[a].flat[v].frame == m.spaces[b].flat[w].frame ==> a == b && v == w
      ensures m.spaces[a].flat[v].frame !in m.freelist && v < Pages(procs[a].sz)
    {
      hide SpaceOk, FreeOk, ProcsOk, World;
      WorldParts(m.mem, m.role, m.freelist, m.spaces, a);
      WorldParts(m.mem, m.role, m.freelist, m.spaces, b);
      RowFacts(m.mem, m.role, a, m.spaces[a]);
      RowFacts(m.mem, m.role, b, m.spaces[b]);
      ProcFacts(m.mem, m.role, m.spaces, procs, a);
      UsedIsNotFree(m.role, m.freelist, m.spaces[a].flat[v].frame);
    }

    /** The memory side of allocproc: a trapframe and an address space with the two kernel pages, or nothing. */
    method Allocproc(ghost c: nat) returns (ok: bool, root: nat, tf: nat)
      requires m.Valid() && NoneOf(m.role, c) && Quiet(m.role) && c !in m.spaces
      modifies m
      ensures m.Valid() && |old(m.role)| == |old(m.mem)|
      ensures ok ==> && tf < |old(m.role)| && old(m.role)[tf].Free?
                     && OnlyMine(old(m.role)[tf := Trap(c)], old(m.mem)[tf := JUNK_ALLOC], m.role, m.mem, c)
                     && c in m.spaces && m.spaces == old(m.spaces)[c := m.spaces[c]] && m.spaces[c].root == root
                        && m.spaces[c].flat == KernelPages(tf) && BareTables(m.spaces[c])
      ensures (ok <==> |old(m.freelist)| >= 4) && (ok ==> |old(m.freelist)| == |m.freelist| + 4)
      ensures !ok ==> m.spaces == old(m.spaces) && Restored(old(m.role), old(m.mem), m.role, m.mem)
    {
      hide World, OnlyMine, Restored, NoneOf, Quiet;
      ghost var mem0, role0 := m.mem, m.role;
      root := 0;
      NothingChanged(role0, mem0);
      ok, tf := AllocTrapframe(c);
      if !ok {
        return;
      }
      ghost var mem1, role1 := m.mem, m.role;
      NoDeadYet(role0, role1, tf, c);
      ok, root := ProcPagetable(m, tf, c);
      if !ok {
        ghost var mem2, role2 := m.mem, m.role;
        TrapStays(role1, mem1, m.role, m.mem, c, tf);
        FreeTrapframe(tf);
        OnlyTrapLeft(m.mem, m.role, m.freelist, m.spaces, c);
        OnlyMineSelf(m.role, m.mem, c);
        ForkUndone(role0, mem0, tf, c, role2, mem2, m.role, m.mem);
      }
    }

    /** The memory side of freeproc: trapframe, user pages and table pages all become free. */
    method Freeproc(root: nat, tf: nat, sz: nat, ghost c: nat) returns (ok: bool)
      requires m.Valid() && c in m.spaces && root == m.spaces[c].root && tf < |m.role| && m.role[tf] == Trap(c)
               && UserSpace(m.spaces[c].flat, sz)
      requires forall f :: 0 <= f < |m.role| ==> !m.role[f].Dead?
      modifies m
      ensures ok && m.Valid() && m.spaces == old(m.spaces) - {c} && tf < |old(m.mem)|
      ensures OnlyMine(old(m.role)[tf := Free], old(m.mem)[tf := JUNK_FREE], m.role, m.mem, c)
    {
      hide World, OnlyMine;
      FreeTrapframe(tf);
      ok := ProcFreepagetable(m, root, sz, c);
    }

    /** The memory side of exit and wait: nothing of process c is left, and nothing else changes. */
    method Exit(c: nat) returns (ok: bool)
      requires Valid() && c in procs
      modifies m, this`procs
      ensures ok && Valid() && procs == old(procs) - {c} && m.spaces == old(m.spaces) - {c} && NoneOf(m.role, c)
      ensures KeptBut(old(m.role), old(m.mem), m.role, m.mem, c)
    {
      hide World, OnlyMine, ProcsOk, UserSpace, NoneOf, Quiet, KeptBut;
      ghost var mem0, role0, spaces0 := m.mem, m.role, m.spaces;
      ProcFacts(m.mem, m.role, m.spaces, procs, c);
      SizesMatch(m.mem, m.role, m.freelist, m.spaces);
      QuietNotDead(role0);
      ok := Freeproc(procs[c].pagetable, procs[c].trapframe, procs[c].sz, c);
      OnlyTrapLeft(m.mem, m.role, m.freelist, m.spaces, c);
      ExitDone(mem0, role0, spaces0, procs, m.mem, m.role, c);
      procs := procs - {c};
    }
  }

  lemma ProcFacts(mem: seq<Frame>, role: seq<Role>, spaces: Spaces, procs: map<nat, Proc>, a: nat)
    requires ProcsOk(mem, role, spaces, procs) && a in procs
    ensures a in spaces && spaces[a].root == procs[a].pagetable && UserSpace(spaces[a].flat, procs[a].sz)
            && procs[a].sz <= TRAPFRAME * PGSIZE
    ensures procs[a].trapframe < |role| && role[procs[a].trapframe] == Trap(a)
    ensures TRAMPOLINE in spaces[a].flat && TRAPFRAME in spaces[a].flat
            && spaces[a].flat[TRAPFRAME].frame == procs[a].trapframe
    ensures Quiet(role) && spaces.Keys == procs.Keys
  {
    assert ProcOk(mem, role, a, spaces[a], procs[a]);
  }

  lemma SameMap(procs: map<nat, Proc>, a: nat)
    requires a in procs
    ensures procs[a := procs[a].(sz := procs[a].sz)] == procs
  {
  }

  lemma UserBelow(flat: map<nat, Page>, sz: nat)
    requires UserSpace(flat, sz)
    ensures forall v :: v in flat && v < TRAPFRAME ==> v < Pages(sz)
  {
  }

  lemma GrownUser(flat: map<nat, Page>, flat': map<nat, Page>, mem: seq<Frame>, sz: nat, sz': nat)
    requires UserSpace(flat, sz) && ZeroPages(flat, flat', mem, Pages(sz), Pages(sz'), Perm(true, false, true))
             && sz <= sz' <= TRAPFRAME * PGSIZE
    ensures UserSpace(flat', sz') && forall v :: v in flat && v >= TRAPFRAME ==> v in flat' && flat'[v] == flat[v]
  {
    PagesBound(sz');
    assert Pages(sz) <= Pages(sz');
    var rest := Without(flat', Pages(sz), Pages(sz'));
    forall v | v in flat' ensures v in rest || Pages(sz) <= v < Pages(sz') { }
    assert rest == flat;
    forall v | v in flat && v >= TRAPFRAME ensures v in flat' && flat'[v] == flat[v] { assert v in rest; }
  }

  lemma ShrunkUser(flat: map<nat, Page>, sz: nat, sz': nat)
    requires UserSpace(flat, sz) && sz' <= sz
    ensures var flat' := Without(flat, Pages(sz'), Pages(sz));
            UserSpace(flat', sz') && forall v :: v in flat && v >= TRAPFRAME ==> v in flat' && flat'[v] == flat[v]
  {
    PagesBound(sz);
  }

  lemma KernelStays(flat: map<nat, Page>, flat': map<nat, Page>, mem': seq<Frame>, mem: seq<Frame>, role: seq<Role>,
                    role': seq<Role>, a: nat, p: Proc)
    requires OnlyMine(role, mem, role', mem', a) && p.trapframe < |role| && role[p.trapframe] == Trap(a)
    ensures p.trapframe < |role'| && role'[p.trapframe] == Trap(a)
  {
  }

  /** Only table pages have come or gone. */
  lemma SameProcess(mem: seq<Frame>, role: seq<Role>, spaces: Spaces, procs: map<nat, Proc>, mem': seq<Frame>,
                    role': seq<Role>, spaces': Spaces, a: nat)
    requires ProcsOk(mem, role, spaces, procs) && a in procs && a in spaces && a in spaces'
             && spaces' == spaces[a := spaces'[a]]
    requires OnlyMine(role, mem, role', mem', a) && spaces'[a].flat == spaces[a].flat
             && spaces'[a].root == spaces[a].root
    ensures ProcsOk(mem', role', spaces', procs)
  {
    hide UserSpace, ProcsOk;
    ProcFacts(mem, role, spaces, procs, a);
    assert procs[a := procs[a]] == procs;
    OneProcess(mem, role, spaces, procs, mem', role', spaces', a, procs[a]);
  }

  lemma LargerUser(flat: map<nat, Page>, sz: nat, sz': nat)
    requires UserSpace(flat, sz) && sz <= sz' <= TRAPFRAME * PGSIZE
    ensures UserSpace(flat, sz')
  {
    assert Pages(sz) <= Pages(sz');
  }

  /** Growing eagerly and growing lazily give a process the same memory: new pages that are there
      and zero cannot be told from pages that are only promised. */
  lemma LazyIsEager(mem: seq<Frame>, flat: map<nat, Page>, mem': seq<Frame>, flat': map<nat, Page>, sz: nat, sz': nat)
    requires UserSpace(flat, sz) && sz <= sz' <= TRAPFRAME * PGSIZE && PagesKept(flat, mem, mem')
    requires ZeroPages(flat, flat', mem', Pages(sz), Pages(sz'), Perm(true, false, true))
    ensures SameView(mem, flat, mem', flat', sz')
  {
    var rest := Without(flat', Pages(sz), Pages(sz'));
    PagesBound(sz');
    forall v: nat ensures if Pages(sz) <= v < Pages(sz') then v in flat' && v !in flat && v * PGSIZE < sz'
                          else (v in flat' <==> v in flat) && (v in flat ==> flat'[v] == flat[v])
    {
      assert v in rest <==> v in flat;
    }
    forall va: nat ensures ByteAt(mem', flat', va) == ByteAt(mem, flat, va) {
    }
  }

  // ---- what fork and exit leave behind ---------------------------------------------------------

  /** Every frame that was in use keeps its use and its contents. */
  ghost predicate OthersKept(role: seq<Role>, mem: seq<Frame>, role': seq<Role>, mem': seq<Frame>) {
    && |role| == |role'| == |mem| == |mem'|
    && forall f {:trigger role'[f]} {:trigger mem'[f]} :: 0 <= f < |role| && !role[f].Free? ==>
         role'[f] == role[f] && mem'[f] == mem[f]
  }

  /** Every frame that was in use, but not by c, keeps its use and its contents. */
  ghost predicate KeptBut(role: seq<Role>, mem: seq<Frame>, role': seq<Role>, mem': seq<Frame>, c: nat) {
    && |role| == |role'| == |mem| == |mem'|
    && forall f {:trigger role'[f]} {:trigger mem'[f]} :: 0 <= f < |role| && !role[f].Free? && !Belongs(role[f], c) ==>
         role'[f] == role[f] && mem'[f] == mem[f]
  }

  lemma NoneOfNew(mem: seq<Frame>, role: seq<Role>, freelist: seq<nat>, spaces: Spaces, procs: map<nat, Proc>, c: nat)
    requires World(mem, role, freelist, spaces) && ProcsOk(mem, role, spaces, procs) && c !in procs
    ensures NoneOf(role, c) && c !in spaces
  {
    hide FreeOk, SpaceOk, UserSpace;
    OnlyTrapLeft(mem, role, freelist, spaces, c);
  }

  lemma NothingChanged(role: seq<Role>, mem: seq<Frame>)
    ensures |role| == |mem| ==> Restored(role, mem, role, mem)
  {
  }

  lemma OnlyMineSelf(role: seq<Role>, mem: seq<Frame>, a: nat)
    ensures |role| == |mem| ==> OnlyMine(role, mem, role, mem, a)
  {
  }

  lemma QuietNotDead(role: seq<Role>)
    requires Quiet(role)
    ensures forall f :: 0 <= f < |role| ==> !role[f].Dead?
  {
  }

  lemma NoDeadYet(role: seq<Role>, role': seq<Role>, tf: nat, c: nat)
    requires Quiet(role) && tf < |role| && role' == role[tf := Trap(c)]
    ensures forall f :: 0 <= f < |role'| ==> !role'[f].Dead?
  {
  }

  lemma NoDeadIn(role0: seq<Role>, mem0: seq<Frame>, tf: nat, c: nat, role: seq<Role>, mem: seq<Frame>)
    requires Quiet(role0) && |mem0| == |role0| && tf < |role0|
             && OnlyMine(role0[tf := Trap(c)], mem0[tf := JUNK_ALLOC], role, mem, c)
    ensures forall f :: 0 <= f < |role| ==> !role[f].Dead?
  {
    NoDeadYet(role0, role0[tf := Trap(c)], tf, c);
    NoDead(role0[tf := Trap(c)], mem0[tf := JUNK_ALLOC], role, mem, c);
  }

  lemma TrapStays(role: seq<Role>, mem: seq<Frame>, role': seq<Role>, mem': seq<Frame>, c: nat, tf: nat)
    requires OnlyMine(role, mem, role', mem', c) && tf < |role| && role[tf] == Trap(c)
    ensures tf < |role'| == |mem'| && role'[tf] == Trap(c)
  {
  }

  lemma ForkKeepsOthers(role0: seq<Role>, mem0: seq<Frame>, tf: nat, c: nat, role: seq<Role>, mem: seq<Frame>)
    requires |mem0| == |role0| && tf < |role0| && role0[tf].Free? && NoneOf(role0, c) && Quiet(role0)
    requires OnlyMine(role0[tf := Trap(c)], mem0[tf := JUNK_ALLOC], role, mem, c)
    ensures OthersKept(role0, mem0, role, mem)
  {
    forall f | 0 <= f < |role0| && !role0[f].Free? ensures role[f] == role0[f] && mem[f] == mem0[f] {
      assert !Belongs(role0[f], c) && !Unsettled(role0[f]);
    }
  }

  /** From a free trapframe frame through any work on the child's space to its removal: no trace. */
  lemma ForkUndone(role0: seq<Role>, mem0: seq<Frame>, tf: nat, c: nat, role: seq<Role>, mem: seq<Frame>,
                   role': seq<Role>, mem': seq<Frame>)
    requires |mem0| == |role0| && tf < |role0| && role0[tf].Free? && NoneOf(role0, c) && Quiet(role0)
    requires OnlyMine(role0[tf := Trap(c)], mem0[tf := JUNK_ALLOC], role, mem, c) && tf < |role| == |mem|
    requires OnlyMine(role[tf := Free], mem[tf := JUNK_FREE], role', mem', c)
    requires forall f :: 0 <= f < |role'| && Belongs(role'[f], c) ==> role'[f] == Trap(c)
    ensures Restored(role0, mem0, role', mem')
  {
    forall f | 0 <= f < |role0| ensures role'[f] == role0[f] && (!role0[f].Free? ==> mem'[f] == mem0[f]) {
      assert !Belongs(role0[f], c) && !Unsettled(role0[f]);
    }
  }

  lemma SpacesBack(spaces: Spaces, sp: Space, c: nat)
    requires c !in spaces
    ensures spaces[c := sp] - {c} == spaces
  {
  }

  lemma SameProcs(mem: seq<Frame>, role: seq<Role>, spaces: Spaces, procs: map<nat, Proc>, mem': seq<Frame>,
                  role': seq<Role>)
    requires ProcsOk(mem, role, spaces, procs) && Restored(role, mem, role', mem')
    ensures ProcsOk(mem', role', spaces, procs)
  {
    hide UserSpace;
    forall a | a in procs ensures a in spaces && ProcOk(mem', role', a, spaces[a], procs[a]) {
      assert ProcOk(mem, role, a, spaces[a], procs[a]);
    }
  }

  lemma EmptyUser(flat: map<nat, Page>, tf: nat)
    requires flat == KernelPages(tf)
    ensures UserSpace(flat, 0)
  {
  }

  /** A child made by uvmcopy sees what its parent sees. */
  lemma CopyLooksSame(mem: seq<Frame>, flat: map<nat, Page>, flat': map<nat, Page>, sz: nat, tf: nat)
    requires UserSpace(flat, sz) && Copied(flat, KernelPages(tf), flat', mem, Pages(sz))
    requires TRAMPOLINE in flat && TRAPFRAME in flat
    ensures SameView(mem, flat, mem, flat', sz) && UserSpace(flat', sz)
    ensures TRAMPOLINE in flat' && TRAPFRAME in flat' && flat'[TRAPFRAME].frame == tf
  {
    PagesBound(sz);
    var high, rest := KernelPages(tf), Without(flat', 0, Pages(sz));
    assert rest == high;
    assert TRAPFRAME in rest && rest[TRAPFRAME] == flat'[TRAPFRAME];
    forall v: nat ensures if v < Pages(sz) then (v in flat' <==> v in flat)
                                                && (v in flat ==> flat'[v].perm == flat[v].perm)
                          else (v in flat' <==> v == TRAMPOLINE || v == TRAPFRAME)
                               && (v in flat' ==> !flat'[v].perm.user)
    {
      assert v >= Pages(sz) ==> (v in flat' <==> v in rest);
    }
  }

  /** A new process beside the others. */
  lemma NewProcess(mem0: seq<Frame>, role0: seq<Role>, spaces0: Spaces, procs: map<nat, Proc>, mem: seq<Frame>,
                   role: seq<Role>, spaces: Spaces, c: nat, p: Proc)
    requires ProcsOk(mem0, role0, spaces0, procs) && c !in procs && c in spaces && spaces == spaces0[c := spaces[c]]
    requires |mem0| == |role0| && p.trapframe < |role0| && role0[p.trapframe].Free?
    requires OnlyMine(role0[p.trapframe := Trap(c)], mem0[p.trapframe := JUNK_ALLOC], role, mem, c)
             && ProcOk(mem, role, c, spaces[c], p)
    ensures ProcsOk(mem, role, spaces, procs[c := p])
  {
    hide UserSpace, ProcOk, OnlyMine, Mine, ProcsOk;
    var procs' := procs[c := p];
    ProcsParts(mem0, role0, spaces0, procs);
    assert spaces.Keys == procs'.Keys;
    forall b | b in procs' ensures b in spaces && ProcOk(mem, role, b, spaces[b], procs'[b]) {
      if b != c {
        assert ProcOk(mem0, role0, b, spaces0[b], procs[b]);
        OtherProcStays(mem0, role0, spaces0[b], procs[b], mem, role, c, p.trapframe, b);
      }
    }
    NewTraps(mem0, role0, procs, mem, role, c, p);
    ProcsWhole(mem, role, spaces, procs');
  }

  lemma ProcsParts(mem: seq<Frame>, role: seq<Role>, spaces: Spaces, procs: map<nat, Proc>)
    requires ProcsOk(mem, role, spaces, procs)
    ensures spaces.Keys == procs.Keys && Quiet(role) && TrapsOwned(role, procs)
    ensures forall a {:trigger procs[a]} {:trigger a in procs} :: a in procs ==>
              a in spaces && ProcOk(mem, role, a, spaces[a], procs[a])
  {
    hide ProcOk, Quiet;
  }

  lemma ProcsWhole(mem: seq<Frame>, role: seq<Role>, spaces: Spaces, procs: map<nat, Proc>)
    requires spaces.Keys == procs.Keys && Quiet(role) && TrapsOwned(role, procs)
    requires forall a {:trigger procs[a]} {:trigger a in procs} :: a in procs ==>
               a in spaces && ProcOk(mem, role, a, spaces[a], procs[a])
    ensures ProcsOk(mem, role, spaces, procs)
  {
    hide ProcOk, Quiet;
  }

  /** A trapframe of another process stays where it was. */
  lemma OtherProcStays(mem0: seq<Frame>, role0: seq<Role>, sp: Space, p: Proc, mem: seq<Frame>, role: seq<Role>,
                       c: nat, tf: nat, b: nat)
    requires ProcOk(mem0, role0, b, sp, p) && b != c && |mem0| == |role0| && tf < |role0| && role0[tf].Free?
    requires OnlyMine(role0[tf := Trap(c)], mem0[tf := JUNK_ALLOC], role, mem, c)
    ensures ProcOk(mem, role, b, sp, p)
  {
    hide UserSpace;
    assert role[p.trapframe] == Trap(b);
  }

  /** The only new trapframe is the new process's, and nothing is left half done. */
  lemma NewTraps(mem0: seq<Frame>, role0: seq<Role>, procs: map<nat, Proc>, mem: seq<Frame>, role: seq<Role>, c: nat,
                 p: Proc)
    requires Quiet(role0) && TrapsOwned(role0, procs) && c !in procs
    requires |mem0| == |role0| && p.trapframe < |role0| && role0[p.trapframe].Free?
    requires OnlyMine(role0[p.trapframe := Trap(c)], mem0[p.trapframe := JUNK_ALLOC], role, mem, c)
    ensures Quiet(role) && TrapsOwned(role, procs[c := p])
  {
  }

  lemma ExitDone(mem0: seq<Frame>, role0: seq<Role>, spaces0: Spaces, procs: map<nat, Proc>, mem: seq<Frame>,
                 role: seq<Role>, c: nat)
    requires ProcsOk(mem0, role0, spaces0, procs) && c in procs && |mem0| == |role0| && procs[c].trapframe < |role0|
    requires OnlyMine(role0[procs[c].trapframe := Free], mem0[procs[c].trapframe := JUNK_FREE], role, mem, c)
    requires forall f :: 0 <= f < |role| && Belongs(role[f], c) ==> role[f] == Trap(c)
    ensures ProcsOk(mem, role, spaces0 - {c}, procs - {c}) && NoneOf(role, c)
    ensures KeptBut(role0, mem0, role, mem, c)
  {
    hide UserSpace, ProcOk, OnlyMine, ProcsOk, KeptBut, NoneOf, Quiet, TrapsOwned;
    var procs', spaces' := procs - {c}, spaces0 - {c};
    ProcsParts(mem0, role0, spaces0, procs);
    assert ProcOk(mem0, role0, c, spaces0[c], procs[c]);
    ExitKept(mem0, role0, spaces0[c], procs, mem, role, c);
    forall b | b in procs' ensures b in spaces' && ProcOk(mem, role, b, spaces'[b], procs'[b]) {
      assert ProcOk(mem0, role0, b, spaces0[b], procs[b]);
      KeptProc(mem0, role0, spaces0[b], procs[b], mem, role, c, b);
    }
    assert spaces'.Keys == procs'.Keys;
    ProcsWhole(mem, role, spaces', procs');
  }

  /** When process c is gone no frame is its own, and every other frame in use is as it was. */
  lemma ExitKept(mem0: seq<Frame>, role0: seq<Role>, sp: Space, procs: map<nat, Proc>, mem: seq<Frame>,
                 role: seq<Role>, c: nat)
    requires Quiet(role0) && TrapsOwned(role0, procs) && c in procs && |mem0| == |role0|
    requires procs[c].trapframe < |role0| && ProcOk(mem0, role0, c, sp, procs[c])
    requires OnlyMine(role0[procs[c].trapframe := Free], mem0[procs[c].trapframe := JUNK_FREE], role, mem, c)
    requires forall f :: 0 <= f < |role| && Belongs(role[f], c) ==> role[f] == Trap(c)
    ensures NoneOf(role, c) && KeptBut(role0, mem0, role, mem, c) && Quiet(role) && TrapsOwned(role, procs - {c})
  {
    hide UserSpace;
    forall f | 0 <= f < |role| ensures !Belongs(role[f], c) {
      assert role0[f] == Trap(c) ==> procs[c].trapframe == f;
    }
    forall f | 0 <= f < |role| && !Belongs(role0[f], c) && !role0[f].Free?
      ensures role[f] == role0[f] && mem[f] == mem0[f]
    {
      assert !Unsettled(role0[f]);
    }
  }

  lemma KeptProc(mem0: seq<Frame>, role0: seq<Role>, sp: Space, p: Proc, mem: seq<Frame>, role: seq<Role>, c: nat,
                 b: nat)
    requires ProcOk(mem0, role0, b, sp, p) && b != c && KeptBut(role0, mem0, role, mem, c)
    ensures ProcOk(mem, role, b, sp, p)
  {
    hide UserSpace;
    assert role[p.trapframe] == Trap(b);
  }

  lemma QuietProcs(mem: seq<Frame>, role: seq<Role>, spaces: Spaces, procs: map<nat, Proc>)
    requires ProcsOk(mem, role, spaces, procs)
    ensures Quiet(role) && spaces.Keys == procs.Keys
  {
  }

  lemma UsedIsNotFree(role: seq<Role>, freelist: seq<nat>, f: nat)
    requires FreeOk(role, freelist) && f < |role| && !role[f].Free?
    ensures f !in freelist
  {
  }
}
