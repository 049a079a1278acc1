/** Frame allocation and user address spaces: the page tables agree with a flat map at every step. */
module VirtualMemory {
  import opened Blocks
  import opened PageTables

  /** What kalloc and kfree fill a frame with. */
  const JUNK_ALLOC := Bytes(seq(PGSIZE, _ => 5))
  const JUNK_FREE := Bytes(seq(PGSIZE, _ => 1))

  /** A frame that space a may use or give up; trapframes stay out of it. */
  predicate Mine(r: Role, a: nat) {
    r.Free? || r.Loose? || r.Dead? || (Belongs(r, a) && !r.Trap?)
  }

  /** Nothing but frames of space a, or free ones, has changed, and none is left waiting that was not before. */
  ghost predicate OnlyMine(role: seq<Role>, mem: seq<Frame>, role': seq<Role>, mem': seq<Frame>, a: nat) {
    && |role| == |role'| == |mem| == |mem'|
    && forall f {:trigger role'[f]} {:trigger mem'[f]} :: 0 <= f < |role| ==>
         || (role'[f] == role[f] && mem'[f] == mem[f])
         || (Mine(role[f], a) && Mine(role'[f], a) && (Unsettled(role'[f]) ==> role'[f] == role[f]))
  }

  lemma OnlyMineTwice(role: seq<Role>, mem: seq<Frame>, role': seq<Role>, mem': seq<Frame>, role'': seq<Role>,
                      mem'': seq<Frame>, a: nat)
    requires OnlyMine(role, mem, role', mem', a) && OnlyMine(role', mem', role'', mem'', a)
    ensures OnlyMine(role, mem, role'', mem'', a)
  {
  }

  /** Frames from kalloc that wait to be used do not come or go. */
  ghost predicate LooseKept(role: seq<Role>, mem: seq<Frame>, role': seq<Role>, mem': seq<Frame>) {
    && |role| == |role'| == |mem| == |mem'|
    && forall f {:trigger role'[f]} {:trigger mem'[f]} :: 0 <= f < |role|
                                                          && (role[f].Loose? || role[f].Trap? || role'[f].Trap?
                                                              || Unsettled(role'[f])) ==>
                                                                   role'[f] == role[f] && mem'[f] == mem[f]
  }

  predicate Unsettled(r: Role) {
    r.Loose? || r.Dead?
  }

  /** The pages of a flat map keep their bytes. */
  ghost predicate PagesKept(flat: map<nat, Page>, mem: seq<Frame>, mem': seq<Frame>) {
    |mem'| == |mem| && forall v {:trigger flat[v]} :: v in flat && v < TRAPFRAME && flat[v].frame < |mem| ==>
        mem'[flat[v].frame] == mem[flat[v].frame]
  }

  /** The same address space with, perhaps, more table pages. */
  ghost predicate Grown(sp: Space, sp': Space) {
    && sp'.root == sp.root && sp'.flat == sp.flat
    && (forall i :: i in sp.mid ==> i in sp'.mid && sp'.mid[i] == sp.mid[i])
    && (forall k :: k in sp.low ==> k in sp'.low && sp'.low[k] == sp.low[k])
  }

  /** The tables of sp are those of sp0 and the two on the way to page v. */
  ghost predicate TablesFor(sp0: Space, sp: Space, v: nat) {
    sp.mid.Keys == sp0.mid.Keys + {v / 512 / 512} && sp.low.Keys == sp0.low.Keys + {v / 512}
  }

  /** No more tables than those. */
  ghost predicate AtMostFor(sp0: Space, sp: Space, v: nat) {
    sp.mid.Keys <= sp0.mid.Keys + {v / 512 / 512} && sp.low.Keys <= sp0.low.Keys + {v / 512}
  }

  ghost function Lows(pages: set<nat>): (r: set<nat>) {
    set v | v in pages :: v / 512
  }

  ghost function Mids(pages: set<nat>): (r: set<nat>) {
    set v | v in pages :: v / 512 / 512
  }

  /** The frames that it takes to map these pages: one for each, and one for each table they need and `sp` lacks. */
  ghost function FramesFor(pages: set<nat>, sp: Space): (n: nat) {
    |pages| + |Lows(pages) - sp.low.Keys| + |Mids(pages) - sp.mid.Keys|
  }

  lemma OneLess(all: set<nat>, rest: set<nat>, have: set<nat>, have': set<nat>, x: nat)
    requires all == rest + {x} && have' == have + {x}
    ensures |all - have| == |rest - have'| + if x in have then 0 else 1
  {
    if x in have {
      assert all - have == rest - have';
    } else {
      assert all - have == (rest - have') + {x};
    }
  }

  /** Mapping one page of them, with its tables, leaves the cost of the others. */
  lemma OnePageLess(pages: set<nat>, sp: Space, sp': Space, v: nat)
    requires v in pages && TablesFor(sp, sp', v)
    ensures FramesFor(pages, sp) == 1 + Memory.Missing(sp, v) + FramesFor(pages - {v}, sp')
  {
    var rest := pages - {v};
    assert pages == rest + {v};
    assert Lows(pages) == Lows(rest) + {v / 512};
    assert Mids(pages) == Mids(rest) + {v / 512 / 512};
    OneLess(Lows(pages), Lows(rest), sp.low.Keys, sp'.low.Keys, v / 512);
    OneLess(Mids(pages), Mids(rest), sp.mid.Keys, sp'.mid.Keys, v / 512 / 512);
  }

  lemma OnePageAtLeast(pages: set<nat>, sp: Space, v: nat)
    requires v in pages
    ensures FramesFor(pages, sp) > Memory.Missing(sp, v)
  {
    var low := map k | k in sp.low.Keys + {v / 512} :: 0;
    var mid := map k | k in sp.mid.Keys + {v / 512 / 512} :: 0;
    OnePageLess(pages, sp, Space(0, mid, low, map[]), v);
  }

  /** Page numbers lo to hi. */
  ghost function Range(lo: nat, hi: nat): (r: set<nat>)
    ensures forall v: nat :: v in r <==> lo <= v < hi
    decreases if lo < hi then hi - lo else 0
  {
    if lo < hi then Range(lo + 1, hi) + {lo} else {}
  }

  lemma ExactlyFor(sp0: Space, sp: Space, v: nat)
    requires Grown(sp0, sp) && AtMostFor(sp0, sp, v) && Memory.Missing(sp, v) == 0
    ensures TablesFor(sp0, sp, v)
  {
  }

  class Memory {
    var mem: seq<Frame>
    var freelist: seq<nat>
    ghost var role: seq<Role>
    ghost var spaces: Spaces

    ghost predicate Valid()
      reads this`mem, this`freelist, this`role, this`spaces
    {
      World(mem, role, freelist, spaces)
    }

    /** kinit and freerange: every frame is free. */
    constructor (n: nat)
      ensures Valid() && |mem| == n && spaces == map[] && |freelist| == n && forall f :: 0 <= f < n ==> role[f].Free?
    {
      mem := seq(n, _ => JUNK_FREE);
      role := seq(n, _ => Free);
      spaces := map[];
      var list: seq<nat> := [];
      var f: nat := 0;
      while f < n
        invariant 0 <= f <= n && |list| == f && (forall g :: g in list <==> 0 <= g < f)
        invariant forall i :: 0 <= i < |list| ==> list[i] == f - 1 - i
      {
        list := [f] + list;
        f := f + 1;
      }
      freelist := list;
    }

    /** kalloc: pop the free list; fails exactly when it is empty. */
    method Kalloc() returns (ok: bool, f: nat)
      requires Valid()
      modifies this`mem, this`freelist, this`role
      ensures Valid() && (ok <==> old(freelist) != [])
      ensures !ok ==> mem == old(mem) && freelist == old(freelist) && role == old(role)
      ensures ok ==> && f == old(freelist)[0] && freelist == old(freelist)[1..] && f < |old(mem)| == |old(role)|
                     && old(role)[f].Free?
                     && role == old(role)[f := Loose] && mem == old(mem)[f := JUNK_ALLOC]
    {
      hide RoleOk, SpaceOk;
      ok, f := freelist != [], 0;
      if ok {
        TakeFrame(mem, role, freelist, spaces, JUNK_ALLOC);
        f := freelist[0];
        freelist := freelist[1..];
        mem := mem[f := JUNK_ALLOC];
        role := role[f := Loose];
      }
    }

    /** kfree: push a frame nothing uses. */
    method Kfree(f: nat)
      requires Valid() && f < |role| && (role[f].Loose? || role[f].Dead?)
      modifies this`mem, this`freelist, this`role
      ensures Valid() && freelist == [f] + old(freelist) && f < |old(mem)| && role == old(role)[f := Free]
              && mem == old(mem)[f := JUNK_FREE]
    {
      hide RoleOk, SpaceOk, FreeOk;
      GiveFrame(mem, role, freelist, spaces, f, JUNK_FREE);
      freelist := [f] + freelist;
      mem := mem[f := JUNK_FREE];
      role := role[f := Free];
    }

    // ---- walk -----------------------------------------------------------------------------

    /** Where walk is with `level` levels still to go. */
    ghost predicate At(a: nat, v: nat, level: nat, t: nat)
      reads this`spaces
    {
      && a in spaces && v < MAXPN
      && (level == 2 ==> t == spaces[a].root)
      && (level == 1 ==> v / 512 / 512 in spaces[a].mid && t == spaces[a].mid[v / 512 / 512])
      && (level == 0 ==> v / 512 in spaces[a].low && t == spaces[a].low[v / 512])
    }

    /** The index of page v in a table of the given level. */
    function Px(level: nat, v: nat): (i: nat)
      ensures i < ENTRIES
    {
      if level == 2 then v / 512 / 512 % 512 else if level == 1 then v / 512 % 512 else v % 512
    }

    lemma EntryAt(a: nat, v: nat, level: nat, t: nat)
      requires Valid() && At(a, v, level, t) && level <= 2
      ensures IsTable(mem, t)
      ensures level == 2 ==> v / 512 / 512 < ENTRIES && mem[t].e[Px(2, v)] == PtrTo(spaces[a].mid, v / 512 / 512)
      ensures level == 1 ==> mem[t].e[Px(1, v)] == PtrTo(spaces[a].low, v / 512)
      ensures level == 0 ==> mem[t].e[Px(0, v)] == LeafAt(spaces[a].flat, v)
    {
      hide World, SpaceOk;
      WorldParts(mem, role, freelist, spaces, a);
      if level == 2 {
        RootEntry(mem, role, a, spaces[a], v);
      } else if level == 1 {
        MidEntry(mem, role, a, spaces[a], v);
      } else {
        LowEntry(mem, role, a, spaces[a], v);
      }
    }

    /** How many tables page v lacks on the way from the root. */
    static ghost function Missing(sp: Space, v: nat): (n: nat)
      ensures n <= 2
    {
      (if v / 512 / 512 in sp.mid then 0 else 1) + if v / 512 in sp.low then 0 else 1
    }

    /** One turn of walk's loop: follow the entry, or make the table it lacks. */
    method Descend(t: nat, level: nat, v: nat, alloc: bool, ghost a: nat) returns (ok: bool, next: nat)
      requires Valid() && 1 <= level <= 2 && At(a, v, level, t)
      modifies this`mem, this`freelist, this`role, this`spaces
      ensures Valid() && a in spaces && a in old(spaces) && spaces == old(spaces)[a := spaces[a]]
              && Grown(old(spaces)[a], spaces[a])
      ensures ok ==> At(a, v, level - 1, next)
      ensures OnlyMine(old(role), old(mem), role, mem, a) && PagesKept(old(spaces)[a].flat, old(mem), mem)
      ensures !alloc || !ok ==> mem == old(mem) && freelist == old(freelist) && role == old(role)
                                && spaces == old(spaces)
      ensures |old(freelist)| + Missing(spaces[a], v) == |freelist| + Missing(old(spaces)[a], v)
      ensures AtMostFor(old(spaces)[a], spaces[a], v)
      ensures !ok ==> (if level == 2 then v / 512 / 512 !in spaces[a].mid else v / 512 !in spaces[a].low)
      ensures !ok && alloc ==> freelist == []
      ensures LooseKept(old(role), old(mem), role, mem)
    {
      hide World, OnlyMine, PagesKept, Grown, LooseKept;
      ok, next := true, 0;
      EntryAt(a, v, level, t);
      NoChange(a);
      if mem[t].e[Px(level, v)].Ptr? {
        next := mem[t].e[Px(level, v)].frame;
      } else if !alloc {
        ok := false;
      } else {
        ok, next := Kalloc();
        if ok {
          Install(t, level, v, next, a, old(role), old(mem));
        }
      }
    }

    lemma NoChange(a: nat)
      requires Valid() && a in spaces
      ensures OnlyMine(role, mem, role, mem, a) && PagesKept(spaces[a].flat, mem, mem) && Grown(spaces[a], spaces[a])
              && LooseKept(role, mem, role, mem)
    {
    }

    /** The new table is zeroed and linked in. */
    method Install(t: nat, level: nat, v: nat, f: nat, ghost a: nat, ghost role0: seq<Role>, ghost mem0: seq<Frame>)
      requires Valid() && 1 <= level <= 2 && At(a, v, level, t) && f < |role| && role[f].Loose?
      requires level == 2 ==> v / 512 / 512 < ENTRIES && v / 512 / 512 !in spaces[a].mid
      requires level == 1 ==> v / 512 !in spaces[a].low
      requires |role0| == |mem0| && f < |role0| && role0[f].Free? && role == role0[f := Loose]
               && mem == mem0[f := JUNK_ALLOC]
      modifies this`mem, this`role, this`spaces
      ensures Valid() && a in spaces && spaces == old(spaces)[a := spaces[a]] && Grown(old(spaces)[a], spaces[a])
              && At(a, v, level - 1, f)
      ensures OnlyMine(role0, mem0, role, mem, a) && PagesKept(old(spaces)[a].flat, mem0, mem)
      ensures LooseKept(role0, mem0, role, mem)
      ensures Missing(spaces[a], v) + 1 == Missing(old(spaces)[a], v) && AtMostFor(old(spaces)[a], spaces[a], v)
    {
      hide World;
      ghost var sp := spaces[a];
      InstallFacts(a, level, v, t);
      if level == 2 {
        WorldAddMid(mem, role, freelist, spaces, a, v / 512 / 512, f);
        role := role[f := Mid(a, v / 512 / 512)];
        spaces := spaces[a := sp.(mid := sp.mid[v / 512 / 512 := f])];
      } else {
        WorldAddLow(mem, role, freelist, spaces, a, v / 512, f);
        role := role[f := Low(a, v / 512)];
        spaces := spaces[a := sp.(low := sp.low[v / 512 := f])];
      }
      mem := mem[f := ZERO_TABLE];
      mem := SetEntry(mem, t, Px(level, v), Ptr(f));
    }

    lemma InstallFacts(a: nat, level: nat, v: nat, t: nat)
      requires Valid() && 1 <= level <= 2 && At(a, v, level, t)
      ensures |role| == |mem| && IsTable(mem, t) && role[t] == if level == 2 then Root(a) else Mid(a, v / 512 / 512)
      ensures level == 2 && v / 512 / 512 < ENTRIES ==> Px(2, v) == v / 512 / 512
      ensures forall u :: u in spaces[a].flat && u < TRAPFRAME ==>
                spaces[a].flat[u].frame < |role| && role[spaces[a].flat[u].frame] == User(a, u)
    {
      hide FreeOk, RoleOk, SpaceOk;
      RowFacts(mem, role, a, spaces[a]);
    }

    /** walk: the third-level table for page v, made with the tables above it if `alloc`. Entry
        v % 512 of it is the page's. Without `alloc` nothing changes and 0 means no such table;
        with it, walk fails exactly when there are fewer free frames than missing tables. */
    method Walk(root: nat, v: nat, alloc: bool, ghost a: nat) returns (ok: bool, t: nat)
      requires Valid() && a in spaces && root == spaces[a].root && v < MAXPN
      modifies this`mem, this`freelist, this`role, this`spaces
      ensures Valid() && a in spaces && a in old(spaces) && spaces == old(spaces)[a := spaces[a]]
              && Grown(old(spaces)[a], spaces[a])
      ensures ok ==> At(a, v, 0, t)
      ensures OnlyMine(old(role), old(mem), role, mem, a) && PagesKept(old(spaces)[a].flat, old(mem), mem)
      ensures !alloc ==> mem == old(mem) && freelist == old(freelist) && role == old(role) && spaces == old(spaces)
      ensures !alloc && !ok ==> v / 512 !in spaces[a].low
      ensures alloc ==> (ok <==> |old(freelist)| >= Missing(old(spaces)[a], v))
      ensures ok ==> |old(freelist)| == |freelist| + Missing(old(spaces)[a], v)
                     && TablesFor(old(spaces)[a], spaces[a], v)
      ensures !ok && alloc ==> freelist == []
      ensures LooseKept(old(role), old(mem), role, mem)
    {
      hide World, OnlyMine, PagesKept, Grown, LooseKept;
      NoChange(a);
      ok, t := true, root;
      var level := 2;
      while level > 0 && ok
        invariant Valid() && 0 <= level <= 2 && a in spaces && spaces == old(spaces)[a := spaces[a]]
                  && Grown(old(spaces)[a], spaces[a])
        invariant ok ==> At(a, v, level, t)
        invariant OnlyMine(old(role), old(mem), role, mem, a) && PagesKept(old(spaces)[a].flat, old(mem), mem)
        invariant !alloc ==> mem == old(mem) && freelist == old(freelist) && role == old(role) && spaces == old(spaces)
        invariant !alloc && !ok ==> v / 512 !in spaces[a].low
        invariant |old(freelist)| + Missing(spaces[a], v) == |freelist| + Missing(old(spaces)[a], v)
        invariant AtMostFor(old(spaces)[a], spaces[a], v)
        invariant !ok && alloc ==> freelist == [] && Missing(spaces[a], v) > 0
        invariant LooseKept(old(role), old(mem), role, mem)
        decreases level, ok
      {
        ghost var role0, mem0, sp0 := role, mem, spaces[a];
        ok, t := Descend(t, level, v, alloc, a);
        Chained(old(role), old(mem), role0, mem0, role, mem, a, old(spaces)[a], sp0, spaces[a]);
        if !ok && level == 2 { NoMidNoLow(a, v); }
        if ok {
          level := level - 1;
        }
      }
      if ok {
        LowHasMid(a, v);
        ExactlyFor(old(spaces)[a], spaces[a], v);
      }
    }

    lemma LowHasMid(a: nat, v: nat)
      requires Valid() && a in spaces && v / 512 in spaces[a].low
      ensures Missing(spaces[a], v) == 0
    {
      hide World;
      if v / 512 / 512 !in spaces[a].mid { NoMidNoLow(a, v); }
    }

    /** mappages of one page. The page is not mapped yet, so the "remap" panic is not reached.
        It fails exactly when memory runs out for a table page. */
    method MapPage(root: nat, v: nat, page: Page, ghost a: nat) returns (ok: bool)
      requires Valid() && a in spaces && root == spaces[a].root && Mappable(mem, role, a, spaces[a], v, page)
      modifies this`mem, this`freelist, this`role, this`spaces
      ensures Valid() && a in spaces && a in old(spaces) && spaces == old(spaces)[a := spaces[a]]
              && spaces[a].root == root
      ensures OnlyMine(old(role), old(mem), role, mem, a) && PagesKept(old(spaces)[a].flat, old(mem), mem)
      ensures ok ==> spaces[a].flat == old(spaces)[a].flat[v := page]
                     && MappedAt(old(role), old(mem), role, mem, a, v, page)
      ensures !ok ==> spaces[a].flat == old(spaces)[a].flat && freelist == []
                      && LooseKept(old(role), old(mem), role, mem)
      ensures ok <==> |old(freelist)| >= Missing(old(spaces)[a], v)
      ensures ok ==> |old(freelist)| == |freelist| + Missing(old(spaces)[a], v)
                     && TablesFor(old(spaces)[a], spaces[a], v)
    {
      hide World, OnlyMine, PagesKept, LooseKept, Mappable, MappedAt;
      ghost var sp0 := spaces[a];
      PageNumber(a, v, page);
      var t;
      ok, t := Walk(root, v, true, a);
      GrownFlat(sp0, spaces[a]);
      if ok {
        EntryAt(a, v, 0, t);
        StillMappable(old(mem), old(role), mem, role, a, sp0, spaces[a], v, page);
        assert mem[t].e[v % 512] == Zero;
        SetLeaf(t, v, page, a, old(role), old(mem), sp0);
      }
    }

    lemma PageNumber(a: nat, v: nat, page: Page)
      requires a in spaces && Mappable(mem, role, a, spaces[a], v, page)
      ensures v < MAXPN && v !in spaces[a].flat
    {
    }

    /** Write the third-level entry. */
    method SetLeaf(t: nat, v: nat, page: Page, ghost a: nat, ghost role0: seq<Role>, ghost mem0: seq<Frame>,
                   ghost sp0: Space)
      requires Valid() && At(a, v, 0, t) && Mappable(mem, role, a, spaces[a], v, page) && IsTable(mem, t)
      requires OnlyMine(role0, mem0, role, mem, a) && PagesKept(sp0.flat, mem0, mem)
               && LooseKept(role0, mem0, role, mem) && sp0.flat == spaces[a].flat
      modifies this`mem, this`role, this`spaces
      ensures Valid() && a in spaces && spaces == old(spaces)[a := spaces[a]]
              && spaces[a] == old(spaces)[a].(flat := sp0.flat[v := page])
      ensures OnlyMine(role0, mem0, role, mem, a) && PagesKept(sp0.flat, mem0, mem)
      ensures MappedAt(role0, mem0, role, mem, a, v, page)
    {
      hide World, SpaceOk, Rerole, OnlyMine, PagesKept, LooseKept, MappedAt, Mappable, IsTable;
      WorldParts(mem, role, freelist, spaces, a);
      SetLeafFrames(role0, mem0, mem, role, a, sp0, spaces[a], v, page);
      WorldChangeLeaf(mem, role, freelist, spaces, a, v, Set(page));
      role := Rerole(role, a, spaces[a], v, Set(page));
      mem := SetEntry(mem, t, v % 512, Leaf(page.frame, page.perm));
      spaces := spaces[a := spaces[a].(flat := spaces[a].flat[v := page])];
    }

    /** Clear the entry of a mapped page and, if asked, free its frame. */
    method UnmapPage(t: nat, v: nat, doFree: bool, ghost a: nat)
      requires Valid() && At(a, v, 0, t) && v in spaces[a].flat && (doFree <==> v < TRAPFRAME)
      modifies this`mem, this`freelist, this`role, this`spaces
      ensures Valid() && a in spaces && a in old(spaces) && spaces == old(spaces)[a := spaces[a]]
      ensures spaces[a] == old(spaces)[a].(flat := old(spaces)[a].flat - {v})
      ensures OnlyMine(old(role), old(mem), role, mem, a) && PagesKept(spaces[a].flat, old(mem), mem)
    {
      hide World, SpaceOk, Rerole, OnlyMine, PagesKept, LeafAt, FreeOk;
      EntryAt(a, v, 0, t);
      WorldParts(mem, role, freelist, spaces, a);
      UnmapFrames(mem, role, a, spaces[a], v);
      WorldChangeLeaf(mem, role, freelist, spaces, a, v, Unset);
      var f := LeafFrame(mem[t].e[v % 512]);
      LeafFrameIs(spaces[a].flat, v);
      role := Rerole(role, a, spaces[a], v, Unset);
      mem := SetEntry(mem, t, v % 512, Zero);
      spaces := spaces[a := spaces[a].(flat := spaces[a].flat - {v})];
      if doFree {
        Kfree(f);
      }
    }

    /** uvmunmap: pages [v0, v0 + n) are unmapped, whichever of them were mapped, and nothing else changes. */
    method Uvmunmap(root: nat, v0: nat, n: nat, doFree: bool, ghost a: nat)
      requires Valid() && a in spaces && root == spaces[a].root && v0 + n <= MAXPN
      requires if doFree then v0 + n <= TRAPFRAME else v0 >= TRAPFRAME
      modifies this`mem, this`freelist, this`role, this`spaces
      ensures Valid() && a in spaces && a in old(spaces) && spaces == old(spaces)[a := spaces[a]]
      ensures spaces[a] == old(spaces)[a].(flat := Without(old(spaces)[a].flat, v0, v0 + n))
      ensures OnlyMine(old(role), old(mem), role, mem, a) && PagesKept(spaces[a].flat, old(mem), mem)
    {
      hide World, OnlyMine, PagesKept, Without;
      ghost var sp0 := spaces[a];
      NoChange(a);
      WithoutNone(sp0.flat, v0);
      var v := v0;
      while v < v0 + n
        invariant Valid() && v0 <= v <= v0 + n && a in spaces && spaces == old(spaces)[a := spaces[a]]
        invariant spaces[a] == sp0.(flat := Without(sp0.flat, v0, v))
        invariant OnlyMine(old(role), old(mem), role, mem, a) && PagesKept(spaces[a].flat, old(mem), mem)
      {
        ghost var role0, mem0 := role, mem;
        WithoutNext(sp0.flat, v0, v);
        var found, t := Walk(root, v, false, a);
        if found {
          EntryAt(a, v, 0, t);
          if mem[t].e[v % 512] != Zero {
            UnmapPage(t, v, doFree, a);
            ChainedDown(old(role), old(mem), role0, mem0, role, mem, a, Without(sp0.flat, v0, v),
                        Without(sp0.flat, v0, v + 1));
          }
        } else {
          NoLowNoPage(a, v);
        }
        v := v + 1;
      }
    }

    lemma NoLowNoPage(a: nat, v: nat)
      requires Valid() && a in spaces && v / 512 !in spaces[a].low
      ensures v !in spaces[a].flat
    {
      hide FreeOk, RoleOk, SpaceOk;
      RowFacts(mem, role, a, spaces[a]);
    }

    // ---- growing and shrinking -------------------------------------------------------------

    /** uvmdealloc, in bytes. */
    method Uvmdealloc(root: nat, oldsz: nat, newsz: nat, ghost a: nat) returns (sz: nat)
      requires Valid() && a in spaces && root == spaces[a].root && oldsz <= TRAPFRAME * PGSIZE
      modifies this`mem, this`freelist, this`role, this`spaces
      ensures Valid() && a in spaces && a in old(spaces) && spaces == old(spaces)[a := spaces[a]]
      ensures sz == if newsz < oldsz then newsz else oldsz
      ensures spaces[a] == old(spaces)[a].(flat := Without(old(spaces)[a].flat, Pages(sz), Pages(oldsz)))
      ensures OnlyMine(old(role), old(mem), role, mem, a) && PagesKept(spaces[a].flat, old(mem), mem)
    {
      hide World, OnlyMine, PagesKept, Without;
      NoChange(a);
      WithoutNone(spaces[a].flat, Pages(oldsz));
      if newsz >= oldsz {
        return oldsz;
      }
      if Pages(newsz) < Pages(oldsz) {
        Uvmunmap(root, Pages(newsz), Pages(oldsz) - Pages(newsz), true, a);
      }
      sz := newsz;
    }

    /** A frame from kalloc, filled, mapped at v; given back if there is no memory for the tables. It
        fails exactly when there is not a frame for the page and one for each missing table. */
    method FreshPage(root: nat, v: nat, perm: Perm, content: seq<Byte>, ghost a: nat) returns (ok: bool, f: nat)
      requires Valid() && |content| == PGSIZE && a in spaces && root == spaces[a].root && v < TRAPFRAME
               && v !in spaces[a].flat
      modifies this`mem, this`freelist, this`role, this`spaces
      ensures Valid() && a in spaces && a in old(spaces) && spaces == old(spaces)[a := spaces[a]]
              && spaces[a].root == root
      ensures OnlyMine(old(role), old(mem), role, mem, a) && PagesKept(old(spaces)[a].flat, old(mem), mem)
      ensures ok ==> spaces[a].flat == old(spaces)[a].flat[v := Page(f, perm)] && f < |mem| && mem[f] == Bytes(content)
      ensures !ok ==> spaces[a].flat == old(spaces)[a].flat && |freelist| <= 1
      ensures ok <==> |old(freelist)| > Missing(old(spaces)[a], v)
      ensures ok ==> |old(freelist)| == |freelist| + 1 + Missing(old(spaces)[a], v)
                     && TablesFor(old(spaces)[a], spaces[a], v)
    {
      hide World, OnlyMine, PagesKept, LooseKept, Mappable, MappedAt, SpaceOk, TablesFor;
      NoChange(a);
      WorldParts(mem, role, freelist, spaces, a);
      ok, f := Kalloc();
      if ok {
        ghost var role1 := role;
        FillFrame(f, content);
        LooseMappable(a, v, Page(f, perm), old(role), old(mem));
        ghost var mem1 := mem;
        ok := MapPage(root, v, Page(f, perm), a);
        FreshFrames(old(role), old(mem), role1, mem1, role, mem, a, f, v, perm, content, old(spaces)[a], ok);
        if !ok {
          Kfree(f);
        }
      }
    }

    /** memset or memmove of a whole frame that is not yet in use. */
    method FillFrame(f: nat, content: seq<Byte>)
      requires Valid() && f < |role| && role[f].Loose?
      modifies this`mem
      ensures Valid() && f < |old(mem)| && mem == old(mem)[f := Bytes(content)]
    {
      hide FreeOk, RoleOk;
      mem := mem[f := Bytes(content)];
      forall b | b in spaces ensures SpaceOk(mem, role, b, spaces[b]) {
        assert SpaceOk(old(mem), role, b, spaces[b]);
        SpaceKept(old(mem), role, mem, role, b, spaces[b]);
      }
    }

    lemma LooseMappable(a: nat, v: nat, page: Page, role0: seq<Role>, mem0: seq<Frame>)
      requires Valid() && a in spaces && v < TRAPFRAME && v !in spaces[a].flat && page.frame < |role|
               && role[page.frame].Loose?
      requires IsPage(mem, page.frame)
      ensures Mappable(mem, role, a, spaces[a], v, page)
    {
    }

    /** uvmalloc: zeroed pages from PGROUNDUP(oldsz) up to newsz. When memory runs out the mapped
        pages are as before and the result is 0; only table pages may have been added. */
    method Uvmalloc(root: nat, oldsz: nat, newsz: nat, exec: bool, write: bool, ghost a: nat) returns (sz: nat)
      requires Valid() && a in spaces && root == spaces[a].root && newsz <= TRAPFRAME * PGSIZE
      requires oldsz <= newsz ==> forall v :: v in spaces[a].flat && v < TRAPFRAME ==> v < Pages(oldsz)
      modifies this`mem, this`freelist, this`role, this`spaces
      ensures Valid() && a in spaces && a in old(spaces) && spaces == old(spaces)[a := spaces[a]]
              && spaces[a].root == root
      ensures OnlyMine(old(role), old(mem), role, mem, a) && PagesKept(old(spaces)[a].flat, old(mem), mem)
      ensures newsz < oldsz ==> sz == oldsz && spaces[a].flat == old(spaces)[a].flat
      ensures newsz >= oldsz ==> sz == newsz || sz == 0
      ensures newsz >= oldsz && sz == newsz ==>
                ZeroPages(old(spaces)[a].flat, spaces[a].flat, mem, Pages(oldsz), Pages(newsz), Perm(write, exec, true))
      ensures newsz >= oldsz && sz != newsz ==> spaces[a].flat == old(spaces)[a].flat
      ensures newsz > oldsz ==>
                (sz == newsz <==> |old(freelist)| >= FramesFor(Range(Pages(oldsz), Pages(newsz)), old(spaces)[a]))
    {
      hide World, OnlyMine, PagesKept, ZeroPages, TablesFor, FramesFor, Range, Missing;
      ghost var flat0, last := spaces[a].flat, Pages(newsz);
      ghost var cost := FramesFor(Range(Pages(oldsz), last), spaces[a]);
      NoChange(a);
      if newsz < oldsz {
        return oldsz;
      }
      var first := Pages(oldsz);
      NoZeroPages(flat0, mem, first, Perm(write, exec, true));
      var v := first;
      while v * PGSIZE < newsz
        invariant Valid() && first <= v && (v == first || v <= Pages(newsz)) && a in spaces
                  && spaces == old(spaces)[a := spaces[a]] && spaces[a].root == root
        invariant OnlyMine(old(role), old(mem), role, mem, a) && PagesKept(flat0, old(mem), mem)
        invariant ZeroPages(flat0, spaces[a].flat, mem, first, v, Perm(write, exec, true))
        invariant |old(freelist)| + FramesFor(Range(v, last), spaces[a]) == |freelist| + cost
      {
        PagesReached(v, newsz);
        OnePageAtLeast(Range(v, last), spaces[a], v);
        ghost var sp1 := spaces[a];
        ghost var role1, mem1, flat1 := role, mem, spaces[a].flat;
        NotYetMapped(flat0, flat1, mem, first, v, Perm(write, exec, true));
        var ok, f := FreshPage(root, v, Perm(write, exec, true), ZERO_PAGE.b, a);
        OneMoreZero(old(role), old(mem), role1, mem1, role, mem, a, flat0, flat1, spaces[a].flat, first, v,
                    Page(f, Perm(write, exec, true)), ok);
        if !ok {
          ghost var role2, mem2 := role, mem;
          WholePages(v);
          WholePages(first);
          var cut := Uvmdealloc(root, v * PGSIZE, first * PGSIZE, a);
          Undone(flat0, flat1, mem2, first, v, Perm(write, exec, true));
          ChainedDown(old(role), old(mem), role2, mem2, role, mem, a, flat0, flat0);
          return 0;
        }
        OnePageLess(Range(v, last), sp1, spaces[a], v);
        assert Range(v, last) - {v} == Range(v + 1, last);
        v := v + 1;
      }
      NothingNeeded(v, newsz, spaces[a]);
      sz := newsz;
    }

    lemma NothingNeeded(v: nat, sz: nat, sp: Space)
      requires v * PGSIZE >= sz
      ensures FramesFor(Range(v, Pages(sz)), sp) == 0
    {
      assert v >= Pages(sz);
      assert Range(v, Pages(sz)) == {};
    }

    lemma PagesReached(v: nat, sz: nat)
      requires v * PGSIZE < sz
      ensures v < Pages(sz)
    {
    }

    // ---- user memory as bytes ------------------------------------------------------------------

    /** memmove into a mapped page. */
    method Poke(f: nat, v: nat, off: nat, src: seq<Byte>, ghost a: nat)
      requires Valid() && a in spaces && v in spaces[a].flat && v < TRAPFRAME && f == spaces[a].flat[v].frame
               && off + |src| <= PGSIZE
      modifies this`mem
      ensures Valid() && f < |role| == |old(mem)| && role[f] == User(a, v) && IsPage(old(mem), f)
      ensures mem == old(mem)[f := Bytes(old(mem)[f].b[..off] + src + old(mem)[f].b[off + |src|..])]
    {
      hide World, SpaceOk, FreeOk, RoleOk;
      WorldParts(mem, role, freelist, spaces, a);
      RowFacts(mem, role, a, spaces[a]);
      ghost var page := Bytes(mem[f].b[..off] + src + mem[f].b[off + |src|..]);
      PokeKeeps(mem, role, a, spaces[a], v, page);
      RolesOf(mem, role, freelist, spaces);
      assert spaces[a := spaces[a]] == spaces;
      WorldStep(mem, role, freelist, spaces, mem[f := page], role, freelist, a, spaces[a]);
      mem := mem[f := Bytes(mem[f].b[..off] + src + mem[f].b[off + |src|..])];
    }

    /** vmfault for the process whose space is a: a zeroed page where one was promised. */
    method Vmfault(root: nat, sz: nat, va: nat, ghost a: nat) returns (ok: bool, f: nat)
      requires Valid() && a in spaces && root == spaces[a].root && sz <= TRAPFRAME * PGSIZE
      modifies this`mem, this`freelist, this`role, this`spaces
      ensures Valid() && a in spaces && a in old(spaces) && spaces == old(spaces)[a := spaces[a]]
              && spaces[a].root == root
      ensures OnlyMine(old(role), old(mem), role, mem, a) && PagesKept(old(spaces)[a].flat, old(mem), mem)
      ensures ok ==> && va < sz && va / PGSIZE !in old(spaces)[a].flat && f < |mem| && mem[f] == ZERO_PAGE
                     && spaces[a].flat == old(spaces)[a].flat[va / PGSIZE := Page(f, Perm(true, false, true))]
      ensures !ok ==> spaces[a].flat == old(spaces)[a].flat
      ensures ok <==> va < sz && va / PGSIZE !in old(spaces)[a].flat
                      && |old(freelist)| > Missing(old(spaces)[a], va / PGSIZE)
      ensures !ok ==> va >= sz || va / PGSIZE in old(spaces)[a].flat || |freelist| <= 1
    {
      hide World, OnlyMine, PagesKept;
      NoChange(a);
      if va >= sz {
        return false, 0;
      }
      var mapped := IsMapped(root, va / PGSIZE, a);
      if mapped {
        return false, 0;
      }
      ok, f := FreshPage(root, va / PGSIZE, Perm(true, false, true), ZERO_PAGE.b, a);
    }

    method IsMapped(root: nat, v: nat, ghost a: nat) returns (yes: bool)
      requires Valid() && a in spaces && root == spaces[a].root && v < MAXPN
      modifies this`mem, this`freelist, this`role, this`spaces
      ensures unchanged(this) && (yes <==> v in spaces[a].flat)
    {
      hide World;
      var found, t := Walk(root, v, false, a);
      yes := false;
      if found {
        EntryAt(a, v, 0, t);
        yes := mem[t].e[v % 512] != Zero;
      } else {
        NoLowNoPage(a, v);
      }
    }

    /** walkaddr: the frame of a mapped user page. */
    method Walkaddr(root: nat, v: nat, ghost a: nat) returns (ok: bool, page: Page)
      requires Valid() && a in spaces && root == spaces[a].root
      modifies this`mem, this`freelist, this`role, this`spaces
      ensures unchanged(this) && (ok <==> v < MAXPN && v in spaces[a].flat && spaces[a].flat[v].perm.user)
      ensures ok ==> page == spaces[a].flat[v]
    {
      hide World;
      ok, page := false, Page(0, Perm(false, false, false));
      if v < MAXPN {
        var found, t := Walk(root, v, false, a);
        if found {
          EntryAt(a, v, 0, t);
          var e := mem[t].e[v % 512];
          if e.Leaf? && e.perm.user {
            ok, page := true, Page(e.frame, e.perm);
          }
        } else {
          NoLowNoPage(a, v);
        }
      }
    }

    /** The page at v for copyin and copyout: looked up or, if it was only promised, faulted in. */
    method FindPage(root: nat, sz: nat, v: nat, ghost a: nat) returns (ok: bool, f: nat)
      requires Valid() && a in spaces && root == spaces[a].root && UserSpace(spaces[a].flat, sz)
      modifies this`mem, this`freelist, this`role, this`spaces
      ensures Valid() && a in spaces && a in old(spaces) && spaces == old(spaces)[a := spaces[a]]
              && spaces[a].root == root
      ensures OnlyMine(old(role), old(mem), role, mem, a) && UserSpace(spaces[a].flat, sz)
      ensures Extended(old(spaces)[a].flat, spaces[a].flat)
      ensures SameView(old(mem), old(spaces)[a].flat, mem, spaces[a].flat, sz)
      ensures ok ==> v in spaces[a].flat && f == spaces[a].flat[v].frame && spaces[a].flat[v].perm.user
                     && v < TRAPFRAME && IsPage(mem, f) && Readable(old(spaces)[a].flat, sz, v)
      ensures !ok ==> !Readable(old(spaces)[a].flat, sz, v) || |freelist| <= 1
    {
      hide World, OnlyMine, PagesKept, UserSpace, SameView, Readable;
      ghost var flat0 := spaces[a].flat;
      NoChange(a);
      SameViewSelf(mem, flat0, sz);
      UserFacts(flat0, sz, v);
      var page;
      ok, page := Walkaddr(root, v, a);
      f := page.frame;
      if !ok {
        ok, f := Vmfault(root, sz, v * PGSIZE, a);
        if ok {
          FaultIsInvisible(old(mem), flat0, mem, spaces[a].flat, sz, v, f);
        } else {
          PagesKeptView(old(mem), mem, flat0, sz);
        }
      }
      if ok {
        PageIsPage(a, v);
        ReadableSame(old(mem), flat0, mem, spaces[a].flat, sz, v);
      }
    }

    lemma PageIsPage(a: nat, v: nat)
      requires Valid() && a in spaces && v in spaces[a].flat && v < TRAPFRAME
      ensures IsPage(mem, spaces[a].flat[v].frame)
    {
      hide FreeOk, RoleOk, SpaceOk;
      RowFacts(mem, role, a, spaces[a]);
    }

    /** copyin: the bytes of user memory at [srcva, srcva + len), which is not changed by it. It fails only at a
        page the process may not read, or when frames run out. */
    method Copyin(root: nat, sz: nat, srcva: nat, len: nat, ghost a: nat) returns (ok: bool, dst: seq<Byte>)
      requires Valid() && a in spaces && root == spaces[a].root && UserSpace(spaces[a].flat, sz)
      modifies this`mem, this`freelist, this`role, this`spaces
      ensures Valid() && a in spaces && a in old(spaces) && spaces == old(spaces)[a := spaces[a]]
              && spaces[a].root == root
      ensures OnlyMine(old(role), old(mem), role, mem, a) && UserSpace(spaces[a].flat, sz)
      ensures Extended(old(spaces)[a].flat, spaces[a].flat)
      ensures SameView(old(mem), old(spaces)[a].flat, mem, spaces[a].flat, sz)
      ensures ok ==> dst == Window(old(mem), old(spaces)[a].flat, srcva, len)
      ensures ok ==> AllReadable(old(spaces)[a].flat, sz, srcva, len)
      ensures !ok ==> |freelist| <= 1 || !AllReadable(old(spaces)[a].flat, sz, srcva, len)
    {
      hide World, OnlyMine, UserSpace, SameView, Readable, Window;
      ghost var mem0, flat0, role0 := mem, spaces[a].flat, role;
      NoChange(a);
      SameViewSelf(mem, flat0, sz);
      EmptyWindow(mem0, flat0, srcva);
      dst := [];
      while |dst| < len
        invariant Valid() && |dst| <= len && a in spaces && spaces == old(spaces)[a := spaces[a]]
                  && spaces[a].root == root
        invariant OnlyMine(role0, mem0, role, mem, a) && UserSpace(spaces[a].flat, sz)
        invariant Extended(flat0, spaces[a].flat)
        invariant SameView(mem0, flat0, mem, spaces[a].flat, sz)
        invariant dst == Window(mem0, flat0, srcva, |dst|) && AllReadable(flat0, sz, srcva, |dst|)
        decreases len - |dst|
      {
        var va := srcva + |dst|;
        ghost var role1, mem1, flat1 := role, mem, spaces[a].flat;
        var f;
        ok, f := FindPage(root, sz, va / PGSIZE, a);
        OnlyMineTwice(role0, mem0, role1, mem1, role, mem, a);
        SameViewTwice(mem0, flat0, mem1, flat1, mem, spaces[a].flat, sz, va / PGSIZE);
        if !ok {
          assert |freelist| <= 1 || !Readable(flat0, sz, va / PGSIZE);
          return;
        }
        var n := if PGSIZE - va % PGSIZE > len - |dst| then len - |dst| else PGSIZE - va % PGSIZE;
        WindowGrows(mem0, flat0, mem, spaces[a].flat, sz, srcva, |dst|, n, f);
        MoreReadable(flat0, sz, srcva, |dst|, n);
        dst := dst + mem[f].b[va % PGSIZE..va % PGSIZE + n];
      }
      ok := true;
    }

    /** copyout: a prefix of src goes to user memory at dstva, all of it on success, and not another byte of this or any
        other address space changes. It fails only at a page the process may not write, or when
        frames run out. */
    method Copyout(root: nat, sz: nat, dstva: nat, src: seq<Byte>, ghost a: nat) returns (ok: bool, ghost done: nat)
      requires Valid() && a in spaces && root == spaces[a].root && UserSpace(spaces[a].flat, sz)
      modifies this`mem, this`freelist, this`role, this`spaces
      ensures Valid() && a in spaces && a in old(spaces) && spaces == old(spaces)[a := spaces[a]]
              && spaces[a].root == root
      ensures OnlyMine(old(role), old(mem), role, mem, a) && UserSpace(spaces[a].flat, sz)
      ensures Extended(old(spaces)[a].flat, spaces[a].flat)
      ensures done <= |src| && (ok ==> done == |src|) && SamePerms(old(spaces)[a].flat, spaces[a].flat, sz)
      ensures Wrote(old(mem), old(spaces)[a].flat, mem, spaces[a].flat, dstva, src, done)
      ensures AllWritable(old(spaces)[a].flat, sz, dstva, done)
      ensures !ok ==> |freelist| <= 1 || !AllWritable(old(spaces)[a].flat, sz, dstva, |src|)
    {
      hide World, OnlyMine, UserSpace, SamePerms, Readable, Writable, Wrote;
      ghost var mem0, flat0, role0 := mem, spaces[a].flat, role;
      NoChange(a);
      NothingWritten(mem, flat0, sz, dstva, src);
      done := 0;
      var at := 0;
      while at < |src|
        invariant Valid() && 0 <= at == done <= |src| && a in spaces && spaces == old(spaces)[a := spaces[a]]
                  && spaces[a].root == root
        invariant OnlyMine(role0, mem0, role, mem, a) && UserSpace(spaces[a].flat, sz)
                  && SamePerms(flat0, spaces[a].flat, sz)
        invariant Extended(flat0, spaces[a].flat)
        invariant Wrote(mem0, flat0, mem, spaces[a].flat, dstva, src, done) && AllWritable(flat0, sz, dstva, done)
        decreases |src| - at
      {
        var n;
        ok, n := CopyoutStep(root, sz, dstva, src, at, a, role0, mem0, flat0);
        if !ok {
          return;
        }
        MoreWritable(flat0, sz, dstva, done, n);
        done := done + n;
        at := at + n;
      }
      ok := true;
    }

    /** One turn of copyout's loop, on one page. */
    method CopyoutStep(root: nat, sz: nat, dstva: nat, src: seq<Byte>, at: nat, ghost a: nat, ghost role0: seq<Role>,
                       ghost mem0: seq<Frame>,
                       ghost flat0: map<nat, Page>) returns (ok: bool, n: nat)
      requires Valid() && a in spaces && root == spaces[a].root && at < |src|
      requires OnlyMine(role0, mem0, role, mem, a) && UserSpace(spaces[a].flat, sz)
               && SamePerms(flat0, spaces[a].flat, sz)
      requires Wrote(mem0, flat0, mem, spaces[a].flat, dstva, src, at)
      modifies this`mem, this`freelist, this`role, this`spaces
      ensures Valid() && a in spaces && a in old(spaces) && spaces == old(spaces)[a := spaces[a]]
              && spaces[a].root == root
      ensures OnlyMine(role0, mem0, role, mem, a) && UserSpace(spaces[a].flat, sz)
              && SamePerms(flat0, spaces[a].flat, sz)
      ensures Extended(old(spaces)[a].flat, spaces[a].flat)
      ensures ok ==> 0 < n <= |src| - at && Wrote(mem0, flat0, mem, spaces[a].flat, dstva, src, at + n)
                     && (dstva + at) % PGSIZE + n <= PGSIZE && Writable(flat0, sz, (dstva + at) / PGSIZE)
      ensures !ok ==> Wrote(mem0, flat0, mem, spaces[a].flat, dstva, src, at)
      ensures !ok ==> |freelist| <= 1 || !Writable(flat0, sz, (dstva + at) / PGSIZE)
    {
      hide World, OnlyMine, UserSpace, SamePerms, Readable, Writable, Wrote, SameView, SpaceOk;
      n := 0;
      var va := dstva + at;
      ghost var role1, mem1, flat1 := role, mem, spaces[a].flat;
      var f;
      ok, f := WritePage(root, sz, va / PGSIZE, a);
      OnlyMineTwice(role0, mem0, role1, mem1, role, mem, a);
      FoundStill(mem0, flat0, mem1, flat1, mem, spaces[a].flat, sz, dstva, src, at, va / PGSIZE);
      if ok {
        n := if PGSIZE - va % PGSIZE > |src| - at then |src| - at else PGSIZE - va % PGSIZE;
        ghost var mem2 := mem;
        WorldParts(mem, role, freelist, spaces, a);
        Poke(f, va / PGSIZE, va % PGSIZE, src[at..at + n], a);
        PokeMine(role0, mem0, role, mem2, mem, a, f, va / PGSIZE);
        WroteMore(mem0, flat0, mem2, mem, role, a, spaces[a], dstva, src, at, n, f);
      }
    }

    /** The page at v if it may be written. */
    method WritePage(root: nat, sz: nat, v: nat, ghost a: nat) returns (ok: bool, f: nat)
      requires Valid() && a in spaces && root == spaces[a].root && UserSpace(spaces[a].flat, sz)
      modifies this`mem, this`freelist, this`role, this`spaces
      ensures Valid() && a in spaces && a in old(spaces) && spaces == old(spaces)[a := spaces[a]]
              && spaces[a].root == root
      ensures OnlyMine(old(role), old(mem), role, mem, a) && UserSpace(spaces[a].flat, sz)
      ensures Extended(old(spaces)[a].flat, spaces[a].flat)
      ensures SameView(old(mem), old(spaces)[a].flat, mem, spaces[a].flat, sz)
      ensures ok ==> v in spaces[a].flat && f == spaces[a].flat[v].frame && v < TRAPFRAME
                     && Writable(old(spaces)[a].flat, sz, v)
      ensures !ok ==> !Writable(old(spaces)[a].flat, sz, v) || |freelist| <= 1
    {
      hide World, OnlyMine, UserSpace, SameView, Readable, Writable;
      ghost var mem0, flat0 := mem, spaces[a].flat;
      NoChange(a);
      SameViewSelf(mem, flat0, sz);
      NotWritable(flat0, sz, v);
      if v >= MAXPN {
        HighPages(flat0, sz, v);
        return false, 0;
      }
      ok, f := FindPage(root, sz, v, a);
      if ok {
        var found, t := Walk(root, v, false, a);
        if !found { NoLowNoPage(a, v); }
        EntryAt(a, v, 0, t);
        WritableSame(mem0, flat0, mem, spaces[a].flat, sz, v);
        ok := mem[t].e[v % 512].Leaf? && mem[t].e[v % 512].perm.write;
      }
    }

    lemma NoMidNoLow(a: nat, v: nat)
      requires Valid() && a in spaces && v / 512 / 512 !in spaces[a].mid
      ensures v / 512 !in spaces[a].low
    {
      hide FreeOk, RoleOk, SpaceOk;
      RowFacts(mem, role, a, spaces[a]);
    }
  }

  /** Page v's frame is in use now and keeps its bytes. */
  ghost predicate MappedAt(role: seq<Role>, mem: seq<Frame>, role': seq<Role>, mem': seq<Frame>, a: nat, v: nat,
                           page: Page) {
    && |role| == |role'| == |mem| == |mem'|
    && (v < TRAPFRAME ==> page.frame < |mem| && mem'[page.frame] == mem[page.frame] && role'[page.frame] == User(a, v))
  }

  lemma SetLeafFrames(role0: seq<Role>, mem0: seq<Frame>, mem: seq<Frame>, role: seq<Role>, a: nat, sp0: Space,
                      sp: Space, v: nat, page: Page)
    requires SpaceOk(mem, role, a, sp) && v / 512 in sp.low && Mappable(mem, role, a, sp, v, page)
    requires OnlyMine(role0, mem0, role, mem, a) && PagesKept(sp0.flat, mem0, mem) && LooseKept(role0, mem0, role, mem)
             && sp0.flat == sp.flat
    ensures IsTable(mem, sp.low[v / 512])
    ensures var role', mem' := Rerole(role, a, sp, v, Set(page)),
            SetEntry(mem, sp.low[v / 512], v % 512, Leaf(page.frame, page.perm));
            OnlyMine(role0, mem0, role', mem', a) && PagesKept(sp0.flat, mem0, mem')
              && MappedAt(role0, mem0, role', mem', a, v, page)
  {
    hide SpaceOk;
    RowFacts(mem, role, a, sp);
    var t := sp.low[v / 512];
    assert role[t] == Low(a, v / 512);
  }

  function LeafFrame(e: Pte): (f: nat) {
    if e.Zero? then 0 else e.frame
  }

  lemma LeafFrameIs(flat: map<nat, Page>, v: nat)
    requires v in flat
    ensures LeafFrame(LeafAt(flat, v)) == flat[v].frame && LeafAt(flat - {v}, v) == Zero
  {
  }

  lemma UnmapFrames(mem: seq<Frame>, role: seq<Role>, a: nat, sp: Space, v: nat)
    requires SpaceOk(mem, role, a, sp) && v in sp.flat
    ensures v / 512 in sp.low && IsTable(mem, sp.low[v / 512])
    ensures var role', mem', f := Rerole(role, a, sp, v, Unset), SetEntry(mem, sp.low[v / 512], v % 512, Zero),
            sp.flat[v].frame;
            && |role'| == |mem'| && (v >= TRAPFRAME ==>
                                     OnlyMine(role, mem, role', mem', a) && PagesKept(sp.flat - {v}, mem, mem'))
            && (v < TRAPFRAME ==>
                  && f < |role'| && role'[f].Loose?
                  && OnlyMine(role, mem, role'[f := Free], mem'[f := JUNK_FREE], a)
                     && PagesKept(sp.flat - {v}, mem, mem'[f := JUNK_FREE]))
  {
    hide SpaceOk;
    RowFacts(mem, role, a, sp);
    assert role[sp.low[v / 512]] == Low(a, v / 512);
  }

  /** PGROUNDUP(sz) / PGSIZE */
  function Pages(sz: nat): (n: nat)
    ensures n * PGSIZE >= sz && (n > 0 ==> (n - 1) * PGSIZE < sz)
  {
    (sz + PGSIZE - 1) / PGSIZE
  }

  function Without(flat: map<nat, Page>, lo: nat, hi: nat): (r: map<nat, Page>) {
    map v | v in flat && !(lo <= v < hi) :: flat[v]
  }

  lemma WithoutNone(flat: map<nat, Page>, lo: nat)
    ensures Without(flat, lo, lo) == flat
  {
  }

  lemma WithoutNext(flat: map<nat, Page>, lo: nat, v: nat)
    requires lo <= v
    ensures Without(flat, lo, v + 1) == Without(flat, lo, v) - {v}
    ensures v !in Without(flat, lo, v) ==> Without(flat, lo, v + 1) == Without(flat, lo, v)
  {
  }

  /** Pages [lo, hi) have been added to a flat map, readable as given and all zero. */
  ghost predicate ZeroPages(flat: map<nat, Page>, flat': map<nat, Page>, mem: seq<Frame>, lo: nat, hi: nat,
                            perm: Perm) {
    && Without(flat', lo, hi) == flat
    && forall v {:trigger flat'[v]} {:trigger v in flat'} :: lo <= v < hi ==>
         v in flat' && flat'[v].perm == perm && flat'[v].frame < |mem| && IsZero(mem[flat'[v].frame])
  }

  predicate IsZero(fr: Frame) {
    fr.Bytes? && |fr.b| == PGSIZE && forall i :: 0 <= i < PGSIZE ==> fr.b[i] == 0
  }

  lemma NoZeroPages(flat: map<nat, Page>, mem: seq<Frame>, lo: nat, perm: Perm)
    ensures ZeroPages(flat, flat, mem, lo, lo, perm)
  {
    WithoutNone(flat, lo);
  }

  lemma ChainedDown(role: seq<Role>, mem: seq<Frame>, role': seq<Role>, mem': seq<Frame>, role'': seq<Role>,
                    mem'': seq<Frame>, a: nat,
                    flat: map<nat, Page>, flat': map<nat, Page>)
    requires OnlyMine(role, mem, role', mem', a) && OnlyMine(role', mem', role'', mem'', a)
    requires PagesKept(flat, mem, mem') && PagesKept(flat', mem', mem'') && forall v :: v in flat' ==>
               v in flat && flat'[v] == flat[v]
    ensures OnlyMine(role, mem, role'', mem'', a) && PagesKept(flat', mem, mem'')
  {
  }

  /** From kalloc to the mapping of the frame, or to its return. */
  lemma FreshFrames(role0: seq<Role>, mem0: seq<Frame>, role1: seq<Role>, mem1: seq<Frame>, role: seq<Role>,
                    mem: seq<Frame>, a: nat, f: nat,
                    v: nat, perm: Perm, content: seq<Byte>, sp: Space, ok: bool)
    requires |role0| == |mem0| && f < |role0| && role0[f].Free? && role1 == role0[f := Loose]
             && mem1 == mem0[f := JUNK_ALLOC][f := Bytes(content)]
    requires SpaceOk(mem0, role0, a, sp) && OnlyMine(role1, mem1, role, mem, a) && PagesKept(sp.flat, mem1, mem)
             && v < TRAPFRAME
    requires ok ==> MappedAt(role1, mem1, role, mem, a, v, Page(f, perm))
    requires !ok ==> LooseKept(role1, mem1, role, mem)
    ensures |role| == |role0| == |mem|
    ensures ok ==> OnlyMine(role0, mem0, role, mem, a) && PagesKept(sp.flat, mem0, mem) && mem[f] == Bytes(content)
    ensures !ok ==> role[f].Loose? && OnlyMine(role0, mem0, role[f := Free], mem[f := JUNK_FREE], a)
                    && PagesKept(sp.flat, mem0, mem[f := JUNK_FREE])
  {
    hide SpaceOk;
    RowFacts(mem0, role0, a, sp);
  }

  lemma WholePages(n: nat)
    ensures Pages(n * PGSIZE) == n
  {
  }

  lemma NotYetMapped(flat: map<nat, Page>, flat': map<nat, Page>, mem: seq<Frame>, lo: nat, v: nat, perm: Perm)
    requires ZeroPages(flat, flat', mem, lo, v, perm) && lo <= v < TRAPFRAME
    requires forall u :: u in flat && u < TRAPFRAME ==> u < lo
    ensures v !in flat'
  {
    assert v in flat' ==> v in Without(flat', lo, v);
  }

  lemma Undone(flat: map<nat, Page>, flat': map<nat, Page>, mem: seq<Frame>, lo: nat, hi: nat, perm: Perm)
    requires ZeroPages(flat, flat', mem, lo, hi, perm)
    ensures Without(flat', lo, hi) == flat
  {
  }

  lemma OneMoreZero(role0: seq<Role>, mem0: seq<Frame>, role1: seq<Role>, mem1: seq<Frame>, role: seq<Role>,
                    mem: seq<Frame>, a: nat,
                    flat0: map<nat, Page>, flat1: map<nat, Page>, flat: map<nat, Page>, lo: nat, v: nat, page: Page,
                      ok: bool)
    requires OnlyMine(role0, mem0, role1, mem1, a) && PagesKept(flat0, mem0, mem1)
             && ZeroPages(flat0, flat1, mem1, lo, v, page.perm) && lo <= v
    requires OnlyMine(role1, mem1, role, mem, a) && PagesKept(flat1, mem1, mem) && v !in flat1 && v < TRAPFRAME
    requires flat == if ok then flat1[v := page] else flat1
    requires ok ==> page.frame < |mem| && mem[page.frame] == ZERO_PAGE
    ensures OnlyMine(role0, mem0, role, mem, a) && PagesKept(flat0, mem0, mem)
    ensures ZeroPages(flat0, flat, mem, lo, if ok then v + 1 else v, page.perm)
  {
    hide OnlyMine;
    OnlyMineTwice(role0, mem0, role1, mem1, role, mem, a);
    assert forall u :: u in flat0 ==> u in Without(flat1, lo, v);
    assert ok ==> Without(flat, lo, v + 1) == Without(flat1, lo, v);
  }

  /** New bytes in a mapped page leave every table as it is. */
  lemma PokeKeeps(mem: seq<Frame>, role: seq<Role>, a: nat, sp: Space, v: nat, page: Frame)
    requires SpaceOk(mem, role, a, sp) && v in sp.flat && v < TRAPFRAME && page.Bytes? && |page.b| == PGSIZE
    ensures sp.flat[v].frame < |mem| && SpaceOk(mem[sp.flat[v].frame := page], role, a, sp)
  {
    hide MidRow, LowRow;
    RowFacts(mem, role, a, sp);
    var f := sp.flat[v].frame;
    var mem' := mem[f := page];
    assert role[f] == User(a, v);
    forall i | i in sp.mid ensures MidRow(mem', role, a, sp, i) { MidRowKept(mem, role, mem', role, a, sp, sp, i); }
    forall k | k in sp.low ensures LowRow(mem', role, a, sp, k) { LowRowKept(mem, role, mem', role, a, sp, sp, k); }
    forall u | u in sp.flat ensures PageRow(mem', role, a, sp, u) { assert PageRow(mem, role, a, sp, u); }
  }

  lemma RolesOf(mem: seq<Frame>, role: seq<Role>, freelist: seq<nat>, spaces: Spaces)
    requires World(mem, role, freelist, spaces)
    ensures forall f :: 0 <= f < |role| ==> RoleOk(role[f], f, spaces)
  {
  }

  // ---- the flat memory a process sees ------------------------------------------------------

  /** User pages lie below the size, the two pages above them are not the user's. */
  ghost predicate UserSpace(flat: map<nat, Page>, sz: nat) {
    && sz <= TRAPFRAME * PGSIZE
    && (forall v :: v in flat ==> v < MAXPN && (if v < TRAPFRAME then v < Pages(sz) else !flat[v].perm.user))
  }

  /** Pages have come and none has gone. */
  ghost predicate Extended(flat: map<nat, Page>, flat': map<nat, Page>) {
    forall v :: v in flat ==> v in flat' && flat'[v] == flat[v]
  }

  /** The byte at an address; pages promised but not there yet are zero. */
  ghost function ByteAt(mem: seq<Frame>, flat: map<nat, Page>, va: nat): (b: Byte) {
    var v := va / PGSIZE;
    if v in flat && v < TRAPFRAME && IsPage(mem, flat[v].frame) then mem[flat[v].frame].b[va % PGSIZE] else 0
  }

  ghost predicate Readable(flat: map<nat, Page>, sz: nat, v: nat) {
    if v in flat then flat[v].perm.user else v * PGSIZE < sz
  }

  ghost predicate Writable(flat: map<nat, Page>, sz: nat, v: nat) {
    if v in flat then flat[v].perm.user && flat[v].perm.write else v * PGSIZE < sz
  }

  /** Every page of [va, va + n) may be read. */
  ghost predicate AllReadable(flat: map<nat, Page>, sz: nat, va: nat, n: nat) {
    forall x: nat :: va <= x < va + n ==> Readable(flat, sz, x / PGSIZE)
  }

  ghost predicate AllWritable(flat: map<nat, Page>, sz: nat, va: nat, n: nat) {
    forall x: nat :: va <= x < va + n ==> Writable(flat, sz, x / PGSIZE)
  }

  lemma MoreReadable(flat: map<nat, Page>, sz: nat, va: nat, k: nat, n: nat)
    requires AllReadable(flat, sz, va, k) && Readable(flat, sz, (va + k) / PGSIZE) && (va + k) % PGSIZE + n <= PGSIZE
    ensures AllReadable(flat, sz, va, k + n)
  {
    hide Readable;
    forall x: nat | va + k <= x < va + k + n ensures Readable(flat, sz, x / PGSIZE) {
      InPage(va + k, x - (va + k));
    }
  }

  lemma MoreWritable(flat: map<nat, Page>, sz: nat, va: nat, k: nat, n: nat)
    requires AllWritable(flat, sz, va, k) && Writable(flat, sz, (va + k) / PGSIZE) && (va + k) % PGSIZE + n <= PGSIZE
    ensures AllWritable(flat, sz, va, k + n)
  {
    hide Writable;
    forall x: nat | va + k <= x < va + k + n ensures Writable(flat, sz, x / PGSIZE) {
      InPage(va + k, x - (va + k));
    }
  }

  lemma ReadableSame(mem: seq<Frame>, flat: map<nat, Page>, mem': seq<Frame>, flat': map<nat, Page>, sz: nat, v: nat)
    requires SameView(mem, flat, mem', flat', sz) && v in flat' && flat'[v].perm.user
    ensures Readable(flat, sz, v)
  {
    assert Readable(flat', sz, v);
  }

  ghost predicate SamePerms(flat: map<nat, Page>, flat': map<nat, Page>, sz: nat) {
    && (forall v: nat :: Readable(flat', sz, v) == Readable(flat, sz, v))
    && (forall v: nat :: Writable(flat', sz, v) == Writable(flat, sz, v))
  }

  /** Nothing a process can see through copyin and copyout has changed. */
  ghost predicate SameView(mem: seq<Frame>, flat: map<nat, Page>, mem': seq<Frame>, flat': map<nat, Page>, sz: nat) {
    SamePerms(flat, flat', sz) && forall va: nat :: ByteAt(mem', flat', va) == ByteAt(mem, flat, va)
  }

  ghost function Window(mem: seq<Frame>, flat: map<nat, Page>, va: nat, n: nat): (r: seq<Byte>) {
    seq<Byte>(n, i requires 0 <= i < n => ByteAt(mem, flat, va + i))
  }

  /** src[..k] has been written at va, and nothing else. */
  ghost predicate Wrote(mem: seq<Frame>, flat: map<nat, Page>, mem': seq<Frame>, flat': map<nat, Page>, va: nat,
                        src: seq<Byte>, k: nat) {
    k <= |src| && forall x: nat :: ByteAt(mem', flat', x) == if va <= x < va + k then
        src[x - va] else ByteAt(mem, flat, x)
  }

  lemma SameViewSelf(mem: seq<Frame>, flat: map<nat, Page>, sz: nat)
    ensures SameView(mem, flat, mem, flat, sz)
  {
  }

  lemma UserFacts(flat: map<nat, Page>, sz: nat, v: nat)
    requires UserSpace(flat, sz)
    ensures sz <= TRAPFRAME * PGSIZE
    ensures v in flat ==> v < MAXPN && (flat[v].perm.user ==> v < TRAPFRAME)
    ensures !(v in flat && flat[v].perm.user) && (v * PGSIZE >= sz || v in flat) ==> !Readable(flat, sz, v)
    ensures v * PGSIZE < sz ==> v < TRAPFRAME && forall f :: UserSpace(flat[v := Page(f, Perm(true, false, true))], sz)
  {
    if v * PGSIZE < sz {
      assert v < Pages(sz);
    }
  }

  /** A fault is invisible: the page it maps was already readable, writable and zero. */
  lemma FaultIsInvisible(mem: seq<Frame>, flat: map<nat, Page>, mem': seq<Frame>, flat': map<nat, Page>, sz: nat,
                         v: nat, f: nat)
    requires PagesKept(flat, mem, mem') && v !in flat && v * PGSIZE < sz && f < |mem'| && mem'[f] == ZERO_PAGE
    requires flat' == flat[v := Page(f, Perm(true, false, true))]
    ensures SameView(mem, flat, mem', flat', sz)
  {
    forall va: nat ensures ByteAt(mem', flat', va) == ByteAt(mem, flat, va) {
      if va / PGSIZE != v && va / PGSIZE in flat { assert flat'[va / PGSIZE] == flat[va / PGSIZE]; }
    }
  }

  lemma PagesKeptView(mem: seq<Frame>, mem': seq<Frame>, flat: map<nat, Page>, sz: nat)
    requires PagesKept(flat, mem, mem')
    ensures SameView(mem, flat, mem', flat, sz)
  {
  }

  lemma SameViewTwice(mem: seq<Frame>, flat: map<nat, Page>, mem': seq<Frame>, flat': map<nat, Page>,
                      mem'': seq<Frame>, flat'': map<nat, Page>, sz: nat, v: nat)
    requires SameView(mem, flat, mem', flat', sz) && SameView(mem', flat', mem'', flat'', sz)
    ensures SameView(mem, flat, mem'', flat'', sz) && Readable(flat', sz, v) == Readable(flat, sz, v)
  {
  }

  lemma EmptyWindow(mem: seq<Frame>, flat: map<nat, Page>, va: nat)
    ensures Window(mem, flat, va, 0) == []
  {
  }

  lemma WindowGrows(mem0: seq<Frame>, flat0: map<nat, Page>, mem: seq<Frame>, flat: map<nat, Page>, sz: nat, va: nat,
                    k: nat, n: nat, f: nat)
    requires SameView(mem0, flat0, mem, flat, sz) && (va + k) / PGSIZE in flat && flat[(va + k) / PGSIZE].frame == f
             && IsPage(mem, f)
    requires (va + k) % PGSIZE + n <= PGSIZE && (va + k) / PGSIZE < TRAPFRAME
    ensures Window(mem0, flat0, va, k + n) ==
            Window(mem0, flat0, va, k) + mem[f].b[(va + k) % PGSIZE..(va + k) % PGSIZE + n]
  {
    var w, chunk := Window(mem0, flat0, va, k + n), mem[f].b[(va + k) % PGSIZE..(va + k) % PGSIZE + n];
    forall i | 0 <= i < n ensures w[k + i] == chunk[i] {
      InPage(va + k, i);
      assert ByteAt(mem, flat, va + (k + i)) == ByteAt(mem0, flat0, va + (k + i));
      assert va + (k + i) == va + k + i;
    }
    assert w[..k] == Window(mem0, flat0, va, k);
    assert w == w[..k] + w[k..];
    assert w[k..] == chunk;
  }

  lemma InPage(va: nat, i: nat)
    requires va % PGSIZE + i < PGSIZE
    ensures (va + i) / PGSIZE == va / PGSIZE && (va + i) % PGSIZE == va % PGSIZE + i
  {
  }

  lemma NothingWritten(mem: seq<Frame>, flat: map<nat, Page>, sz: nat, va: nat, src: seq<Byte>)
    ensures Wrote(mem, flat, mem, flat, va, src, 0) && SamePerms(flat, flat, sz)
  {
  }

  /** What copyout has written is what copyin reads. */
  lemma CopyRoundTrip(mem: seq<Frame>, flat: map<nat, Page>, mem': seq<Frame>, flat': map<nat, Page>, va: nat,
                      src: seq<Byte>)
    requires Wrote(mem, flat, mem', flat', va, src, |src|)
    ensures Window(mem', flat', va, |src|) == src
  {
    forall i | 0 <= i < |src| ensures Window(mem', flat', va, |src|)[i] == src[i] {
      assert ByteAt(mem', flat', va + i) == src[va + i - va];
    }
  }

  lemma NotWritable(flat: map<nat, Page>, sz: nat, v: nat)
    ensures !Readable(flat, sz, v) ==> !Writable(flat, sz, v)
  {
  }

  lemma HighPages(flat: map<nat, Page>, sz: nat, v: nat)
    requires UserSpace(flat, sz) && v >= MAXPN
    ensures !Writable(flat, sz, v)
  {
  }

  lemma WritableSame(mem: seq<Frame>, flat: map<nat, Page>, mem': seq<Frame>, flat': map<nat, Page>, sz: nat, v: nat)
    requires SameView(mem, flat, mem', flat', sz) && v in flat' && flat'[v].perm.user
    ensures Writable(flat, sz, v) <==> flat'[v].perm.write
  {
    assert Writable(flat', sz, v) == Writable(flat, sz, v);
  }

  lemma FoundStill(mem0: seq<Frame>, flat0: map<nat, Page>, mem1: seq<Frame>, flat1: map<nat, Page>, mem: seq<Frame>,
                   flat: map<nat, Page>, sz: nat,
                   va: nat, src: seq<Byte>, k: nat, v: nat)
    requires Wrote(mem0, flat0, mem1, flat1, va, src, k) && SamePerms(flat0, flat1, sz)
             && SameView(mem1, flat1, mem, flat, sz)
    ensures Wrote(mem0, flat0, mem, flat, va, src, k) && SamePerms(flat0, flat, sz)
            && Writable(flat1, sz, v) == Writable(flat0, sz, v)
  {
  }

  lemma PokeMine(role0: seq<Role>, mem0: seq<Frame>, role: seq<Role>, mem: seq<Frame>, mem': seq<Frame>, a: nat,
                 f: nat, v: nat)
    requires OnlyMine(role0, mem0, role, mem, a) && f < |mem| == |mem'| && role[f] == User(a, v)
             && mem' == mem[f := mem'[f]]
    ensures OnlyMine(role0, mem0, role, mem', a)
  {
  }

  lemma WroteMore(mem0: seq<Frame>, flat0: map<nat, Page>, mem: seq<Frame>, mem': seq<Frame>, role: seq<Role>, a: nat,
                  sp: Space,
                  va: nat, src: seq<Byte>, k: nat, n: nat, f: nat)
    requires SpaceOk(mem, role, a, sp) && Wrote(mem0, flat0, mem, sp.flat, va, src, k) && k + n <= |src|
    requires (va + k) / PGSIZE in sp.flat && (va + k) / PGSIZE < TRAPFRAME && f == sp.flat[(va + k) / PGSIZE].frame
             && IsPage(mem, f)
    requires var off := (va + k) % PGSIZE;
             off + n <= PGSIZE && mem' == mem[f := Bytes(mem[f].b[..off] + src[k..k + n] + mem[f].b[off + n..])]
    ensures Wrote(mem0, flat0, mem', sp.flat, va, src, k + n)
  {
    hide SpaceOk, ByteAt;
    RowFacts(mem, role, a, sp);
    forall x: nat
      ensures ByteAt(mem', sp.flat, x) == if va <= x < va + k + n then src[x - va] else ByteAt(mem0, flat0, x)
    {
      assert ByteAt(mem, sp.flat, x) == if va <= x < va + k then src[x - va] else ByteAt(mem0, flat0, x);
      PutBytes(mem, sp.flat, va + k, src[k..k + n], f, x);
    }
  }

  /** Bytes put into one page show at their addresses and nowhere else. */
  lemma PutBytes(mem: seq<Frame>, flat: map<nat, Page>, va: nat, piece: seq<Byte>, f: nat, x: nat)
    requires va / PGSIZE in flat && va / PGSIZE < TRAPFRAME && f == flat[va / PGSIZE].frame && IsPage(mem, f)
    requires va % PGSIZE + |piece| <= PGSIZE
    requires x / PGSIZE in flat && x / PGSIZE < TRAPFRAME && flat[x / PGSIZE].frame == f ==> x / PGSIZE == va / PGSIZE
    ensures var off := va % PGSIZE;
            var mem' := mem[f := Bytes(mem[f].b[..off] + piece + mem[f].b[off + |piece|..])];
            ByteAt(mem', flat, x) == if va <= x < va + |piece| then piece[x - va] else ByteAt(mem, flat, x)
  {
    if va <= x < va + |piece| {
      InPage(va, x - va);
    } else if x / PGSIZE in flat && x / PGSIZE < TRAPFRAME && flat[x / PGSIZE].frame == f {
      SamePage(va, |piece|, x);
    }
  }

  /** An address in the same page but outside a stretch of it. */
  lemma SamePage(va: nat, n: nat, x: nat)
    requires x / PGSIZE == va / PGSIZE && va % PGSIZE + n <= PGSIZE && !(va <= x < va + n)
    ensures x % PGSIZE < va % PGSIZE || x % PGSIZE >= va % PGSIZE + n
  {
  }

  lemma GrownFlat(sp: Space, sp': Space)
    requires Grown(sp, sp')
    ensures sp'.flat == sp.flat && sp'.root == sp.root
  {
  }

  lemma StillMappable(mem: seq<Frame>, role: seq<Role>, mem': seq<Frame>, role': seq<Role>, a: nat, sp: Space,
                      sp': Space, v: nat, page: Page)
    requires Mappable(mem, role, a, sp, v, page) && LooseKept(role, mem, role', mem')
             && OnlyMine(role, mem, role', mem', a) && sp'.flat == sp.flat
    ensures Mappable(mem', role', a, sp', v, page)
  {
  }

  lemma Chained(role: seq<Role>, mem: seq<Frame>, role': seq<Role>, mem': seq<Frame>, role'': seq<Role>,
                mem'': seq<Frame>, a: nat,
                sp: Space, sp': Space, sp'': Space)
    requires OnlyMine(role, mem, role', mem', a) && OnlyMine(role', mem', role'', mem'', a)
    requires PagesKept(sp.flat, mem, mem') && PagesKept(sp'.flat, mem', mem'') && Grown(sp, sp') && Grown(sp', sp'')
    requires LooseKept(role, mem, role', mem') && LooseKept(role', mem', role'', mem'')
    ensures OnlyMine(role, mem, role'', mem'', a) && PagesKept(sp.flat, mem, mem'') && Grown(sp, sp'')
    ensures LooseKept(role, mem, role'', mem'')
  {
  }
}
