/** freewalk: giving back the table pages of an address space that maps nothing any more. */
module TableTeardown {
  import opened Blocks
  import opened PageTables
  import opened VirtualMemory

  /** The table page with this tag, and what is left below it. Level 2 is the root (tag 0), level 1 a second-level
      table, level 0 a third-level one, all of whose entries are zero. */
  ghost predicate DeadLow(mem: seq<Frame>, role: seq<Role>, sp: Space, k: nat) {
    && k in sp.low && IsTable(mem, sp.low[k]) && |role| == |mem| && role[sp.low[k]] == Dead(0, k)
    && forall x :: 0 <= x < ENTRIES ==> mem[sp.low[k]].e[x] == Zero
  }

  ghost predicate DeadMid(mem: seq<Frame>, role: seq<Role>, sp: Space, i: nat) {
    && i in sp.mid && IsTable(mem, sp.mid[i]) && |role| == |mem| && role[sp.mid[i]] == Dead(1, i)
    && forall j :: 0 <= j < ENTRIES ==> mem[sp.mid[i]].e[j] == PtrTo(sp.low, i * 512 + j)
  }

  ghost predicate DeadRoot(mem: seq<Frame>, role: seq<Role>, sp: Space) {
    && IsTable(mem, sp.root) && |role| == |mem| && role[sp.root] == Dead(2, 0)
    && forall i :: 0 <= i < ENTRIES ==> mem[sp.root].e[i] == PtrTo(sp.mid, i)
  }

  /** What is below a table page, itself included. */
  predicate Under(r: Role, level: nat, at: nat) {
    && r.Dead?
    && (if level == 2 then true
        else if level == 1 then (r.level == 1 && r.at == at) || (r.level == 0 && r.at / 512 == at)
        else r.level == 0 && r.at == at)
  }

  /** Everything below the table page is still in place. */
  ghost predicate DeadSub(mem: seq<Frame>, role: seq<Role>, sp: Space, level: nat, at: nat) {
    && level <= 2 && (level == 2 ==> at == 0)
    && (level == 2 ==> DeadRoot(mem, role, sp) && (forall i :: i in sp.mid ==> i < ENTRIES))
    && (level == 1 ==> DeadMid(mem, role, sp, at))
    && (level == 2 ==> forall i :: i in sp.mid ==> DeadMid(mem, role, sp, i))
    && (forall k :: k in sp.low && (level == 2 || (level == 1 && k / 512 == at) || (level == 0 && k == at)) ==>
        DeadLow(mem, role, sp, k))
    && (level == 0 ==> at in sp.low)
    && (forall k :: k in sp.low ==> k / 512 in sp.mid)
  }

  /** A tag names one frame. */
  ghost predicate TagsOk(role: seq<Role>, sp: Space) {
    forall g {:trigger role[g]} :: 0 <= g < |role| ==> Tagged(role[g], g, sp)
  }

  function TheFrame(sp: Space, level: nat, at: nat): (f: nat)
    requires level != 2 && level != 1 ==> at in sp.low
    requires level == 1 ==> at in sp.mid
  {
    if level == 2 then sp.root else if level == 1 then sp.mid[at] else sp.low[at]
  }

  // ---- an address space that maps nothing becomes a dead tree ---------------------------

  function Tag(r: Role, a: nat): (s: Role) {
    match r
    case Root(b) => if a == b then Dead(2, 0) else r
    case Mid(b, i) => if a == b then Dead(1, i) else r
    case Low(b, k) => if a == b then Dead(0, k) else r
    case _ => r
  }

  ghost function Buried(role: seq<Role>, a: nat): (s: seq<Role>)
    ensures |s| == |role| && forall f :: 0 <= f < |role| ==> s[f] == Tag(role[f], a)
  {
    seq(|role|, f requires 0 <= f < |role| => Tag(role[f], a))
  }

  lemma BuryKeepsWorld(mem: seq<Frame>, role: seq<Role>, freelist: seq<nat>, spaces: Spaces, a: nat)
    requires World(mem, role, freelist, spaces) && a in spaces && spaces[a].flat == map[]
    ensures World(mem, Buried(role, a), freelist, spaces - {a})
  {
    hide SpaceOk, FreeOk;
    var role', spaces' := Buried(role, a), spaces - {a};
    SameFree(role, role', freelist);
    forall f | 0 <= f < |role'| ensures RoleOk(role'[f], f, spaces') {
      assert RoleOk(role[f], f, spaces);
    }
    forall b | b in spaces' ensures SpaceOk(mem, role', b, spaces'[b]) {
      assert SpaceOk(mem, role, b, spaces[b]);
      SpaceKept(mem, role, mem, role', b, spaces[b]);
    }
  }

  lemma BuriedIsDead(mem: seq<Frame>, role: seq<Role>, freelist: seq<nat>, spaces: Spaces, a: nat)
    requires World(mem, role, freelist, spaces) && a in spaces && spaces[a].flat == map[]
    requires forall f :: 0 <= f < |role| ==> !role[f].Dead?
    ensures DeadSub(mem, Buried(role, a), spaces[a], 2, 0) && TagsOk(Buried(role, a), spaces[a])
  {
    hide FreeOk, RoleOk, SpaceOk;
    var sp, role' := spaces[a], Buried(role, a);
    assert SpaceOk(mem, role, a, sp);
    RowsDie(mem, role, a, sp);
    forall g | 0 <= g < |role'| && role'[g].Dead? ensures Tagged(role'[g], g, sp) {
      TagOf(role, g, spaces, a);
    }
  }

  lemma TagOf(role: seq<Role>, g: nat, spaces: Spaces, a: nat)
    requires g < |role| && RoleOk(role[g], g, spaces) && a in spaces && !role[g].Dead? && Buried(role, a)[g].Dead?
    ensures Tagged(Buried(role, a)[g], g, spaces[a])
  {
  }

  lemma RowsDie(mem: seq<Frame>, role: seq<Role>, a: nat, sp: Space)
    requires SpaceOk(mem, role, a, sp) && sp.flat == map[]
    ensures DeadSub(mem, Buried(role, a), sp, 2, 0)
    ensures forall i :: i in sp.mid ==> DeadMid(mem, Buried(role, a), sp, i) && i < ENTRIES
    ensures forall k :: k in sp.low ==> DeadLow(mem, Buried(role, a), sp, k) && k / 512 in sp.mid
  {
    var role' := Buried(role, a);
    forall i | i in sp.mid ensures DeadMid(mem, role', sp, i) && i < ENTRIES {
      assert MidRow(mem, role, a, sp, i);
    }
    forall k | k in sp.low ensures DeadLow(mem, role', sp, k) && k / 512 in sp.mid {
      assert LowRow(mem, role, a, sp, k);
    }
  }

  predicate Tagged(r: Role, g: nat, sp: Space) {
    r.Dead? ==>
      match r.level
      case 0 => r.at in sp.low && sp.low[r.at] == g
      case 1 => r.at in sp.mid && sp.mid[r.at] == g
      case _ => r == Dead(2, 0) && sp.root == g
  }

  // ---- freewalk ---------------------------------------------------------------------------

  /** The tag of entry i's table. */
  function ChildTag(level: nat, at: nat, i: nat): (c: nat) {
    if level == 1 then at * 512 + i else i
  }

  /** Below the first i entries of the table page. */
  predicate Below(r: Role, level: nat, at: nat, i: nat) {
    && r.Dead?
    && (if level == 2 then (r.level == 1 && r.at < i) || (r.level == 0 && r.at / 512 < i)
        else level == 1 && r.level == 0 && r.at / 512 == at && r.at % 512 < i)
  }

  /** All that is below the table page, itself included, is free; nothing else has changed. */
  ghost predicate Freed(role: seq<Role>, mem: seq<Frame>, role': seq<Role>, mem': seq<Frame>, level: nat, at: nat) {
    && |role| == |role'| == |mem| == |mem'|
    && forall g {:trigger role'[g]} {:trigger mem'[g]} :: 0 <= g < |role| ==>
         if Under(role[g], level, at) then role'[g].Free? else role'[g] == role[g] && mem'[g] == mem[g]
  }

  /** The same for the first i entries; the table page f itself is still there. */
  ghost predicate FreedBelow(role: seq<Role>, mem: seq<Frame>, role': seq<Role>, mem': seq<Frame>, level: nat, at: nat,
                             i: nat, f: nat) {
    && |role| == |role'| == |mem| == |mem'| && f < |role| && role'[f] == role[f]
    && forall g {:trigger role'[g]} {:trigger mem'[g]} :: 0 <= g < |role| && g != f ==>
         if Below(role[g], level, at, i) then role'[g].Free? else role'[g] == role[g] && mem'[g] == mem[g]
  }

  /** The table below entry i is untouched when the ones before it have been freed. */
  lemma ChildIntact(role0: seq<Role>, mem0: seq<Frame>, role: seq<Role>, mem: seq<Frame>, sp: Space, level: nat,
                    at: nat, i: nat, f: nat)
    requires 1 <= level <= 2 && DeadSub(mem0, role0, sp, level, at) && TagsOk(role0, sp)
             && f == TheFrame(sp, level, at) && i < ENTRIES
    requires FreedBelow(role0, mem0, role, mem, level, at, i, f)
    requires if level == 2 then i in sp.mid else at * 512 + i in sp.low
    ensures DeadSub(mem, role, sp, level - 1, ChildTag(level, at, i))
    ensures TheFrame(sp, level - 1, ChildTag(level, at, i)) == if level == 2 then sp.mid[i] else sp.low[at * 512 + i]
  {
    hide DeadRoot, DeadLow, DeadMid, TagsOk, FreedBelow;
    RootTag(mem0, role0, sp, level, at, f);
    if level == 2 {
      DeadMidKept(mem0, role0, mem, role, sp, i, f);
      forall k | k in sp.low && k / 512 == i ensures DeadLow(mem, role, sp, k) {
        DeadLowKept(mem0, role0, mem, role, sp, k, f, 2, 0, i);
      }
    } else {
      assert (at * 512 + i) / 512 == at && (at * 512 + i) % 512 == i;
      DeadLowKept(mem0, role0, mem, role, sp, at * 512 + i, f, 1, at, i);
    }
  }

  lemma RootTag(mem: seq<Frame>, role: seq<Role>, sp: Space, level: nat, at: nat, f: nat)
    requires DeadSub(mem, role, sp, level, at) && f == TheFrame(sp, level, at)
    ensures f < |role| && role[f] == Dead(level, at)
  {
  }

  lemma DeadMidKept(mem0: seq<Frame>, role0: seq<Role>, mem: seq<Frame>, role: seq<Role>, sp: Space, i: nat, f: nat)
    requires DeadMid(mem0, role0, sp, i) && DeadRoot(mem0, role0, sp) && f == sp.root
             && FreedBelow(role0, mem0, role, mem, 2, 0, i, f)
    ensures DeadMid(mem, role, sp, i)
  {
  }

  lemma DeadLowKept(mem0: seq<Frame>, role0: seq<Role>, mem: seq<Frame>, role: seq<Role>, sp: Space, k: nat, f: nat,
                    level: nat, at: nat, i: nat)
    requires DeadLow(mem0, role0, sp, k) && FreedBelow(role0, mem0, role, mem, level, at, i, f)
             && !Below(Dead(0, k), level, at, i)
    requires f < |role0| && role0[f] != Dead(0, k)
    ensures DeadLow(mem, role, sp, k)
  {
  }

  lemma OneMoreFreed(role0: seq<Role>, mem0: seq<Frame>, role1: seq<Role>, mem1: seq<Frame>, role: seq<Role>,
                     mem: seq<Frame>, sp: Space,
                     level: nat, at: nat, i: nat, f: nat)
    requires 1 <= level <= 2 && DeadSub(mem0, role0, sp, level, at) && TagsOk(role0, sp)
             && f == TheFrame(sp, level, at) && i < ENTRIES
    requires FreedBelow(role0, mem0, role1, mem1, level, at, i, f)
             && Freed(role1, mem1, role, mem, level - 1, ChildTag(level, at, i))
    ensures FreedBelow(role0, mem0, role, mem, level, at, i + 1, f) && mem[f] == mem1[f]
  {
    var c := ChildTag(level, at, i);
    forall g | 0 <= g < |role0|
      ensures Below(role0[g], level, at, i + 1) <==> Below(role0[g], level, at, i) || Under(role0[g], level - 1, c)
    {
    }
  }

  lemma NoneBelow(role0: seq<Role>, mem0: seq<Frame>, role: seq<Role>, mem: seq<Frame>, sp: Space, level: nat, at: nat,
                  i: nat, f: nat)
    requires DeadSub(mem0, role0, sp, level, at) && TagsOk(role0, sp) && f == TheFrame(sp, level, at) && i < ENTRIES
    requires FreedBelow(role0, mem0, role, mem, level, at, i, f)
    requires level == 2 ==> i !in sp.mid
    requires level == 1 ==> at * 512 + i !in sp.low
    ensures FreedBelow(role0, mem0, role, mem, level, at, i + 1, f)
  {
    forall g | 0 <= g < |role0| ensures Below(role0[g], level, at, i + 1) <==> Below(role0[g], level, at, i) {
      assert Tagged(role0[g], g, sp);
    }
  }

  lemma AllFreed(role0: seq<Role>, mem0: seq<Frame>, role: seq<Role>, mem: seq<Frame>, sp: Space, level: nat, at: nat,
                 f: nat)
    requires DeadSub(mem0, role0, sp, level, at) && TagsOk(role0, sp) && f == TheFrame(sp, level, at)
    requires FreedBelow(role0, mem0, role, mem, level, at, ENTRIES, f)
    ensures f < |role| && role[f] == Dead(level, at)
            && Freed(role0, mem0, role[f := Free], mem[f := JUNK_FREE], level, at)
  {
    forall g | 0 <= g < |role0| ensures Under(role0[g], level, at) <==> Below(role0[g], level, at, ENTRIES) || g == f {
      assert Tagged(role0[g], g, sp);
    }
  }

  lemma TagsKept(role: seq<Role>, role': seq<Role>, sp: Space)
    requires TagsOk(role, sp) && |role'| == |role| && forall g :: 0 <= g < |role| ==>
               role'[g] == role[g] || role'[g].Free?
    ensures TagsOk(role', sp)
  {
  }

  /** Writing into a dead table page concerns no address space. */
  lemma DeadWrite(mem: seq<Frame>, role: seq<Role>, freelist: seq<nat>, spaces: Spaces, f: nat, fr: Frame)
    requires World(mem, role, freelist, spaces) && f < |role| && role[f].Dead?
    ensures World(mem[f := fr], role, freelist, spaces)
  {
    hide FreeOk, RoleOk;
    forall b | b in spaces ensures SpaceOk(mem[f := fr], role, b, spaces[b]) {
      assert SpaceOk(mem, role, b, spaces[b]);
      SpaceKept(mem, role, mem[f := fr], role, b, spaces[b]);
    }
  }

  /** freewalk: every table page from f down is given back; the "freewalk: leaf" panic is not reached. */
  method Freewalk(m: Memory, f: nat, ghost level: nat, ghost at: nat, ghost sp: Space) returns (ok: bool)
    requires m.Valid() && DeadSub(m.mem, m.role, sp, level, at) && TagsOk(m.role, sp) && f == TheFrame(sp, level, at)
    modifies m
    ensures ok && m.Valid() && m.spaces == old(m.spaces) && TagsOk(m.role, sp)
    ensures Freed(old(m.role), old(m.mem), m.role, m.mem, level, at)
    decreases level
  {
    hide World, DeadSub, TagsOk, Freed, FreedBelow, PtrTo;
    ghost var role0, mem0 := m.role, m.mem;
    ok := true;
    Start(m.mem, m.role, sp, level, at, f);
    var i := 0;
    while i < ENTRIES
      invariant m.Valid() && 0 <= i <= ENTRIES && ok && m.spaces == old(m.spaces) && TagsOk(m.role, sp)
      invariant FreedBelow(role0, mem0, m.role, m.mem, level, at, i, f)
      invariant IsTable(m.mem, f) && IsTable(mem0, f) && forall j :: i <= j < ENTRIES ==> m.mem[f].e[j] == mem0[f].e[j]
    {
      EntryIs(mem0, role0, sp, level, at, f, i);
      var e := m.mem[f].e[i];
      if e.Ptr? {
        ghost var role1, mem1 := m.role, m.mem;
        ChildIntact(role0, mem0, m.role, m.mem, sp, level, at, i, f);
        var fine := Freewalk(m, e.frame, level - 1, ChildTag(level, at, i), sp);
        ok := ok && fine;
        OneMoreFreed(role0, mem0, role1, mem1, m.role, m.mem, sp, level, at, i, f);
        Entered(role0, mem0, m.role, m.mem, sp, level, at, i, f);
        DeadWrite(m.mem, m.role, m.freelist, m.spaces, f, Ptes(m.mem[f].e[i := Zero]));
        ghost var mem2 := m.mem;
        m.mem := m.mem[f := Ptes(m.mem[f].e[i := Zero])];
        SelfWrite(role0, mem0, m.role, mem2, m.mem, level, at, i + 1, f);
      } else {
        NoneBelow(role0, mem0, m.role, m.mem, sp, level, at, i, f);
        ok := ok && e.Zero?;
      }
      i := i + 1;
    }
    AllFreed(role0, mem0, m.role, m.mem, sp, level, at, f);
    TagsKept(m.role, m.role[f := Free], sp);
    m.Kfree(f);
  }

  lemma Start(mem: seq<Frame>, role: seq<Role>, sp: Space, level: nat, at: nat, f: nat)
    requires DeadSub(mem, role, sp, level, at) && f == TheFrame(sp, level, at)
    ensures IsTable(mem, f) && FreedBelow(role, mem, role, mem, level, at, 0, f)
  {
  }

  lemma EntryIs(mem: seq<Frame>, role: seq<Role>, sp: Space, level: nat, at: nat, f: nat, i: nat)
    requires DeadSub(mem, role, sp, level, at) && f == TheFrame(sp, level, at) && i < ENTRIES
    ensures level <= 2 && IsTable(mem, f) && (mem[f].e[i].Ptr? || mem[f].e[i].Zero?)
    ensures mem[f].e[i].Ptr? ==>
              && 1 <= level && (if level == 2 then i in sp.mid && sp.mid[i] == mem[f].e[i].frame
                                else at * 512 + i in sp.low && sp.low[at * 512 + i] == mem[f].e[i].frame)
    ensures !mem[f].e[i].Ptr? ==> (level == 2 ==> i !in sp.mid) && (level == 1 ==> at * 512 + i !in sp.low)
  {
  }

  lemma Entered(role0: seq<Role>, mem0: seq<Frame>, role: seq<Role>, mem: seq<Frame>, sp: Space, level: nat, at: nat,
                i: nat, f: nat)
    requires DeadSub(mem0, role0, sp, level, at) && f == TheFrame(sp, level, at)
             && FreedBelow(role0, mem0, role, mem, level, at, i + 1, f)
    ensures f < |role| && role[f].Dead?
  {
  }

  lemma SelfWrite(role0: seq<Role>, mem0: seq<Frame>, role: seq<Role>, mem: seq<Frame>, mem': seq<Frame>, level: nat,
                  at: nat, i: nat, f: nat)
    requires FreedBelow(role0, mem0, role, mem, level, at, i, f) && |mem'| == |mem| && f < |mem|
             && mem' == mem[f := mem'[f]]
    ensures FreedBelow(role0, mem0, role, mem', level, at, i, f)
  {
  }
}
