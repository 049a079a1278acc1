/** The process table: fork, exit, wait and dispatch, in every interleaving on any number of harts.

    A process's own lock is held across a context switch (`held`); every other critical section of
    such a lock is one step. wait_lock is held over many steps, so exit and wait interleave with
    everything that does not need it. */
module ProcessForest {
  datatype RunState = UNUSED | USED | SLEEPING | RUNNABLE | RUNNING | ZOMBIE
  datatype Chan = NoChan | OwnSlot | Other

  /** Where a process is in the kernel. */
  datatype Pc =
    | User                           // anywhere that concerns neither fork, exit nor wait
    | Allocated(n: nat)              // in fork, slot n allocated, its parent not set
    | Linked(n: nat)                 // in fork, parent set, child not yet runnable
    | Reparenting(i: nat, owe: bool) // in exit; owe: has just passed child i to init, wakeup due
    | Announced                      // in exit, has woken its parent
    | Gone                           // in exit, a zombie
    | Scanning(i: nat, kids: bool)   // in wait, looking at slot i
    | Settled                        // in wait, has children but no zombie and was not killed; about to sleep
    | Dropped                        // in wait, has released wait_lock to sleep
    | Away                           // in wait, asleep or woken
    | Regain                         // in wait, wants wait_lock again

  datatype Slot = Slot(state: RunState, parent: int, pid: nat, chan: Chan, pc: Pc, on: int, held: bool, killed: bool)

  /** A zombie collected: its pid, and the slot of the process that collected it. */
  datatype Reap = Reap(pid: nat, slot: nat, collector: nat)

  datatype System = System(slots: seq<Slot>, harts: seq<int>, waitLock: int, nextpid: nat, reaped: seq<Reap>)

  const INIT := 0
  const FREE := Slot(UNUSED, -1, 0, NoChan, User, -1, false, false)

  datatype Action =
    | Dispatch(h: nat) | Land | SwitchOff | Yield | SleepOther | WakeOther | Kill
    | ForkAlloc(n: nat) | ForkFail | ForkLink | ForkReady
    | ExitBegin | ExitScan | ExitWakeInit | ExitWakeParent | ExitZombie
    | WaitBegin | WaitScan(fault: bool) | WaitEnd | WaitSleep | WaitMark | WaitAgain

  /** Slot q after wakeup on its own address. */
  function Woken(q: Slot): (r: Slot) {
    if q.state.SLEEPING? && q.chan.OwnSlot? then q.(state := RUNNABLE) else q
  }

  predicate Executing(q: Slot) {
    q.state.RUNNING? && q.on >= 0 && !q.held
  }

  /** When process p, or a hart on it, can take a step. */
  ghost predicate Enabled(s: System, p: nat, a: Action)
    requires p < |s.slots| && |s.slots| > 0
  {
    var me := s.slots[p];
    match a
    case Dispatch(h) => h < |s.harts| && s.harts[h] == -1 && me.state.RUNNABLE? && !me.held
    case Land => me.state.RUNNING? && me.held && !me.pc.Dropped?
    case SwitchOff => me.held && !me.state.RUNNING? && 0 <= me.on < |s.harts|
    case Yield => Executing(me) && s.waitLock != p
    case SleepOther => Executing(me) && me.pc.User?
    case WakeOther => me.state.SLEEPING? && me.chan.Other? && !me.held
    case Kill => !me.state.UNUSED? && !me.held
    case ForkAlloc(n) => Executing(me) && me.pc.User? && n < |s.slots| && s.slots[n].state.UNUSED? && !s.slots[n].held
    case ForkFail => Executing(me) && me.pc.User?
    case ForkLink => Executing(me) && me.pc.Allocated? && s.waitLock == -1 && me.pc.n < |s.slots|
    case ForkReady => Executing(me) && me.pc.Linked? && me.pc.n < |s.slots| && !s.slots[me.pc.n].held
    case ExitBegin => Executing(me) && me.pc.User? && p != INIT && s.waitLock == -1
    case ExitScan => Executing(me) && me.pc.Reparenting? && !me.pc.owe && me.pc.i < |s.slots|
    case ExitWakeInit => Executing(me) && me.pc.Reparenting? && me.pc.owe && !s.slots[INIT].held
    case ExitWakeParent =>
      && Executing(me) && me.pc.Reparenting? && !me.pc.owe && me.pc.i == |s.slots|
      && (0 <= me.parent < |s.slots| && me.parent != p ==> !s.slots[me.parent].held)
    case ExitZombie => Executing(me) && me.pc.Announced?
    case WaitBegin => Executing(me) && me.pc.User? && s.waitLock == -1
    case WaitScan(_) => Executing(me) && me.pc.Scanning? && me.pc.i < |s.slots|
         && (s.slots[me.pc.i].parent == p ==> !s.slots[me.pc.i].held)
    case WaitEnd => Executing(me) && me.pc.Scanning? && me.pc.i == |s.slots|
    case WaitSleep => Executing(me) && me.pc.Settled?
    case WaitMark => me.state.RUNNING? && me.on >= 0 && me.held && me.pc.Dropped?
    case WaitAgain => Executing(me) && me.pc.Regain? && s.waitLock == -1
  }

  /** What a step does: slot c becomes `other` (c == p when no other slot is touched), then slot p
      becomes `me`, and wait_lock passes to `lock`. */
  datatype Effect = Effect(c: nat, other: Slot, me: Slot, lock: int)

  predicate Collects(s: System, p: nat, a: Action)
    requires p < |s.slots|
  {
    var me := s.slots[p];
    a.WaitScan? && !a.fault && me.pc.Scanning? && me.pc.i < |s.slots| && s.slots[me.pc.i].parent == p
      && s.slots[me.pc.i].state.ZOMBIE?
  }

  ghost function EffectOf(s: System, p: nat, a: Action): (e: Effect)
    requires p < |s.slots| && Enabled(s, p, a)
    ensures e.c < |s.slots|
  {
    var me, lock := s.slots[p], s.waitLock;
    match a
    case Dispatch(h) => Effect(p, me, me.(state := RUNNING, on := h, held := true), lock)
    case Land => Effect(p, me, me.(held := false, chan := NoChan, pc := if me.pc.Away? then Regain else me.pc), lock)
    case SwitchOff => Effect(p, me, me.(on := -1, held := false), lock)
    case Yield => Effect(p, me, me.(state := RUNNABLE, held := true), lock)
    case SleepOther => Effect(p, me, me.(state := SLEEPING, chan := Other, held := true), lock)
    case WakeOther => Effect(p, me, me.(state := RUNNABLE), lock)
    case Kill => Effect(p, me, me.(killed := true, state := if me.state.SLEEPING? then RUNNABLE else me.state), lock)
    case ForkAlloc(n) => Effect(n, s.slots[n].(state := USED, pid := s.nextpid), me.(pc := Allocated(n)), lock)
    case ForkFail => Effect(p, me, me, lock)
    case ForkLink => Effect(me.pc.n, s.slots[me.pc.n].(parent := p), me.(pc := Linked(me.pc.n)), lock)
    case ForkReady => Effect(me.pc.n, s.slots[me.pc.n].(state := RUNNABLE), me.(pc := User), lock)
    case ExitBegin => Effect(p, me, me.(pc := Reparenting(0, false)), p)
    case ExitScan =>
      if s.slots[me.pc.i].parent == p then Effect(me.pc.i, s.slots[me.pc.i].(parent := INIT),
                                                  me.(pc := Reparenting(me.pc.i, true)), lock)
      else Effect(p, me, me.(pc := Reparenting(me.pc.i + 1, false)), lock)
    case ExitWakeInit => Effect(INIT, Woken(s.slots[INIT]), me.(pc := Reparenting(me.pc.i + 1, false)), lock)
    case ExitWakeParent =>
      if 0 <= me.parent < |s.slots| && me.parent != p
        then Effect(me.parent, Woken(s.slots[me.parent]), me.(pc := Announced), lock)
      else Effect(p, me, me.(pc := Announced), lock)
    case ExitZombie => Effect(p, me, me.(state := ZOMBIE, held := true, pc := Gone), -1)
    case WaitBegin => Effect(p, me, me.(pc := Scanning(0, false)), p)
    case WaitScan(_) =>
      if s.slots[me.pc.i].parent != p then Effect(p, me, me.(pc := Scanning(me.pc.i + 1, me.pc.kids)), lock)
      else if !s.slots[me.pc.i].state.ZOMBIE? then Effect(p, me, me.(pc := Scanning(me.pc.i + 1, true)), lock)
      else if Collects(s, p, a) then Effect(me.pc.i, FREE, me.(pc := User), -1)
      else Effect(p, me, me.(pc := User), -1)
    case WaitEnd =>
      if !me.pc.kids || me.killed then Effect(p, me, me.(pc := User), -1)
      else Effect(p, me, me.(pc := Settled), lock)
    case WaitSleep => Effect(p, me, me.(pc := Dropped, held := true), -1)
    case WaitMark => Effect(p, me, me.(state := SLEEPING, chan := OwnSlot, pc := Away), lock)
    case WaitAgain => Effect(p, me, me.(pc := Scanning(0, false)), p)
  }

  ghost function SlotsAfter(s: System, p: nat, e: Effect): (slots: seq<Slot>)
    requires p < |s.slots| && e.c < |s.slots|
    ensures |slots| == |s.slots| && slots[p] == e.me && (e.c != p ==> slots[e.c] == e.other)
    ensures forall q :: 0 <= q < |s.slots| && q != p && q != e.c ==> slots[q] == s.slots[q]
  {
    s.slots[e.c := e.other][p := e.me]
  }

  ghost predicate Step(s: System, t: System, p: nat, a: Action) {
    && p < |s.slots| && Enabled(s, p, a)
    && var e := EffectOf(s, p, a);
    && t.slots == SlotsAfter(s, p, e) && t.waitLock == e.lock
    && t.harts == (if a.Dispatch? then s.harts[a.h := p] else if a.SwitchOff? then
                     s.harts[s.slots[p].on := -1] else s.harts)
    && t.nextpid == (if a.ForkAlloc? || a.ForkFail? then s.nextpid + 1 else s.nextpid)
    && t.reaped == (if Collects(s, p, a) then s.reaped + [Reap(s.slots[e.c].pid, e.c, p)] else s.reaped)
  }

  // ---- what every step keeps -------------------------------------------------------

  predicate HoldsWaitLock(pc: Pc) {
    pc.Reparenting? || pc.Announced? || pc.Scanning? || pc.Settled?
  }

  /** A slot by itself. */
  predicate SlotOk(q: Slot, p: nat, n: nat) {
    && -1 <= q.parent < n && q.parent != p && -1 <= q.on
    && (q.held ==> q.on >= 0)
    && (q.on >= 0 <==> q.state.RUNNING? || q.held)
    && (q.state.UNUSED? ==> q == FREE)
    && (q.state.USED? ==> q.pc.User? && q.chan.NoChan? && !q.held)
    && (q.state.ZOMBIE? <==> q.pc.Gone?)
    && (HoldsWaitLock(q.pc) ==> Executing(q))
    && (q.pc.Dropped? ==> q.state.RUNNING? && q.held)
    && (q.pc.Away? ==> q.chan.OwnSlot? && (!q.state.RUNNING? || q.held))
    && (q.state.SLEEPING? && q.chan.OwnSlot? ==> q.pc.Away?)
    && (p == INIT ==> q.parent == -1 && !q.state.UNUSED? && !q.state.USED? && !q.pc.Gone? && !q.pc.Reparenting?
                      && !q.pc.Announced?)
  }

  /** Running, runnable or asleep. */
  predicate Alive(q: Slot) {
    q.state.SLEEPING? || q.state.RUNNABLE? || q.state.RUNNING?
  }

  ghost predicate Shape(s: System) {
    && |s.slots| > 0
    && (forall p {:trigger s.slots[p]} :: 0 <= p < |s.slots| ==> SlotOk(s.slots[p], p, |s.slots|))
    && (forall p {:trigger s.slots[p]} :: 0 <= p < |s.slots| ==> (HoldsWaitLock(s.slots[p].pc) <==> s.waitLock == p))
    && -1 <= s.waitLock < |s.slots|
  }

  /** A hart runs a slot exactly when the slot is on it. */
  ghost predicate HartsOk(s: System) {
    && (forall h :: 0 <= h < |s.harts| ==> -1 <= s.harts[h] < |s.slots|
                                           && (s.harts[h] >= 0 ==> s.slots[s.harts[h]].on == h))
    && (forall p :: 0 <= p < |s.slots| && s.slots[p].on >= 0 ==>
        s.slots[p].on < |s.harts| && s.harts[s.slots[p].on] == p)
  }

  predicate Forks(pc: Pc, n: nat) {
    (pc.Allocated? || pc.Linked?) && pc.n == n
  }

  ghost predicate ParentsAlive(slots: seq<Slot>) {
    forall c {:trigger slots[c]} :: 0 <= c < |slots| && slots[c].parent >= 0 ==>
        slots[c].parent < |slots| && Alive(slots[slots[c].parent])
  }

  /** A slot being forked has exactly one forker. */
  ghost predicate ForkersOk(slots: seq<Slot>) {
    && (forall p, n: nat {:trigger Forks(slots[p].pc, n)} :: 0 <= p < |slots| && Forks(slots[p].pc, n) ==>
          n < |slots| && slots[n].state.USED? && slots[n].parent == if slots[p].pc.Linked? then p else -1)
    && (forall c {:trigger slots[c]} :: 0 <= c < |slots| && slots[c].state.USED? && slots[c].parent >= 0 ==>
          slots[c].parent < |slots| && slots[slots[c].parent].pc == Linked(c))
    && (forall p, q, n: nat {:trigger Forks(slots[p].pc, n), Forks(slots[q].pc, n)} ::
          0 <= p < |slots| && 0 <= q < |slots| && Forks(slots[p].pc, n) && Forks(slots[q].pc, n) ==> p == q)
  }

  /** An exiting process keeps no child behind. */
  ghost predicate NoneLeft(slots: seq<Slot>) {
    forall p, c {:trigger Past(slots[p].pc, c)} :: 0 <= p < |slots| && 0 <= c < |slots| && slots[c].parent == p ==>
        !Past(slots[p].pc, c)
  }

  ghost predicate ForestOk(s: System) {
    ParentsAlive(s.slots) && ForkersOk(s.slots) && NoneLeft(s.slots)
  }

  /** The exiting process has dealt with slot c: it is no child of its any more. */
  predicate Past(pc: Pc, c: nat) {
    (pc.Reparenting? && (c < pc.i || (c == pc.i && pc.owe))) || pc.Announced?
  }

  /** In wait and bound to sleep until someone wakes it. */
  predicate Committed(q: Slot) {
    q.pc.Dropped? || (q.pc.Away? && q.state.SLEEPING?)
  }

  predicate OwesInit(s: System) {
    0 <= s.waitLock < |s.slots| && s.slots[s.waitLock].pc.Reparenting? && s.slots[s.waitLock].pc.owe
  }

  /** No waiter misses a zombie child, but for init while an exiting process is about to wake it. */
  ghost predicate WaitOk(s: System) {
    && (forall c {:trigger s.slots[c]} :: 0 <= c < |s.slots| && s.slots[c].state.ZOMBIE?
                                          && 0 <= s.slots[c].parent < |s.slots| ==>
          var p := s.slots[c].parent;
          && (Committed(s.slots[p]) ==> p == INIT && OwesInit(s))
          && (s.slots[p].pc.Scanning? ==> c >= s.slots[p].pc.i) && !s.slots[p].pc.Settled?)
    && (forall c {:trigger s.slots[c]} :: 0 <= c < |s.slots| && s.slots[c].pc.Announced?
                                          && 0 <= s.slots[c].parent < |s.slots| ==>
          !Committed(s.slots[s.slots[c].parent]))
  }

  /** Some slot below i has parent p. */
  ghost predicate HasChild(slots: seq<Slot>, p: int, i: nat) {
    exists c :: 0 <= c < i && c < |slots| && slots[c].parent == p
  }

  /** In wait, between deciding to sleep and being awake again. */
  predicate Waits(pc: Pc) {
    pc.Settled? || pc.Dropped? || pc.Away?
  }

  /** havekids is exact, and nobody sleeps in wait without a child. */
  ghost predicate KidsOk(slots: seq<Slot>) {
    forall p {:trigger slots[p]} :: 0 <= p < |slots| ==>
      && (slots[p].pc.Scanning? ==> (slots[p].pc.kids <==> HasChild(slots, p, slots[p].pc.i)))
      && (Waits(slots[p].pc) ==> HasChild(slots, p, |slots|))
  }

  /** Pids in use are distinct, fresh ones are larger, and no pid is collected twice. */
  ghost predicate PidsOk(s: System) {
    && (forall p {:trigger s.slots[p]} :: 0 <= p < |s.slots| && !s.slots[p].state.UNUSED? ==>
        s.slots[p].pid < s.nextpid)
    && (forall p, q {:trigger s.slots[p], s.slots[q]} :: 0 <= p < |s.slots| && 0 <= q < |s.slots| ==>
          (!s.slots[p].state.UNUSED? && !s.slots[q].state.UNUSED? && s.slots[p].pid == s.slots[q].pid ==> p == q))
    && (forall k :: 0 <= k < |s.reaped| ==> s.reaped[k].pid < s.nextpid)
    && (forall k, p {:trigger s.reaped[k], s.slots[p]} :: 0 <= k < |s.reaped| && 0 <= p < |s.slots|
                                                          && !s.slots[p].state.UNUSED? ==>
          s.reaped[k].pid != s.slots[p].pid)
    && (forall j, k :: 0 <= j < k < |s.reaped| ==> s.reaped[j].pid != s.reaped[k].pid)
  }

  ghost predicate Inv(s: System) {
    Shape(s) && HartsOk(s) && ForestOk(s) && WaitOk(s) && KidsOk(s.slots) && PidsOk(s)
  }

  // ---- the table of effects, one property at a time -----------------------------------

  predicate ForkAction(a: Action) {
    a.ForkAlloc? || a.ForkFail? || a.ForkLink? || a.ForkReady?
  }

  predicate ExitAction(a: Action) {
    a.ExitBegin? || a.ExitScan? || a.ExitWakeInit? || a.ExitWakeParent? || a.ExitZombie?
  }

  predicate WaitAction(a: Action) {
    a.WaitBegin? || a.WaitScan? || a.WaitEnd? || a.WaitSleep? || a.WaitMark? || a.WaitAgain?
  }

  /** What an effect keeps of the two slots it touches, and of wait_lock. */
  ghost predicate GoodShape(s: System, p: nat, e: Effect)
    requires p < |s.slots| && e.c < |s.slots|
  {
    && SlotOk(e.me, p, |s.slots|) && (HoldsWaitLock(e.me.pc) <==> e.lock == p)
    && (e.lock != s.waitLock ==> (s.waitLock == -1 || s.waitLock == p) && (e.lock == -1 || e.lock == p))
    && (e.c != p ==> SlotOk(e.other, e.c, |s.slots|)
                     && (HoldsWaitLock(e.other.pc) <==> HoldsWaitLock(s.slots[e.c].pc)))
  }

  /** The steps of dispatch, sleep and wakeup that concern one slot only. */
  lemma RunShape(s: System, p: nat, a: Action)
    requires Shape(s) && p < |s.slots| && Enabled(s, p, a) && !ForkAction(a) && !ExitAction(a) && !WaitAction(a)
    ensures GoodShape(s, p, EffectOf(s, p, a))
  {
    assert SlotOk(s.slots[p], p, |s.slots|);
  }

  lemma ForkShape(s: System, p: nat, a: Action)
    requires Shape(s) && ForkersOk(s.slots) && p < |s.slots| && Enabled(s, p, a) && ForkAction(a)
    ensures GoodShape(s, p, EffectOf(s, p, a))
  {
    assert SlotOk(s.slots[p], p, |s.slots|);
    var c := EffectOf(s, p, a).c;
    assert SlotOk(s.slots[c], c, |s.slots|);
    assert Forks(s.slots[p].pc, c) || !(a.ForkLink? || a.ForkReady?);
  }

  lemma ExitShape(s: System, p: nat, a: Action)
    requires Shape(s) && ForestOk(s) && p < |s.slots| && Enabled(s, p, a) && ExitAction(a)
    ensures GoodShape(s, p, EffectOf(s, p, a))
  {
    assert SlotOk(s.slots[p], p, |s.slots|);
    assert SlotOk(s.slots[INIT], INIT, |s.slots|);
    var c := EffectOf(s, p, a).c;
    assert SlotOk(s.slots[c], c, |s.slots|);
  }

  lemma WaitShape(s: System, p: nat, a: Action)
    requires Shape(s) && p < |s.slots| && Enabled(s, p, a) && WaitAction(a)
    ensures GoodShape(s, p, EffectOf(s, p, a))
  {
    assert SlotOk(s.slots[p], p, |s.slots|);
    var c := EffectOf(s, p, a).c;
    assert SlotOk(s.slots[c], c, |s.slots|);
  }

  lemma ShapeFacts(s: System, p: nat, a: Action)
    requires Shape(s) && ForestOk(s) && p < |s.slots| && Enabled(s, p, a)
    ensures GoodShape(s, p, EffectOf(s, p, a))
  {
    hide Shape, Enabled, EffectOf, GoodShape;
    if ForkAction(a) {
      ForkShape(s, p, a);
    } else if ExitAction(a) {
      ExitShape(s, p, a);
    } else if WaitAction(a) {
      WaitShape(s, p, a);
    } else {
      RunShape(s, p, a);
    }
  }

  lemma StepKeepsShape(s: System, t: System, p: nat, a: Action)
    requires Shape(s) && ForestOk(s) && Step(s, t, p, a)
    ensures Shape(t) && |t.slots| == |s.slots|
  {
    hide Enabled, EffectOf, SlotsAfter, SlotOk, HoldsWaitLock, ForestOk;
    ShapeFacts(s, p, a);
    forall q | 0 <= q < |t.slots|
      ensures SlotOk(t.slots[q], q, |t.slots|) && (HoldsWaitLock(t.slots[q].pc) <==> t.waitLock == q)
    {
      assert SlotOk(s.slots[q], q, |s.slots|);
    }
  }

  lemma HartFacts(s: System, p: nat, a: Action)
    requires Shape(s) && p < |s.slots| && Enabled(s, p, a)
    ensures var e := EffectOf(s, p, a);
            && e.me.on == (if a.Dispatch? then a.h else if a.SwitchOff? then -1 else s.slots[p].on)
            && (a.Dispatch? ==> s.slots[p].on == -1 && a.h < |s.harts| && s.harts[a.h] == -1)
            && (a.SwitchOff? ==> 0 <= s.slots[p].on < |s.harts|)
            && (e.c != p ==> e.other.on == s.slots[e.c].on)
  {
    assert SlotOk(s.slots[p], p, |s.slots|);
    assert SlotOk(s.slots[EffectOf(s, p, a).c], EffectOf(s, p, a).c, |s.slots|);
  }

  lemma StepKeepsHarts(s: System, t: System, p: nat, a: Action)
    requires Shape(s) && HartsOk(s) && Step(s, t, p, a)
    ensures HartsOk(t)
  {
    hide Enabled, EffectOf, SlotsAfter, SlotOk, Shape, Collects;
    HartFacts(s, p, a);
  }

  lemma PidFacts(s: System, p: nat, a: Action)
    requires Shape(s) && ForestOk(s) && p < |s.slots| && Enabled(s, p, a)
    ensures var e := EffectOf(s, p, a);
            && e.me.pid == s.slots[p].pid && !e.me.state.UNUSED? && !s.slots[p].state.UNUSED?
            && (e.c != p && a.ForkAlloc? ==> s.slots[e.c].state.UNUSED? && e.other.pid == s.nextpid)
            && (e.c != p && Collects(s, p, a) ==> e.other.state.UNUSED? && s.slots[e.c].state.ZOMBIE?)
            && (e.c != p && !Collects(s, p, a) && !a.ForkAlloc? ==>
                  e.other.pid == s.slots[e.c].pid && (!e.other.state.UNUSED? ==> !s.slots[e.c].state.UNUSED?))
            && (Collects(s, p, a) ==> e.c != p)
  {
    assert SlotOk(s.slots[p], p, |s.slots|);
    var c := EffectOf(s, p, a).c;
    assert SlotOk(s.slots[c], c, |s.slots|);
    assert Forks(s.slots[p].pc, c) || !(a.ForkLink? || a.ForkReady?);
  }

  lemma StepKeepsPids(s: System, t: System, p: nat, a: Action)
    requires Shape(s) && PidsOk(s) && ForestOk(s) && Step(s, t, p, a)
    ensures PidsOk(t)
  {
    hide Enabled, EffectOf, SlotsAfter, SlotOk, Shape, Collects, ForestOk;
    PidFacts(s, p, a);
  }

  /** How parents and life change in one step. */
  lemma LifeFacts(s: System, p: nat, a: Action)
    requires Shape(s) && p < |s.slots| && Enabled(s, p, a)
    ensures var e, was := EffectOf(s, p, a), s.slots[p];
            && e.me.parent == was.parent && e.me.state.USED? == was.state.USED? && !was.state.UNUSED?
            && (was.state.USED? ==> a.Kill?)
            && (a.ForkLink? ==> Alive(e.me)) && (Alive(was) ==> Alive(e.me) || (a.ExitZombie? && was.pc.Announced?))
  {
    assert SlotOk(s.slots[p], p, |s.slots|);
  }

  /** How forking changes. */
  lemma ForkFacts(s: System, p: nat, a: Action)
    requires Shape(s) && ForkersOk(s.slots) && p < |s.slots| && Enabled(s, p, a)
    ensures var e, was := EffectOf(s, p, a), s.slots[p];
            && (forall n: nat :: Forks(e.me.pc, n) ==>
                  || (Forks(was.pc, n) && (e.c != p ==> a.ForkLink? && n == e.c)
                      && e.me.pc.Linked? == (was.pc.Linked? || e.c != p))
                  || (a.ForkAlloc? && n == e.c && e.me.pc.Allocated? && e.c != p))
            && (a.ForkLink? ==> e.me.pc == Linked(e.c)) && (was.pc.Linked? && !a.ForkReady? ==> e.me.pc == was.pc)
            && (a.ForkReady? ==> e.c != p && was.pc == Linked(e.c))
  {
    assert SlotOk(s.slots[p], p, |s.slots|);
    assert Forks(s.slots[p].pc, EffectOf(s, p, a).c) || !(a.ForkLink? || a.ForkReady?);
  }

  /** How reparenting gets on. */
  lemma PastFacts(s: System, p: nat, a: Action)
    requires Shape(s) && p < |s.slots| && Enabled(s, p, a)
    ensures var e, was := EffectOf(s, p, a), s.slots[p];
            forall x :: 0 <= x < |s.slots| && Past(e.me.pc, x) ==>
                Past(was.pc, x) || (a.ExitScan? && was.pc.Reparenting? && x == was.pc.i
                                    && ((e.c == x && x != p) || s.slots[x].parent != p))
  {
    assert SlotOk(s.slots[p], p, |s.slots|);
  }

  /** How parents, life, forking and reparenting change in one step. */
  lemma ForestFacts(s: System, p: nat, a: Action)
    requires Shape(s) && ForestOk(s) && p < |s.slots| && Enabled(s, p, a)
    ensures var e, was := EffectOf(s, p, a), s.slots[p];
            && e.me.parent == was.parent && e.me.state.USED? == was.state.USED? && !was.state.UNUSED?
            && (was.state.USED? ==> a.Kill?)
            && (a.ForkLink? ==> Alive(e.me)) && (Alive(was) ==> Alive(e.me) || (a.ExitZombie? && was.pc.Announced?))
            && (forall n: nat :: Forks(e.me.pc, n) ==>
                  || (Forks(was.pc, n) && (e.c != p ==> a.ForkLink? && n == e.c)
                      && e.me.pc.Linked? == (was.pc.Linked? || e.c != p))
                  || (a.ForkAlloc? && n == e.c && e.me.pc.Allocated? && e.c != p))
            && (forall x :: 0 <= x < |s.slots| && Past(e.me.pc, x) ==>
                Past(was.pc, x) || (a.ExitScan? && was.pc.Reparenting? && x == was.pc.i
                                    && ((e.c == x && x != p) || s.slots[x].parent != p)))
            && (a.ForkLink? ==> e.me.pc == Linked(e.c)) && (was.pc.Linked? && !a.ForkReady? ==> e.me.pc == was.pc)
            && (a.ForkReady? ==> e.c != p && was.pc == Linked(e.c))
  {
    hide Enabled, EffectOf, Shape, ForkersOk, ParentsAlive, NoneLeft, Forks, Past, Alive;
    LifeFacts(s, p, a);
    ForkFacts(s, p, a);
    PastFacts(s, p, a);
  }

  lemma OtherFacts(s: System, p: nat, a: Action)
    requires Shape(s) && ForestOk(s) && p < |s.slots| && Enabled(s, p, a) && EffectOf(s, p, a).c != p
    ensures var e, was, other := EffectOf(s, p, a), s.slots[EffectOf(s, p, a).c], EffectOf(s, p, a).other;
            && (Alive(was) ==> Alive(other)) && (other.pc == was.pc || (Collects(s, p, a) && other.pc.User?))
            && (Collects(s, p, a) ==> was.state.ZOMBIE? && was.pc.Gone? && was.parent == p && other == FREE)
            && (if a.ForkAlloc? then was == FREE && other.state.USED? && other.parent == -1
                else if a.ForkLink? then was.parent == -1 && other.parent == p && was.state.USED? && other.state.USED?
                                         && Forks(s.slots[p].pc, e.c)
                else if a.ForkReady? then was.parent == p && other.parent == p && was.state.USED?
                                          && Forks(s.slots[p].pc, e.c) && !other.state.USED?
                else if a.ExitScan? then was.parent == p && other.parent == INIT && !was.state.USED?
                                         && !other.state.USED? && e.c == s.slots[p].pc.i && p != INIT && e.c != INIT
                else Collects(s, p, a) || (other.parent == was.parent && other.state.USED? == was.state.USED?))
  {
    assert SlotOk(s.slots[p], p, |s.slots|);
    var c := EffectOf(s, p, a).c;
    assert SlotOk(s.slots[c], c, |s.slots|);
    assert Forks(s.slots[p].pc, c) || !(a.ForkLink? || a.ForkReady?);
  }

  lemma StepKeepsParents(s: System, t: System, p: nat, a: Action)
    requires Shape(s) && ForestOk(s) && Step(s, t, p, a)
    ensures ParentsAlive(t.slots)
  {
    hide Enabled, EffectOf, SlotsAfter, Collects, Alive, SlotOk, Shape, ForkersOk;
    ForestFacts(s, p, a);
    if EffectOf(s, p, a).c != p { OtherFacts(s, p, a); }
    InitAlive(s);
    forall c | 0 <= c < |t.slots| && t.slots[c].parent >= 0
      ensures t.slots[c].parent < |t.slots| && Alive(t.slots[t.slots[c].parent])
    {
      assert s.slots[c].parent >= 0 ==> Alive(s.slots[s.slots[c].parent]);
      assert s.slots[c].parent == p ==> !Past(s.slots[p].pc, c);
    }
  }

  lemma UsedHasForker(s: System, t: System, p: nat, a: Action, c: nat)
    requires Shape(s) && ForestOk(s) && Step(s, t, p, a)
    requires c < |t.slots| && t.slots[c].state.USED? && t.slots[c].parent >= 0
    ensures t.slots[c].parent < |t.slots| && t.slots[t.slots[c].parent].pc == Linked(c)
  {
    hide Enabled, EffectOf, SlotsAfter, Collects, Alive, SlotOk, Shape, ParentsAlive, NoneLeft;
    ForestFacts(s, p, a);
    if EffectOf(s, p, a).c != p { OtherFacts(s, p, a); }
    assert s.slots[c].state.USED? && s.slots[c].parent >= 0 ==> Forks(s.slots[s.slots[c].parent].pc, c);
  }

  lemma ForkerOwns(s: System, t: System, p: nat, a: Action, q: nat, n: nat)
    requires Shape(s) && ForestOk(s) && Step(s, t, p, a) && q < |t.slots| && Forks(t.slots[q].pc, n)
    ensures n < |t.slots| && t.slots[n].state.USED? && t.slots[n].parent == if t.slots[q].pc.Linked? then q else -1
  {
    hide Enabled, EffectOf, SlotsAfter, Collects, Alive, SlotOk, Shape, ParentsAlive, NoneLeft;
    ForestFacts(s, p, a);
    if EffectOf(s, p, a).c != p { OtherFacts(s, p, a); }
    assert Forks(s.slots[q].pc, n) || (q == p && a.ForkAlloc?);
  }

  lemma StepKeepsForkers(s: System, t: System, p: nat, a: Action)
    requires Shape(s) && ForestOk(s) && Step(s, t, p, a)
    ensures ForkersOk(t.slots)
  {
    hide Enabled, EffectOf, SlotsAfter, Collects, Alive, SlotOk, Shape, ParentsAlive, NoneLeft;
    ForestFacts(s, p, a);
    if EffectOf(s, p, a).c != p { OtherFacts(s, p, a); }
    assert forall q, n: nat :: 0 <= q < |t.slots| && q != p && Forks(t.slots[q].pc, n) ==> Forks(s.slots[q].pc, n);
    forall q, n: nat | 0 <= q < |t.slots| && Forks(t.slots[q].pc, n)
      ensures n < |t.slots| && t.slots[n].state.USED? && t.slots[n].parent == if t.slots[q].pc.Linked? then q else -1
    {
      ForkerOwns(s, t, p, a, q, n);
    }
    forall c | 0 <= c < |t.slots| && t.slots[c].state.USED? && t.slots[c].parent >= 0
      ensures t.slots[c].parent < |t.slots| && t.slots[t.slots[c].parent].pc == Linked(c)
    {
      UsedHasForker(s, t, p, a, c);
    }
  }

  lemma StepKeepsNoneLeft(s: System, t: System, p: nat, a: Action)
    requires Shape(s) && ForestOk(s) && Step(s, t, p, a)
    ensures NoneLeft(t.slots)
  {
    hide Enabled, EffectOf, SlotsAfter, Collects, Alive, SlotOk, Shape, ParentsAlive;
    ForestFacts(s, p, a);
    if EffectOf(s, p, a).c != p { OtherFacts(s, p, a); }
    InitAlive(s);
    forall q, c | 0 <= q < |t.slots| && 0 <= c < |t.slots| && t.slots[c].parent == q ensures !Past(t.slots[q].pc, c) {
      assert s.slots[c].parent == q ==> !Past(s.slots[q].pc, c);
    }
  }

  lemma InitAlive(s: System)
    requires Shape(s)
    ensures Alive(s.slots[INIT]) && !s.slots[INIT].pc.Reparenting? && !s.slots[INIT].pc.Announced?
  {
    assert SlotOk(s.slots[INIT], INIT, |s.slots|);
  }

  /** How waiting changes in one step. */
  lemma WaitFacts(s: System, p: nat, a: Action)
    requires Shape(s) && ForestOk(s) && p < |s.slots| && Enabled(s, p, a)
    ensures var e, was := EffectOf(s, p, a), s.slots[p];
            && (e.me.state.ZOMBIE? ==> was.state.ZOMBIE? || was.pc.Announced?)
            && (e.me.pc.Announced? ==> was.pc.Announced? || a.ExitWakeParent?)
            && (Committed(e.me) ==> Committed(was) || was.pc.Settled?)
            && (e.me.pc.Settled? ==> was.pc.Settled? || (was.pc.Scanning? && was.pc.i == |s.slots|))
            && (e.me.pc.Scanning? ==> if e.me.pc.i == 0 || e.me.pc == was.pc then true
                  else was.pc.Scanning? && e.me.pc.i == was.pc.i + 1
                       && !(s.slots[was.pc.i].parent == p && s.slots[was.pc.i].state.ZOMBIE?))
            && (s.waitLock >= 0 && s.waitLock != p ==> e.lock == s.waitLock)
            && (s.waitLock == p && was.pc.Reparenting? && was.pc.owe ==> a.ExitWakeInit? || e.me.pc == was.pc)
            && (HoldsWaitLock(was.pc) ==> s.waitLock == p) && (e.me.pc == was.pc ==> e.lock == s.waitLock)
            && (a.ExitWakeInit? ==> e.c == INIT && p != INIT)
            && (a.ExitWakeParent? && 0 <= was.parent < |s.slots| ==> e.c == was.parent && e.c != p)
  {
    assert SlotOk(s.slots[p], p, |s.slots|);
    assert SlotOk(s.slots[INIT], INIT, |s.slots|);
  }

  lemma OtherWaits(s: System, p: nat, a: Action)
    requires Shape(s) && ForestOk(s) && p < |s.slots| && Enabled(s, p, a) && EffectOf(s, p, a).c != p
    ensures var was, other := s.slots[EffectOf(s, p, a).c], EffectOf(s, p, a).other;
            && (Committed(other) ==> Committed(was) && !a.ExitWakeInit? && !a.ExitWakeParent?)
            && (other.state.ZOMBIE? ==> was.state.ZOMBIE?)
            && (other.pc == was.pc || other == FREE)
            && (other.parent == was.parent || other == FREE
                || (a.ForkLink? && !other.state.ZOMBIE? && !other.pc.Announced?)
                || (a.ExitScan? && was.parent == p && other.parent == INIT && EffectOf(s, p, a).me.pc.Reparenting?
                    && EffectOf(s, p, a).me.pc.owe
                    && EffectOf(s, p, a).lock == p && s.waitLock == p && !was.pc.Announced?))
  {
    assert SlotOk(s.slots[p], p, |s.slots|);
    var c := EffectOf(s, p, a).c;
    assert SlotOk(s.slots[c], c, |s.slots|);
    assert Forks(s.slots[p].pc, c) || !(a.ForkLink? || a.ForkReady?);
  }

  lemma OwesKept(s: System, t: System, p: nat, a: Action)
    requires Shape(s) && ForestOk(s) && Step(s, t, p, a) && OwesInit(s) && !a.ExitWakeInit?
    ensures OwesInit(t)
  {
    hide EffectOf, SlotsAfter, Collects, ForestOk;
    WaitFacts(s, p, a);
    assert SlotOk(s.slots[s.waitLock], s.waitLock, |s.slots|);
    if EffectOf(s, p, a).c != p { OtherFacts(s, p, a); }
  }

  /** A zombie's parent is not asleep for good. */
  lemma ZombieSeen(s: System, t: System, p: nat, a: Action, c: nat)
    requires Shape(s) && ForestOk(s) && WaitOk(s) && Step(s, t, p, a)
    requires c < |t.slots| && t.slots[c].state.ZOMBIE? && 0 <= t.slots[c].parent < |t.slots|
    ensures var q := t.slots[c].parent; Committed(t.slots[q]) ==> q == INIT && OwesInit(t)
  {
    hide Enabled, EffectOf, SlotsAfter, Collects, Alive, SlotOk, ForestOk, Committed, OwesInit, Past, Forks,
         HoldsWaitLock;
    WaitFacts(s, p, a);
    if EffectOf(s, p, a).c != p { OtherWaits(s, p, a); }
    ForestFacts(s, p, a);
    if OwesInit(s) && !a.ExitWakeInit? { OwesKept(s, t, p, a); }
    if t.waitLock == p && t.slots[p].pc.Reparenting? && t.slots[p].pc.owe { JustOwed(t, p); }
  }

  /** A parent looking for zombies has not passed this one by. */
  lemma ZombieAhead(s: System, t: System, p: nat, a: Action, c: nat)
    requires Shape(s) && ForestOk(s) && WaitOk(s) && Step(s, t, p, a)
    requires c < |t.slots| && t.slots[c].state.ZOMBIE? && 0 <= t.slots[c].parent < |t.slots|
    ensures var q := t.slots[c].parent; t.slots[q].pc.Scanning? ==> c >= t.slots[q].pc.i
  {
    hide Enabled, EffectOf, SlotsAfter, Collects, Alive, SlotOk, ForestOk, Committed, OwesInit, Past, Forks;
    WaitFacts(s, p, a);
    if EffectOf(s, p, a).c != p { OtherWaits(s, p, a); }
    ForestFacts(s, p, a);
  }

  /** Nor has one that is about to sleep. */
  lemma NoZombieSettled(s: System, t: System, p: nat, a: Action, c: nat)
    requires Shape(s) && ForestOk(s) && WaitOk(s) && Step(s, t, p, a)
    requires c < |t.slots| && t.slots[c].state.ZOMBIE? && 0 <= t.slots[c].parent < |t.slots|
    ensures !t.slots[t.slots[c].parent].pc.Settled?
  {
    hide Enabled, EffectOf, SlotsAfter, Collects, Alive, SlotOk, ForestOk, Committed, OwesInit, Past, Forks;
    WaitFacts(s, p, a);
    if EffectOf(s, p, a).c != p { OtherWaits(s, p, a); }
    ForestFacts(s, p, a);
  }

  lemma JustOwed(t: System, p: nat)
    requires p < |t.slots| && t.waitLock == p && t.slots[p].pc.Reparenting? && t.slots[p].pc.owe
    ensures OwesInit(t)
  {
  }

  /** An exiting process that has woken its parent keeps it awake. */
  lemma AnnouncedHeard(s: System, t: System, p: nat, a: Action, c: nat)
    requires Shape(s) && ForestOk(s) && WaitOk(s) && Step(s, t, p, a)
    requires c < |t.slots| && t.slots[c].pc.Announced? && 0 <= t.slots[c].parent < |t.slots|
    ensures !Committed(t.slots[t.slots[c].parent])
  {
    hide Enabled, EffectOf, SlotsAfter, Collects, Alive, SlotOk, ForestOk, Committed;
    WaitFacts(s, p, a);
    if EffectOf(s, p, a).c != p { OtherWaits(s, p, a); }
    ForestFacts(s, p, a);
  }

  lemma StepKeepsWait(s: System, t: System, p: nat, a: Action)
    requires Shape(s) && ForestOk(s) && WaitOk(s) && Step(s, t, p, a)
    ensures WaitOk(t)
  {
    hide Step, Committed, OwesInit, Shape, ForestOk;
    forall c | 0 <= c < |t.slots| && 0 <= t.slots[c].parent < |t.slots|
      ensures t.slots[c].state.ZOMBIE? ==> var q := t.slots[c].parent;
                (Committed(t.slots[q]) ==> q == INIT && OwesInit(t))
                  && (t.slots[q].pc.Scanning? ==> c >= t.slots[q].pc.i) && !t.slots[q].pc.Settled?
      ensures t.slots[c].pc.Announced? ==> !Committed(t.slots[t.slots[c].parent])
    {
      if t.slots[c].state.ZOMBIE? {
        ZombieSeen(s, t, p, a, c);
        ZombieAhead(s, t, p, a, c);
        NoZombieSettled(s, t, p, a, c);
      }
      if t.slots[c].pc.Announced? { AnnouncedHeard(s, t, p, a, c); }
    }
  }

  /** How wait counts children in one step. */
  lemma KidFacts(s: System, p: nat, a: Action)
    requires Shape(s) && ForestOk(s) && p < |s.slots| && Enabled(s, p, a)
    ensures var e, was := EffectOf(s, p, a), s.slots[p];
            && (e.me.pc.Scanning? ==>
                  || e.me.pc == was.pc || e.me.pc == Scanning(0, false)
                  || (was.pc.Scanning? && was.pc.i < |s.slots|
                      && e.me.pc == Scanning(was.pc.i + 1, was.pc.kids || s.slots[was.pc.i].parent == p)))
            && (Waits(e.me.pc) ==> Waits(was.pc) || was.pc == Scanning(|s.slots|, true))
            && (a.ExitScan? ==> was.pc.Reparenting? && HoldsWaitLock(was.pc))
            && (Collects(s, p, a) ==> was.pc.Scanning? && HoldsWaitLock(was.pc) && e.me.pc.User?)
            && (a.ForkLink? ==> s.waitLock == -1 && e.me.pc.Linked?) && (a.ExitScan? ==> e.me.pc.Reparenting?)
  {
    assert SlotOk(s.slots[p], p, |s.slots|);
  }

  lemma StepKeepsKids(s: System, t: System, p: nat, a: Action)
    requires Shape(s) && ForestOk(s) && KidsOk(s.slots) && Step(s, t, p, a)
    ensures KidsOk(t.slots)
  {
    hide Enabled, EffectOf, SlotsAfter, Collects, Alive, SlotOk, ForestOk, HasChild, KidsOk;
    forall q | 0 <= q < |t.slots|
      ensures t.slots[q].pc.Scanning? ==> (t.slots[q].pc.kids <==> HasChild(t.slots, q, t.slots[q].pc.i))
      ensures Waits(t.slots[q].pc) ==> HasChild(t.slots, q, |t.slots|)
    {
      if q == p {
        OwnKids(s, t, p, a);
      } else {
        OtherKids(s, t, p, a, q);
      }
    }
    assert KidsOk(t.slots) by { KidsWhole(t.slots); }
  }

  lemma KidsWhole(slots: seq<Slot>)
    requires forall p {:trigger slots[p]} :: 0 <= p < |slots| ==>
               && (slots[p].pc.Scanning? ==> (slots[p].pc.kids <==> HasChild(slots, p, slots[p].pc.i)))
               && (Waits(slots[p].pc) ==> HasChild(slots, p, |slots|))
    ensures KidsOk(slots)
  {
  }

  /** Which parents a step sets. */
  lemma ParentFacts(s: System, t: System, p: nat, a: Action, c: nat)
    requires Shape(s) && ForestOk(s) && Step(s, t, p, a) && c < |s.slots| && t.slots[c].parent != s.slots[c].parent
    ensures if a.ForkLink? then s.slots[c].parent == -1 && t.slots[c].parent == p
            else s.slots[c].parent == p && (a.ExitScan? || Collects(s, p, a))
                 && (t.slots[c].parent == INIT || t.slots[c].parent == -1) && p != t.slots[c].parent
  {
    hide Enabled, EffectOf, SlotsAfter, Collects, Alive, SlotOk, ForestOk, Shape;
    ForestFacts(s, p, a);
    if EffectOf(s, p, a).c != p { OtherFacts(s, p, a); }
  }

  lemma OtherKids(s: System, t: System, p: nat, a: Action, q: nat)
    requires Shape(s) && ForestOk(s) && KidsOk(s.slots) && Step(s, t, p, a) && q < |s.slots| && q != p
    ensures t.slots[q].pc.Scanning? ==> (t.slots[q].pc.kids <==> HasChild(t.slots, q, t.slots[q].pc.i))
    ensures Waits(t.slots[q].pc) ==> HasChild(t.slots, q, |t.slots|)
  {
    hide Enabled, EffectOf, SlotsAfter, Collects, Alive, SlotOk, ForestOk;
    if EffectOf(s, p, a).c != p { OtherWaits(s, p, a); }
    KidFacts(s, p, a);
    var pc := t.slots[q].pc;
    if pc.Scanning? || Waits(pc) {
      assert s.slots[q].pc == pc;
      assert pc.Scanning? ==> s.waitLock == q;
      forall c | 0 <= c < |s.slots|
        ensures s.slots[c].parent == q ==> t.slots[c].parent == q
        ensures pc.Scanning? && t.slots[c].parent == q ==> s.slots[c].parent == q
      {
        if t.slots[c].parent != s.slots[c].parent { ParentFacts(s, t, p, a, c); }
      }
    }
  }

  lemma OwnKids(s: System, t: System, p: nat, a: Action)
    requires Shape(s) && ForestOk(s) && KidsOk(s.slots) && Step(s, t, p, a)
    ensures t.slots[p].pc.Scanning? ==> (t.slots[p].pc.kids <==> HasChild(t.slots, p, t.slots[p].pc.i))
    ensures Waits(t.slots[p].pc) ==> HasChild(t.slots, p, |t.slots|)
  {
    hide Enabled, EffectOf, SlotsAfter, Collects, Alive, SlotOk, ForestOk;
    KidFacts(s, p, a);
    var pc, was := t.slots[p].pc, s.slots[p].pc;
    if pc.Scanning? || Waits(pc) {
      if pc != Scanning(0, false) {
        forall c | 0 <= c < |s.slots| ensures s.slots[c].parent == p <==> t.slots[c].parent == p {
          if t.slots[c].parent != s.slots[c].parent { ParentFacts(s, t, p, a, c); }
        }
      }
    }
  }

  lemma StepKeepsInv(s: System, t: System, p: nat, a: Action)
    requires Inv(s) && Step(s, t, p, a)
    ensures Inv(t)
  {
    hide Step, Shape, HartsOk, ParentsAlive, ForkersOk, NoneLeft, WaitOk, KidsOk, PidsOk;
    StepKeepsShape(s, t, p, a);
    StepKeepsHarts(s, t, p, a);
    StepKeepsParents(s, t, p, a);
    StepKeepsForkers(s, t, p, a);
    StepKeepsNoneLeft(s, t, p, a);
    StepKeepsWait(s, t, p, a);
    StepKeepsKids(s, t, p, a);
    StepKeepsPids(s, t, p, a);
  }

  // ---- runs -----------------------------------------------------------------------------

  /** After userinit: init is runnable, everything else is free. */
  ghost predicate Initial(s: System) {
    && |s.slots| > 0 && s.slots[INIT] == FREE.(state := RUNNABLE, pid := 1)
    && (forall p :: 0 < p < |s.slots| ==> s.slots[p] == FREE)
    && (forall h :: 0 <= h < |s.harts| ==> s.harts[h] == -1)
    && s.waitLock == -1 && s.nextpid == 2 && s.reaped == []
  }

  lemma InitialInv(s: System)
    requires Initial(s)
    ensures Inv(s)
  {
    hide Shape, HartsOk, ForestOk, WaitOk, KidsOk, PidsOk;
    assert Shape(s) && HartsOk(s) by { InitialShape(s); }
    assert ForestOk(s) by { InitialForest(s); }
    assert WaitOk(s) && KidsOk(s.slots) && PidsOk(s) by { InitialWait(s); }
  }

  lemma InitialShape(s: System)
    requires Initial(s)
    ensures Shape(s) && HartsOk(s)
  {
  }

  lemma InitialForest(s: System)
    requires Initial(s)
    ensures ForestOk(s)
  {
  }

  lemma InitialWait(s: System)
    requires Initial(s)
    ensures WaitOk(s) && KidsOk(s.slots) && PidsOk(s)
  {
    assert forall p :: 0 <= p < |s.slots| ==> !s.slots[p].state.ZOMBIE? && !s.slots[p].pc.Announced?;
  }

  ghost predicate Next(s: System, t: System) {
    exists p, a :: Step(s, t, p, a)
  }

  ghost predicate IsRun(run: seq<System>) {
    && |run| > 0 && Initial(run[0])
    && forall k :: 0 < k < |run| ==> Next(run[k - 1], run[k])
  }

  lemma {:induction false} RunKeepsInv(run: seq<System>, k: nat)
    requires IsRun(run) && k < |run|
    ensures Inv(run[k])
  {
    hide Step, Inv, Initial;
    if k == 0 {
      InitialInv(run[0]);
    } else {
      RunKeepsInv(run, k - 1);
      var p, a :| Step(run[k - 1], run[k], p, a);
      StepKeepsInv(run[k - 1], run[k], p, a);
    }
  }

  /** In every state of every run: no slot runs on two harts, and one that is RUNNING is on one;
      a set parent pointer names a process that is alive; no pid is collected twice; and while
      wait_lock is free no process sleeps in wait while it has a zombie child; and none sleeps there without
      any child. */
  lemma {:induction false} ForestIsSafe(run: seq<System>, k: nat)
    requires IsRun(run) && k < |run|
    ensures var s := run[k];
            && (forall h, i :: 0 <= h < i < |s.harts| && s.harts[h] >= 0 ==> s.harts[h] != s.harts[i])
            && (forall p :: 0 <= p < |s.slots| && s.slots[p].state.RUNNING? ==>
                  exists h :: 0 <= h < |s.harts| && s.harts[h] == p)
            && (forall c :: 0 <= c < |s.slots| && s.slots[c].parent != -1 ==>
                  0 <= s.slots[c].parent < |s.slots| && Alive(s.slots[s.slots[c].parent]))
            && (forall j, i :: 0 <= j < i < |s.reaped| ==> s.reaped[j].pid != s.reaped[i].pid)
            && (s.waitLock == -1 ==>
                  forall c :: 0 <= c < |s.slots| && s.slots[c].state.ZOMBIE? && s.slots[c].parent != -1 ==>
                    !(s.slots[s.slots[c].parent].state.SLEEPING? && s.slots[s.slots[c].parent].chan.OwnSlot?))
            && (forall p: nat :: p < |s.slots| && s.slots[p].state.SLEEPING? && s.slots[p].chan.OwnSlot? ==>
                  exists c: nat :: IsChild(s, c, p))
  {
    RunKeepsInv(run, k);
    var s := run[k];
    forall p | 0 <= p < |s.slots| ensures SlotOk(s.slots[p], p, |s.slots|) {
    }
    forall p | 0 <= p < |s.slots| && s.slots[p].state.RUNNING?
      ensures exists h :: 0 <= h < |s.harts| && s.harts[h] == p
    {
      assert s.harts[s.slots[p].on] == p;
    }
    forall p: nat | p < |s.slots| && s.slots[p].state.SLEEPING? && s.slots[p].chan.OwnSlot?
      ensures exists c: nat :: IsChild(s, c, p)
    {
      var c: nat :| c < |s.slots| && s.slots[c].parent == p;
      assert IsChild(s, c, p);
    }
  }

  /** A zombie stays a zombie until its current parent collects it: that step frees the slot and is
      the only kind of step that adds to `reaped`. */
  lemma ZombieLeavesToItsParent(s: System, t: System, p: nat, a: Action, c: nat)
    requires Inv(s) && Step(s, t, p, a) && c < |s.slots| && s.slots[c].state.ZOMBIE?
    ensures t.slots[c].state.ZOMBIE? ==> t.slots[c].pid == s.slots[c].pid
    ensures !t.slots[c].state.ZOMBIE? ==>
              s.slots[c].parent == p && t.slots[c] == FREE && t.reaped == s.reaped + [Reap(s.slots[c].pid, c, p)]
    ensures t.reaped != s.reaped ==> Collects(s, p, a)
  {
    hide HartsOk, WaitOk, PidsOk, NoneLeft, ParentsAlive;
    assert SlotOk(s.slots[c], c, |s.slots|) && SlotOk(s.slots[p], p, |s.slots|);
    assert Forks(s.slots[p].pc, EffectOf(s, p, a).c) || !(a.ForkLink? || a.ForkReady?);
  }

  predicate InWait(pc: Pc) {
    pc.Scanning? || pc.Regain? || Waits(pc)
  }

  ghost predicate IsChild(s: System, c: nat, p: nat) {
    c < |s.slots| && s.slots[c].parent == p
  }

  /** Whoever leaves wait has collected a zombie child, or could not be told of one because its address for the
      status is bad, or has no child at all, or has been killed. */
  lemma WaitReturns(s: System, t: System, p: nat, a: Action, q: nat)
    requires Inv(s) && Step(s, t, p, a) && q < |s.slots| && InWait(s.slots[q].pc) && !InWait(t.slots[q].pc)
    ensures q == p
    ensures || (exists c: nat :: IsChild(s, c, p) && s.slots[c].state.ZOMBIE? && t.slots[c] == FREE
                                 && t.reaped == s.reaped + [Reap(s.slots[c].pid, c, p)])
            || (a == WaitScan(true) && t.reaped == s.reaped
                && exists c: nat :: IsChild(s, c, p) && s.slots[c].state.ZOMBIE? && t.slots[c] == s.slots[c])
            || (a.WaitEnd? && t.reaped == s.reaped && (s.slots[p].killed || forall c: nat :: !IsChild(s, c, p)))
  {
    hide HartsOk, ParentsAlive, NoneLeft, PidsOk, WaitOk;
    if q != p {
      assert SlotOk(s.slots[q], q, |s.slots|);
      if EffectOf(s, p, a).c != p { OtherWaits(s, p, a); }
    } else {
      LeavesWait(s, t, p, a);
    }
  }

  lemma LeavesWait(s: System, t: System, p: nat, a: Action)
    requires Shape(s) && KidsOk(s.slots) && Step(s, t, p, a) && InWait(s.slots[p].pc) && !InWait(t.slots[p].pc)
    ensures || (exists c: nat :: IsChild(s, c, p) && s.slots[c].state.ZOMBIE? && t.slots[c] == FREE
                                 && t.reaped == s.reaped + [Reap(s.slots[c].pid, c, p)])
            || (a == WaitScan(true) && t.reaped == s.reaped
                && exists c: nat :: IsChild(s, c, p) && s.slots[c].state.ZOMBIE? && t.slots[c] == s.slots[c])
            || (a.WaitEnd? && t.reaped == s.reaped && (s.slots[p].killed || forall c: nat :: !IsChild(s, c, p)))
  {
    assert SlotOk(s.slots[p], p, |s.slots|);
    if a.WaitScan? {
      var c: nat := s.slots[p].pc.i;
      assert IsChild(s, c, p) && s.slots[c].state.ZOMBIE?;
    }
  }

  /** At the end of its scan wait has met every child and no zombie among them. It returns exactly if there is no
      child or the process has been killed, and goes to sleep otherwise. */
  lemma WaitDecides(s: System, t: System, p: nat)
    requires Inv(s) && Step(s, t, p, WaitEnd)
    ensures forall c: nat :: IsChild(s, c, p) ==> !s.slots[c].state.ZOMBIE?
    ensures t.slots[p].pc.User? <==> s.slots[p].killed || forall c: nat :: !IsChild(s, c, p)
    ensures !t.slots[p].pc.User? ==> t.slots[p].pc.Settled?
  {
    hide HartsOk, ForestOk, PidsOk;
    if s.slots[p].pc.kids {
      var c: nat :| c < |s.slots| && s.slots[c].parent == p;
      assert IsChild(s, c, p);
    }
  }

  /** Bound to stay in wait until a child exits. */
  predicate Bound(q: Slot) {
    q.pc.Settled? || Committed(q)
  }

  /** A process bound to sleep in wait has missed a kill only if the kill came between its look at `killed` and
      sleep's taking its lock. */
  lemma KillIsSeen(s: System, t: System, p: nat, a: Action, q: nat)
    requires Inv(s) && Step(s, t, p, a) && q < |s.slots|
    requires t.slots[q].killed && Bound(t.slots[q]) && !(s.slots[q].killed && Bound(s.slots[q]))
    ensures q == p && a.Kill? && s.slots[q].pc.Settled?
  {
    hide HartsOk, ForestOk, PidsOk, WaitOk, KidsOk;
    assert SlotOk(s.slots[q], q, |s.slots|) && SlotOk(s.slots[p], p, |s.slots|);
  }

  /** Fourteen states of two slots and one hart: init forks, waits for its child, and is killed when it has
      decided to sleep. */
  ghost function KilledAt(k: nat): (s: System) {
    var pc := match k
      case 3 => Allocated(1)
      case 4 => Linked(1)
      case 6 => Scanning(0, false)
      case 7 => Scanning(1, false)
      case 8 => Scanning(2, true)
      case 9 => Settled
      case 10 => Settled
      case 11 => Dropped
      case _ => if k >= 12 then Away else User;
    var state := if k == 0 then RUNNABLE else if k >= 12 then SLEEPING else RUNNING;
    var on := if 1 <= k <= 12 then 0 else -1;
    var held := k == 1 || 11 <= k <= 12;
    var parent := Slot(state, -1, 1, if k >= 12 then OwnSlot else NoChan, pc, on, held, k >= 10);
    var child := if k < 3 then FREE
                 else Slot(if k < 5 then USED else RUNNABLE, if k < 4 then
                             -1 else 0, 2, NoChan, User, -1, false, false);
    System([parent, child], [on], if 6 <= k <= 10 then 0 else -1, if k < 3 then 2 else 3, [])
  }

  lemma KilledStep(k: nat)
    requires k < 13
    ensures Next(KilledAt(k), KilledAt(k + 1))
  {
    var a := match k
      case 0 => Dispatch(0)
      case 1 => Land
      case 2 => ForkAlloc(1)
      case 3 => ForkLink
      case 4 => ForkReady
      case 5 => WaitBegin
      case 6 => WaitScan(false)
      case 7 => WaitScan(false)
      case 8 => WaitEnd
      case 9 => Kill
      case 10 => WaitSleep
      case 11 => WaitMark
      case _ => SwitchOff;
    assert Step(KilledAt(k), KilledAt(k + 1), 0, a);
  }

  /** Such a kill is missed: with no lock held the process sleeps, killed, until a child exits. */
  lemma KillIsMissed() returns (run: seq<System>)
    ensures IsRun(run)
    ensures var s := run[|run| - 1];
            && s.waitLock == -1 && |s.slots| == 2 && s.slots[0].killed && !s.slots[0].held
            && s.slots[0].state.SLEEPING? && s.slots[0].chan.OwnSlot? && s.slots[1].state.RUNNABLE?
  {
    run := seq(14, k requires 0 <= k < 14 => KilledAt(k));
    forall k | 0 < k < |run| ensures Next(run[k - 1], run[k]) {
      hide KilledAt, Next;
      KilledStep(k - 1);
    }
  }

  /** A slot in use keeps its pid, stays killed once it is, becomes a zombie only by its own exit,
      and ends only as a collected zombie. */
  lemma SlotsEndCollected(s: System, t: System, p: nat, a: Action, c: nat)
    requires Inv(s) && Step(s, t, p, a) && c < |s.slots| && !s.slots[c].state.UNUSED?
    ensures t.slots[c].state.UNUSED? ==> s.slots[c].state.ZOMBIE? && s.slots[c].parent == p && Collects(s, p, a)
    ensures !t.slots[c].state.UNUSED? ==>
              t.slots[c].pid == s.slots[c].pid && (t.slots[c].killed <==> s.slots[c].killed || (a.Kill? && c == p))
    ensures t.slots[c].state.ZOMBIE? && !s.slots[c].state.ZOMBIE? ==> c == p && a.ExitZombie?
  {
    hide HartsOk, WaitOk, KidsOk, PidsOk, NoneLeft, ParentsAlive;
    assert SlotOk(s.slots[c], c, |s.slots|) && SlotOk(s.slots[p], p, |s.slots|);
    assert Forks(s.slots[p].pc, EffectOf(s, p, a).c) || !(a.ForkLink? || a.ForkReady?);
  }

  /** A parent asleep in wait stays asleep until a child that exits wakes it, or a kill; init is also woken when it
      inherits a child. */
  lemma AsleepUntilWoken(s: System, t: System, p: nat, a: Action, q: nat)
    requires Inv(s) && Step(s, t, p, a) && q < |s.slots| && s.slots[q].state.SLEEPING? && s.slots[q].chan.OwnSlot?
    ensures !t.slots[q].state.SLEEPING? ==>
              || (a.Kill? && p == q && t.slots[q].killed)
              || (a.ExitWakeParent? && s.slots[p].parent == q) || (a.ExitWakeInit? && q == INIT)
  {
    hide HartsOk, PidsOk, WaitOk, KidsOk, ParentsAlive, NoneLeft;
    assert SlotOk(s.slots[q], q, |s.slots|) && SlotOk(s.slots[p], p, |s.slots|);
    assert Forks(s.slots[p].pc, EffectOf(s, p, a).c) || !(a.ForkLink? || a.ForkReady?);
  }
}
