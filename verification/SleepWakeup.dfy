/** sleep and wakeup, step by step, on any number of processors.

    One spinlock guards some data `d`. A process that finds what it needs is not `ready` sleeps
    on a channel; one that changes the data calls wakeup. Between any two steps of one process
    any other process may run, kill may wake anyone, and the only things that wait are the
    acquisitions of the spinlock and of a process's own lock. */
module SleepWakeup {
  datatype Run = RUNNING | SLEEPING | RUNNABLE

  /** Where a process is in code that uses the spinlock. */
  datatype Pc =
    | Out                        // not using the spinlock
    | In                         // holds the spinlock
    | Waking(c: nat, i: nat)     // in wakeup(c), process i is next; holds the spinlock
    | Calling(c: nat)            // has called sleep(c); holds the spinlock
    | Both(c: nat)               // in sleep, holds the spinlock and its own lock
    | Dropped(c: nat)            // in sleep, has released the spinlock; holds its own lock
    | Marked(c: nat)             // in sched, is SLEEPING on c; still holds its own lock
    | Away(c: nat)               // switched away, own lock released
    | Back(c: nat)               // dispatched again, holds its own lock
    | Regain(c: nat)             // at the end of sleep, wants the spinlock

  datatype Proc = Proc(pc: Pc, run: Run, chan: nat)

  /** `owed`: channels that became ready and have not been woken since. `clear`: channels that
      the holder of the spinlock has woken since it took it. Neither exists in the code. */
  datatype State<D> = State(procs: seq<Proc>, holder: int, d: D, owed: iset<nat>, clear: iset<nat>)

  datatype Action<D> =
    | Acquire | Release
    | Change(d: D)
    | BeginWake(c: nat) | WakeNext | EndWake
    | BeginSleep(c: nat) | LockSelf | Drop | Mark | Switch | Dispatch | Tidy
    | Kill(q: nat)

  predicate HoldsLock(pc: Pc) {
    pc.In? || pc.Waking? || pc.Calling? || pc.Both?
  }

  predicate HoldsOwn(pc: Pc) {
    pc.Both? || pc.Dropped? || pc.Marked? || pc.Back?
  }

  /** The channels a change of the data makes ready, but for those just woken under the same lock. */
  ghost function NewlyReady<D(!new)>(ready: (nat, D) -> bool, d: D, e: D, clear: iset<nat>): (r: iset<nat>) {
    iset c | !ready(c, d) && ready(c, e) && c !in clear
  }

  /** One step of process p (Kill(q) is a step of the machine on process q). */
  ghost predicate Step<D(!new)>(ready: (nat, D) -> bool, s: State<D>, t: State<D>, p: nat, a: Action<D>) {
    && p < |s.procs|
    && var me := s.procs[p];
    match a
    case Acquire =>
      (me.pc.Out? || me.pc.Regain?) && s.holder == -1
      && t == s.(procs := s.procs[p := me.(pc := In)], holder := p, clear := iset{})
    case Release =>
      me.pc.In? && t == s.(procs := s.procs[p := me.(pc := Out)], holder := -1)
    case Change(d) =>
      me.pc.In? && t == s.(d := d, owed := s.owed + NewlyReady(ready, s.d, d, s.clear))
    case BeginWake(c) =>
      me.pc.In? && t == s.(procs := s.procs[p := me.(pc := Waking(c, 0))])
    case WakeNext =>
      me.pc.Waking? && me.pc.i < |s.procs| && (me.pc.i == p || !HoldsOwn(s.procs[me.pc.i].pc))
      && var q := s.procs[me.pc.i];
      var q' := if me.pc.i != p && q.run.SLEEPING? && q.chan == me.pc.c then q.(run := RUNNABLE) else q;
      t == s.(procs := s.procs[me.pc.i := q'][p := me.(pc := Waking(me.pc.c, me.pc.i + 1))])
    case EndWake =>
      me.pc.Waking? && me.pc.i == |s.procs|
      && t == s.(procs := s.procs[p := me.(pc := In)], owed := s.owed - iset{me.pc.c}, clear := s.clear + iset{me.pc.c})
    case BeginSleep(c) =>
      me.pc.In? && t == s.(procs := s.procs[p := me.(pc := Calling(c))])
    case LockSelf =>
      me.pc.Calling? && t == s.(procs := s.procs[p := me.(pc := Both(me.pc.c))])
    case Drop =>
      me.pc.Both? && t == s.(procs := s.procs[p := me.(pc := Dropped(me.pc.c))], holder := -1)
    case Mark =>
      me.pc.Dropped? && t == s.(procs := s.procs[p := Proc(Marked(me.pc.c), SLEEPING, me.pc.c)])
    case Switch =>
      me.pc.Marked? && t == s.(procs := s.procs[p := me.(pc := Away(me.pc.c))])
    case Dispatch =>
      me.pc.Away? && me.run.RUNNABLE? && t == s.(procs := s.procs[p := me.(pc := Back(me.pc.c), run := RUNNING)])
    case Tidy =>
      me.pc.Back? && t == s.(procs := s.procs[p := me.(pc := Regain(me.pc.c), chan := 0)])
    case Kill(q) =>
      q < |s.procs| && s.procs[q].run.SLEEPING? && !HoldsOwn(s.procs[q].pc)
      && t == s.(procs := s.procs[q := s.procs[q].(run := RUNNABLE)])
  }

  /** p is asleep on c, or on its way there with nothing left that could stop it. */
  predicate Committed(q: Proc, c: nat) {
    match q.pc
    case Calling(e) => e == c
    case Both(e) => e == c
    case Dropped(e) => e == c
    case Marked(e) => e == c
    case Away(e) => e == c && q.run.SLEEPING?
    case _ => false
  }

  ghost predicate ProcOk(q: Proc) {
    match q.pc
    case Marked(c) => q.run.SLEEPING? && q.chan == c
    case Away(c) => (q.run.SLEEPING? || q.run.RUNNABLE?) && q.chan == c
    case _ => q.run.RUNNING?
  }

  ghost predicate LocksOk<D>(s: State<D>) {
    && -1 <= s.holder < |s.procs|
    && (forall p :: 0 <= p < |s.procs| ==> ProcOk(s.procs[p]) && (HoldsLock(s.procs[p].pc) <==> s.holder == p))
  }

  lemma StepKeepsLocks<D(!new)>(ready: (nat, D) -> bool, s: State<D>, t: State<D>, p: nat, a: Action<D>)
    requires LocksOk(s) && Step(ready, s, t, p, a)
    ensures LocksOk(t) && |t.procs| == |s.procs|
  {
  }

  /** A ready channel with a process bound to sleep on it is owed a wakeup. */
  ghost predicate OwedOk<D(!new)>(ready: (nat, D) -> bool, s: State<D>, c: nat) {
    ready(c, s.d) ==> c in s.owed
  }

  /** Nobody but the holder of the spinlock is bound to sleep on a channel the holder has woken. */
  ghost predicate ClearOk<D(!new)>(s: State<D>, p: nat, c: nat) {
    c in s.clear && s.holder >= 0 ==> p == s.holder
  }

  /** A wakeup under way on c has not passed a process that is bound to sleep on c. */
  ghost predicate AheadOk<D(!new)>(s: State<D>, p: nat, c: nat) {
    0 <= s.holder < |s.procs| && s.procs[s.holder].pc.Waking? && s.procs[s.holder].pc.c == c ==>
      p >= s.procs[s.holder].pc.i
  }

  ghost predicate Inv<D(!new)>(ready: (nat, D) -> bool, s: State<D>) {
    && LocksOk(s)
    && forall p, c {:trigger Committed(s.procs[p], c)} :: 0 <= p < |s.procs| && Committed(s.procs[p], c) ==>
         OwedOk(ready, s, c) && ClearOk(s, p, c) && AheadOk(s, p, c)
  }

  /** Only BeginSleep binds a process to sleep. */
  lemma StillBound<D(!new)>(ready: (nat, D) -> bool, s: State<D>, t: State<D>, p: nat, a: Action<D>, q: nat, c: nat)
    requires LocksOk(s) && Step(ready, s, t, p, a) && q < |s.procs| == |t.procs| && Committed(t.procs[q], c)
    ensures Committed(s.procs[q], c) || (a.BeginSleep? && q == p && c == a.c)
  {
  }

  lemma KeepsOwed<D(!new)>(ready: (nat, D) -> bool, s: State<D>, t: State<D>, p: nat, a: Action<D>, q: nat, c: nat)
    requires LocksOk(s) && Step(ready, s, t, p, a) && q < |s.procs| == |t.procs| && Committed(t.procs[q], c)
    requires Committed(s.procs[q], c) ==> OwedOk(ready, s, c) && ClearOk(s, q, c) && AheadOk(s, q, c)
    requires a.BeginSleep? ==> !ready(a.c, s.d)
    ensures OwedOk(ready, t, c)
  {
    StillBound(ready, s, t, p, a, q, c);
  }

  lemma KeepsClear<D(!new)>(ready: (nat, D) -> bool, s: State<D>, t: State<D>, p: nat, a: Action<D>, q: nat, c: nat)
    requires LocksOk(s) && Step(ready, s, t, p, a) && q < |s.procs| == |t.procs| && Committed(t.procs[q], c)
    requires Committed(s.procs[q], c) ==> ClearOk(s, q, c) && AheadOk(s, q, c)
    ensures ClearOk(t, q, c)
  {
    StillBound(ready, s, t, p, a, q, c);
  }

  lemma KeepsAhead<D(!new)>(ready: (nat, D) -> bool, s: State<D>, t: State<D>, p: nat, a: Action<D>, q: nat, c: nat)
    requires LocksOk(s) && Step(ready, s, t, p, a) && q < |s.procs| == |t.procs| && Committed(t.procs[q], c)
    requires Committed(s.procs[q], c) ==> AheadOk(s, q, c)
    ensures AheadOk(t, q, c)
  {
    StillBound(ready, s, t, p, a, q, c);
  }

  /** Code that sleeps only on a channel it has found not ready keeps the invariant. */
  lemma {:induction false} StepKeepsInv<D(!new)>(ready: (nat, D) -> bool, s: State<D>, t: State<D>, p: nat,
                                                 a: Action<D>)
    requires Inv(ready, s) && Step(ready, s, t, p, a)
    requires a.BeginSleep? ==> !ready(a.c, s.d)
    ensures Inv(ready, t)
  {
    hide Step, LocksOk, OwedOk, ClearOk, AheadOk, Committed;
    StepKeepsLocks(ready, s, t, p, a);
    forall q, c | 0 <= q < |t.procs| && Committed(t.procs[q], c)
      ensures OwedOk(ready, t, c) && ClearOk(t, q, c) && AheadOk(t, q, c)
    {
      KeepsOwed(ready, s, t, p, a, q, c);
      KeepsClear(ready, s, t, p, a, q, c);
      KeepsAhead(ready, s, t, p, a, q, c);
    }
  }

  /** No lost wakeup: when the spinlock is free and no wakeup of c is owed, nobody is
      asleep on c, or about to be, if c is ready. */
  lemma NoLostWakeup<D(!new)>(ready: (nat, D) -> bool, s: State<D>, p: nat, c: nat)
    requires Inv(ready, s) && s.holder == -1 && c !in s.owed
    requires p < |s.procs| && ready(c, s.d)
    ensures !Committed(s.procs[p], c)
    ensures s.procs[p].run.SLEEPING? ==> s.procs[p].chan != c
  {
  }

  /** Whoever is asleep stays asleep until a wakeup on its own channel reaches it, or a kill. */
  lemma AsleepUntilWoken<D(!new)>(ready: (nat, D) -> bool, s: State<D>, t: State<D>, p: nat, a: Action<D>, q: nat)
    requires LocksOk(s) && Step(ready, s, t, p, a) && q < |s.procs| && s.procs[q].run.SLEEPING?
    ensures !t.procs[q].run.SLEEPING? ==>
              || a == Kill(q)
              || (a.WakeNext? && p != q && s.procs[p].pc == Waking(s.procs[q].chan, q) && t.procs[q].run.RUNNABLE?)
    ensures t.procs[q].run.SLEEPING? ==> t.procs[q].chan == s.procs[q].chan
  {
    assert ProcOk(s.procs[q]) && ProcOk(s.procs[p]);
  }
}
