/** Sleeplocks on top of sleep and wakeup, for any number of processes and processors. */
module SleepLock {
  import opened SleepWakeup

  /** The fields guarded by the sleeplock's own spinlock; processes are numbered by pid. */
  datatype Lock = Lock(locked: bool, pid: nat)

  /** Where a process is with respect to the sleeplock. */
  datatype Local =
    | Idle         // neither holds it nor tries to
    | Acquiring    // in acquiresleep, has not set `locked`
    | Taken        // in acquiresleep, has set `locked`
    | Holding      // between acquiresleep and releasesleep
    | Releasing    // in releasesleep, has not cleared `locked`
    | Freed        // in releasesleep, has cleared `locked`
    | Woken        // in releasesleep, has called wakeup

  datatype System = System(core: State<Lock>, local: seq<Local>)

  const CHAN := 1

  /** What acquiresleep waits for. */
  predicate Ready(c: nat, d: Lock) {
    c == CHAN && !d.locked
  }

  /** The steps of acquiresleep and releasesleep, where `l` is the process's next local state. */
  predicate Code(d: Lock, pc: Pc, p: nat, now: Local, a: Action<Lock>, l: Local) {
    match a
    case Acquire => (now.Idle? && l.Acquiring?) || (now.Holding? && l.Releasing?)
         || (pc.Regain? && now.Acquiring? && l == now)
    case BeginSleep(c) => now.Acquiring? && d.locked && c == CHAN && l == now
    case Change(d') =>
      || (now.Acquiring? && !d.locked && d' == Lock(true, p) && l.Taken?)
      || (now.Releasing? && d' == Lock(false, 0) && l.Freed?)
    case BeginWake(c) => now.Freed? && c == CHAN && l == now
    case EndWake => l.Woken?
    case Release => (now.Taken? && l.Holding?) || (now.Woken? && l.Idle?)
    case _ => l == now
  }

  ghost predicate SystemStep(s: System, t: System, p: nat, a: Action<Lock>) {
    && p < |s.core.procs| == |s.local| == |t.local|
    && Step(Ready, s.core, t.core, p, a)
    && Code(s.core.d, s.core.procs[p].pc, p, s.local[p], a, t.local[p])
    && t.local == s.local[p := t.local[p]]
  }

  /** Where in the code each kind of local state can be. */
  predicate Fits(pc: Pc, l: Local) {
    match l
    case Idle => pc.Out?
    case Holding => pc.Out?
    case Acquiring => !pc.Out? && !pc.Waking?
    case Freed => pc.In? || (pc.Waking? && pc.c == CHAN)
    case _ => pc.In?
  }

  predicate Owns(l: Local) {
    l.Taken? || l.Holding? || l.Releasing?
  }

  ghost predicate FitsOk(s: System) {
    && |s.local| == |s.core.procs|
    && forall p :: 0 <= p < |s.local| ==> Fits(s.core.procs[p].pc, s.local[p])
  }

  /** The lock's fields name its one owner. */
  ghost predicate OwnerOk(s: System) {
    forall p :: 0 <= p < |s.local| ==> (Owns(s.local[p]) <==> s.core.d.locked && s.core.d.pid == p)
  }

  /** Only a process in releasesleep owes a wakeup. */
  ghost predicate OwedOk(s: System) {
    s.core.owed != iset{} ==>
      0 <= s.core.holder < |s.local| && s.local[s.core.holder].Freed? && s.core.owed == iset{CHAN}
  }

  ghost predicate SystemInv(s: System) {
    Inv(Ready, s.core) && FitsOk(s) && OwnerOk(s) && OwedOk(s)
  }

  ghost predicate Initial(s: System) {
    && |s.local| == |s.core.procs| && s.core.holder == -1 && s.core.d == Lock(false, 0) && s.core.owed == iset{}
       && s.core.clear == iset{}
    && forall p :: 0 <= p < |s.local| ==> s.local[p] == Idle && s.core.procs[p] == Proc(Out, RUNNING, 0)
  }

  lemma StepKeepsFits(s: System, t: System, p: nat, a: Action<Lock>)
    requires LocksOk(s.core) && FitsOk(s) && SystemStep(s, t, p, a)
    ensures FitsOk(t)
  {
  }

  lemma StepKeepsOwner(s: System, t: System, p: nat, a: Action<Lock>)
    requires LocksOk(s.core) && FitsOk(s) && OwnerOk(s) && SystemStep(s, t, p, a)
    ensures OwnerOk(t)
  {
  }

  lemma StepKeepsOwed(s: System, t: System, p: nat, a: Action<Lock>)
    requires LocksOk(s.core) && FitsOk(s) && OwnerOk(s) && OwedOk(s) && SystemStep(s, t, p, a)
    ensures OwedOk(t)
  {
    assert s.core.owed == iset{CHAN} ==> s.core.owed - iset{CHAN} == iset{};
  }

  lemma StepSleepsOnLocked(s: System, t: System, p: nat, a: Action<Lock>)
    requires SystemStep(s, t, p, a)
    ensures Step(Ready, s.core, t.core, p, a) && (a.BeginSleep? ==> !Ready(a.c, s.core.d))
  {
    hide Step;
  }

  lemma StepKeepsSystem(s: System, t: System, p: nat, a: Action<Lock>)
    requires SystemInv(s) && SystemStep(s, t, p, a)
    ensures SystemInv(t)
  {
    hide Step, Code, FitsOk, OwnerOk, OwedOk, SystemStep, LocksOk;
    StepSleepsOnLocked(s, t, p, a);
    StepKeepsInv(Ready, s.core, t.core, p, a);
    StepKeepsFits(s, t, p, a);
    StepKeepsOwner(s, t, p, a);
    StepKeepsOwed(s, t, p, a);
  }

  ghost predicate Next(s: System, t: System) {
    exists p, a :: SystemStep(s, t, p, a)
  }

  /** A run: any interleaving of any processes' steps. */
  ghost predicate IsRun(run: seq<System>) {
    && |run| > 0 && Initial(run[0])
    && forall k :: 0 < k < |run| ==> Next(run[k - 1], run[k])
  }

  lemma {:induction false} RunKeepsSystem(run: seq<System>, k: nat)
    requires IsRun(run) && k < |run|
    ensures SystemInv(run[k])
  {
    if k > 0 {
      RunKeepsSystem(run, k - 1);
      var p, a :| SystemStep(run[k - 1], run[k], p, a);
      StepKeepsSystem(run[k - 1], run[k], p, a);
    }
  }

  /** In every run: at most one process holds the sleeplock, holdingsleep is true of exactly the
      process that is between acquiresleep and releasesleep or at their edges, and when the
      sleeplock and its spinlock are free nobody is asleep on it, or about to be. */
  lemma {:induction false} SleeplockIsSafe(run: seq<System>, k: nat)
    requires IsRun(run) && k < |run|
    ensures var s := run[k];
            && |s.local| == |s.core.procs|
            && (forall p, q :: 0 <= p < q < |s.local| && s.local[p].Holding? ==> !s.local[q].Holding?)
            && (forall p :: 0 <= p < |s.local| && s.local[p].Holding? ==> s.core.d == Lock(true, p))
            && (s.core.holder == -1 && s.core.d.locked ==> s.core.d.pid < |s.local| ==> s.local[s.core.d.pid].Holding?)
            && (s.core.holder == -1 && !s.core.d.locked ==>
                  forall p :: 0 <= p < |s.local| ==>
                      !Committed(s.core.procs[p], CHAN)
                      && !(s.core.procs[p].run.SLEEPING? && s.core.procs[p].chan == CHAN))
  {
    RunKeepsSystem(run, k);
    var s := run[k];
    if s.core.holder == -1 && !s.core.d.locked {
      forall p | 0 <= p < |s.local|
        ensures !Committed(s.core.procs[p], CHAN) && !(s.core.procs[p].run.SLEEPING? && s.core.procs[p].chan == CHAN)
      {
        NoLostWakeup(Ready, s.core, p, CHAN);
      }
    }
  }
}
