/** Any number of readers, writers and closers on one pipe, in every interleaving. */
module PipeProtocol {
  import opened Blocks
  import opened SleepWakeup
  import opened Pipe

  const READ := 1    // &pi->nread, where readers sleep
  const WRITE := 2   // &pi->nwrite, where writers sleep

  /** What a call returns: of n bytes asked for, r written or read. */
  datatype Return = Wrote(r: int, n: nat) | GotBytes(r: int, n: nat) | Closed

  /** Where a process is in pipewrite, piperead or pipeclose. */
  datatype Local =
    | Idle
    // at the loop test; dirty: bytes put in since the last wakeup or sleep
    | Write(src: seq<Byte>, i: nat, dirty: bool)
    | WriteFull(src: seq<Byte>, i: nat)            // found the ring full, waking readers
    | WriteWait(src: seq<Byte>, i: nat)            // has woken them, about to sleep
    | WriteEnd(ret: Return)                        // the loop is over, waking readers
    | ReadWait(n: nat)                             // in the loop that waits for bytes
    | ReadCopy(n: nat, got: nat)
    | ReadEnd(ret: Return)                         // waking writers
    | Close(writable: bool)
    | CloseWake(writable: bool)
    | Leave(ret: Return)                           // only the release is left

  /** `spoiled`: a writer was killed between putting bytes in and waking readers, and no wakeup of
      readers has completed since. `bad`: processes whose address turned out bad in a copy from or to
      their memory. */
  datatype System = System(core: State<Ring>, local: seq<Local>, sent: seq<Byte>, received: seq<Byte>, spoiled: bool,
                           killed: set<nat>, bad: set<nat>)

  /** What readers and writers wait for. */
  predicate Ready(c: nat, d: Ring) {
    || (c == READ && (!Empty(d) || !d.writeopen))
    || (c == WRITE && (!Full(d) || !d.readopen))
  }

  predicate Starts(l: Local) {
    l.ReadWait? || l.Close? || (l.Write? && l.i == 0 && !l.dirty)
  }

  /** The code of the three functions: what a process at `now` may do next. A copy from or to user memory may
      fail at any byte. With `kills` false a writer does not find itself killed while it has bytes in the ring
      that it has not announced. */
  ghost predicate Code(s: System, t: System, p: nat, a: Action<Ring>, kills: bool)
    requires p < |s.core.procs| == |s.local| == |t.local|
  {
    var d, now, next := s.core.d, s.local[p], t.local[p];
    match a
    case Acquire =>
      Quiet(s, t) && if now.Idle? then Starts(next) else s.core.procs[p].pc.Regain? && next == now
    case Release =>
      && next.Idle? && t.sent == s.sent && t.received == s.received && SameKilled(s, t)
      && (if now.Write? && now.i < |now.src| && d.readopen
          then p in s.killed && (now.dirty ==> kills) && t.spoiled == (s.spoiled || now.dirty)
          else t.spoiled == s.spoiled && (now.Leave? || (now.Write? && now.i < |now.src| && !d.readopen)
                                         || (now.ReadWait? && Empty(d) && d.writeopen && p in s.killed)))
    case Change(d') =>
      && t.spoiled == s.spoiled && |d.data| == PIPESIZE && SameKilled(s, t)
      && (match now
         case Write(src, i, _) =>
           && i < |src| && d.readopen && !Full(d) && d' == Put(d, src[i]) && next == Write(src, i + 1, true)
           && t.sent == s.sent + [src[i]] && t.received == s.received
         case ReadWait(n) =>
           && 0 < n && !Empty(d) && d' == Take(d) && next == ReadCopy(n, 1)
           && t.received == s.received + [d.data[d.nread % PIPESIZE]] && t.sent == s.sent
         case ReadCopy(n, got) =>
           && got < n && !Empty(d) && d' == Take(d) && next == ReadCopy(n, got + 1)
           && t.received == s.received + [d.data[d.nread % PIPESIZE]] && t.sent == s.sent
         case Close(w) =>
           && d' == (if w then d.(writeopen := false) else d.(readopen := false)) && next == CloseWake(w)
           && t.sent == s.sent && t.received == s.received
         case _ => false)
    case BeginWake(c) =>
      && t.sent == s.sent && t.received == s.received && t.spoiled == s.spoiled && t.killed == s.killed
      && (match now
         case Write(src, i, _) =>
           && c == READ
           && if i >= |src| then next == WriteEnd(Wrote(i, |src|)) && t.bad == s.bad
              else && d.readopen
                   && if Full(d) then next == WriteFull(src, i) && t.bad == s.bad
                      else next == WriteEnd(Wrote(i, |src|)) && t.bad == s.bad + {p}
         case ReadWait(n) =>
           && c == WRITE && !(Empty(d) && d.writeopen)
           && if n == 0 || Empty(d) then next == ReadEnd(GotBytes(0, n)) && t.bad == s.bad
              else next == ReadEnd(GotBytes(-1, n)) && t.bad == s.bad + {p}
         case ReadCopy(n, got) =>
           && c == WRITE && next == ReadEnd(GotBytes(got, n))
           && t.bad == if got >= n || Empty(d) then s.bad else s.bad + {p}
         case CloseWake(w) => c == (if w then READ else WRITE) && next == now && t.bad == s.bad
         case _ => false)
    case EndWake =>
      && t.sent == s.sent && t.received == s.received && SameKilled(s, t) && s.core.procs[p].pc.Waking?
      && t.spoiled == (s.spoiled && s.core.procs[p].pc.c != READ)
      && next == (if now.WriteFull? then WriteWait(now.src, now.i)
                  else Leave(if now.WriteEnd? || now.ReadEnd? then now.ret else Closed))
    case BeginSleep(c) =>
      && Quiet(s, t)
      && (match now
         case WriteWait(src, i) => c == WRITE && next == Write(src, i, false)
         case ReadWait(n) => c == READ && Empty(d) && d.writeopen && next == now
         case _ => false)
    case Kill(q) => Quiet(s, t) && next == now && q in s.killed
    case _ => Quiet(s, t) && next == now
  }

  ghost predicate Quiet(s: System, t: System) {
    t.sent == s.sent && t.received == s.received && t.spoiled == s.spoiled && SameKilled(s, t)
  }

  ghost predicate SameKilled(s: System, t: System) {
    t.killed == s.killed && t.bad == s.bad
  }

  ghost predicate SystemStep(s: System, t: System, p: nat, a: Action<Ring>, kills: bool) {
    && p < |s.core.procs| == |s.local| == |t.local|
    && Step(Ready, s.core, t.core, p, a)
    && Code(s, t, p, a, kills)
    && t.local == s.local[p := t.local[p]]
  }

  /** kill: the flag is set; a process that sleeps is woken in a later step. */
  ghost predicate KillStep(s: System, t: System, q: nat) {
    t == s.(killed := s.killed + {q})
  }

  /** Where in the code each kind of local state can be, and what holds of the ring there. */
  ghost predicate Fits(pc: Pc, l: Local, d: Ring) {
    match l
    case Idle => pc.Out?
    case Write(_, _, dirty) => !pc.Out? && !pc.Waking? && (dirty ==> pc.In? && d.readopen)
    case WriteFull(_, _) => pc.Waking? && pc.c == READ && Full(d) && d.readopen
    case WriteWait(_, _) => pc.In? && Full(d) && d.readopen
    case WriteEnd(_) => pc.Waking? && pc.c == READ
    case ReadWait(_) => !pc.Out? && !pc.Waking?
    case ReadCopy(_, _) => pc.In?
    case ReadEnd(_) => pc.Waking? && pc.c == WRITE
    case Close(_) => pc.In?
    case CloseWake(w) => pc.In? || (pc.Waking? && pc.c == if w then READ else WRITE)
    case Leave(_) => pc.In?
  }

  predicate OwesReaders(l: Local) {
    (l.Write? && l.dirty) || l.WriteFull? || l.WriteEnd? || (l.CloseWake? && l.writable)
  }

  predicate OwesWriters(l: Local) {
    l.ReadCopy? || l.ReadEnd? || (l.CloseWake? && !l.writable)
  }

  ghost predicate SystemInv(s: System) {
    && Inv(Ready, s.core) && |s.local| == |s.core.procs|
    && Fifo(s.core.d, s.sent, s.received)
    && (forall p :: 0 <= p < |s.local| ==> Fits(s.core.procs[p].pc, s.local[p], s.core.d))
    && (forall c :: c in s.core.owed ==> c == READ || c == WRITE)
    && (READ in s.core.owed ==> s.spoiled || (s.core.holder >= 0 && OwesReaders(s.local[s.core.holder])))
    && (WRITE in s.core.owed ==> s.core.holder >= 0 && OwesWriters(s.local[s.core.holder]))
  }

  ghost predicate Initial(s: System) {
    && |s.local| == |s.core.procs| && s.core.holder == -1 && s.core.owed == iset{} && s.core.clear == iset{}
    && s.sent == s.received == [] && !s.spoiled && s.killed == {} && s.bad == {}
    && |s.core.d.data| == PIPESIZE && s.core.d == Ring(s.core.d.data, 0, 0, true, true)
    && forall p :: 0 <= p < |s.local| ==> s.local[p] == Idle && s.core.procs[p] == Proc(Out, RUNNING, 0)
  }

  lemma StepKeepsSystem(s: System, t: System, p: nat, a: Action<Ring>, kills: bool)
    requires SystemInv(s) && SystemStep(s, t, p, a, kills)
    ensures SystemInv(t)
  {
    hide Fifo;
    StepKeepsInv(Ready, s.core, t.core, p, a);
    StepKeepsFifo(s, t, p, a, kills);
    StepKeepsFits(s, t, p, a, kills);
  }

  lemma StepKeepsFits(s: System, t: System, p: nat, a: Action<Ring>, kills: bool)
    requires SystemInv(s) && SystemStep(s, t, p, a, kills)
    ensures forall q :: 0 <= q < |t.local| ==> Fits(t.core.procs[q].pc, t.local[q], t.core.d)
  {
    hide Fifo;
    StepKeepsInv(Ready, s.core, t.core, p, a);
  }

  lemma StepKeepsFifo(s: System, t: System, p: nat, a: Action<Ring>, kills: bool)
    requires SystemInv(s) && SystemStep(s, t, p, a, kills)
    ensures Fifo(t.core.d, t.sent, t.received)
  {
    hide Fifo, Inv;
    if a.Change? {
      match s.local[p]
      case Write(src, i, _) => PutKeepsFifo(s.core.d, s.sent, s.received, src[i]);
      case ReadWait(n) => TakeKeepsFifo(s.core.d, s.sent, s.received);
      case ReadCopy(n, got) => TakeKeepsFifo(s.core.d, s.sent, s.received);
      case Close(w) => FlagsKeepFifo(s.core.d, t.core.d, s.sent, s.received);
    }
  }

  lemma FlagsKeepFifo(d: Ring, e: Ring, sent: seq<Byte>, received: seq<Byte>)
    requires Fifo(d, sent, received) && e.(readopen := d.readopen, writeopen := d.writeopen) == d
    ensures Fifo(e, sent, received)
  {
  }

  ghost predicate Next(s: System, t: System, kills: bool) {
    (exists p, a :: SystemStep(s, t, p, a, kills)) || exists q: nat :: KillStep(s, t, q)
  }

  /** A run of any number of processes. `kills`: a writer may be killed with bytes unannounced. */
  ghost predicate IsRun(run: seq<System>, kills: bool) {
    && |run| > 0 && Initial(run[0])
    && forall k :: 0 < k < |run| ==> Next(run[k - 1], run[k], kills)
  }

  lemma {:induction false} RunKeepsSystem(run: seq<System>, kills: bool, k: nat)
    requires IsRun(run, kills) && k < |run|
    ensures SystemInv(run[k]) && (run[k].spoiled ==> kills)
  {
    if k > 0 {
      RunKeepsSystem(run, kills, k - 1);
      var s, t := run[k - 1], run[k];
      if p, a :| SystemStep(s, t, p, a, kills) {
        StepKeepsSystem(s, t, p, a, kills);
      }
    }
  }

  // ---- what the calls return -----------------------------------------------------------------

  /** A returning call has a reason for what it returns. A write is short only for a bad address; a read is
      short only if the pipe is empty or for a bad address, gets nothing only if moreover there is no writer,
      and fails only for a bad address. */
  ghost predicate Justified(s: System, p: nat, ret: Return) {
    match ret
    case Wrote(r, n) => 0 <= r <= n && (r < n ==> p in s.bad)
    case GotBytes(r, n) =>
      && -1 <= r <= n && (r < 0 ==> p in s.bad) && (0 <= r < n ==> p in s.bad || |s.sent| == |s.received|)
      && (r == 0 && n > 0 ==> |s.sent| == |s.received| && !s.core.d.writeopen)
    case Closed => true
  }

  /** Every call about to return has its reason, and every loop its count. */
  ghost predicate ReturnsOk(s: System) {
    forall p :: 0 <= p < |s.local| ==>
      && (s.local[p].WriteEnd? || s.local[p].ReadEnd? || s.local[p].Leave? ==> Justified(s, p, s.local[p].ret))
      && (s.local[p].Write? || s.local[p].WriteFull? || s.local[p].WriteWait? ==> s.local[p].i <= |s.local[p].src|)
      && (s.local[p].ReadCopy? ==> 0 < s.local[p].got <= s.local[p].n)
  }

  lemma StepKeepsReturns(s: System, t: System, p: nat, a: Action<Ring>, kills: bool)
    requires SystemInv(s) && ReturnsOk(s) && SystemStep(s, t, p, a, kills)
    ensures ReturnsOk(t)
  {
    TestsAreExact(s.core.d, s.sent, s.received);
    hide Fifo;
  }

  /** Why a call returns: it has been killed, a writer has nobody left to read, or it is through with its loop
      for the reason its result gives. */
  ghost predicate MayReturn(s: System, p: nat)
    requires p < |s.local|
  {
    match s.local[p]
    case Write(src, i, _) => i < |src| && (p in s.killed || !s.core.d.readopen)
    case ReadWait(_) => p in s.killed && |s.sent| == |s.received| && s.core.d.writeopen
    case Leave(ret) => Justified(s, p, ret)
    case _ => false
  }

  /** In every run a call returns only for its reason. */
  lemma {:induction false} ReturnsAreJustified(run: seq<System>, kills: bool, k: nat, p: nat, a: Action<Ring>)
    requires IsRun(run, kills) && k + 1 < |run| && SystemStep(run[k], run[k + 1], p, a, kills)
    ensures !run[k].local[p].Idle? && run[k + 1].local[p].Idle? ==> MayReturn(run[k], p)
  {
    RunKeepsReturns(run, kills, k);
    TestsAreExact(run[k].core.d, run[k].sent, run[k].received);
  }

  lemma {:induction false} RunKeepsReturns(run: seq<System>, kills: bool, k: nat)
    requires IsRun(run, kills) && k < |run|
    ensures SystemInv(run[k]) && ReturnsOk(run[k])
  {
    RunKeepsSystem(run, kills, k);
    if k > 0 {
      RunKeepsReturns(run, kills, k - 1);
      var s, t := run[k - 1], run[k];
      if p, a :| SystemStep(s, t, p, a, kills) {
        StepKeepsReturns(s, t, p, a, kills);
      }
    }
  }

  predicate AsleepOn(q: Proc, c: nat) {
    Committed(q, c) || (q.run.SLEEPING? && q.chan == c)
  }

  /** What has been received is what was sent first, and the rest fits the ring. */
  ghost predicate InOrder(s: System) {
    |s.received| <= |s.sent| <= |s.received| + PIPESIZE && s.received == s.sent[..|s.received|]
  }

  /** While the pipe's lock is free, no writer sleeps that has room or no reader end. */
  ghost predicate WritersAwake(s: System) {
    s.core.holder == -1 ==>
      forall p :: 0 <= p < |s.core.procs| && AsleepOn(s.core.procs[p], WRITE) ==>
        |s.sent| == |s.received| + PIPESIZE && s.core.d.readopen
  }

  /** While the pipe's lock is free, no reader sleeps that has bytes or no writer end. */
  ghost predicate ReadersAwake(s: System) {
    s.core.holder == -1 ==>
      forall p :: 0 <= p < |s.core.procs| && AsleepOn(s.core.procs[p], READ) ==>
        |s.sent| == |s.received| && s.core.d.writeopen
  }

  /** In every run the bytes are in order and no writer misses a wakeup; no reader does either, except
      between the killing of a writer with bytes unannounced and the end of the next wakeup of readers. */
  lemma {:induction false} PipeIsSafe(run: seq<System>, kills: bool, k: nat)
    requires IsRun(run, kills) && k < |run|
    ensures InOrder(run[k]) && WritersAwake(run[k])
    ensures !run[k].spoiled ==> ReadersAwake(run[k])
  {
    RunKeepsSystem(run, kills, k);
    var s := run[k];
    TestsAreExact(s.core.d, s.sent, s.received);
    if s.core.holder == -1 {
      forall p | 0 <= p < |s.core.procs|
        ensures AsleepOn(s.core.procs[p], WRITE) ==> !Ready(WRITE, s.core.d)
        ensures !s.spoiled && AsleepOn(s.core.procs[p], READ) ==> !Ready(READ, s.core.d)
      {
        if Ready(WRITE, s.core.d) { NoLostWakeup(Ready, s.core, p, WRITE); }
        if Ready(READ, s.core.d) && !s.spoiled { NoLostWakeup(Ready, s.core, p, READ); }
      }
    }
  }

  /** Every run is safe for readers too exactly when a writer is never killed between putting a byte
      in the ring and the wakeup that announces it. */
  lemma ReadersAreSafe(kills: bool)
    ensures (forall run: seq<System>, k: nat :: IsRun(run, kills) && k < |run| ==>
               InOrder(run[k]) && WritersAwake(run[k]) && ReadersAwake(run[k]))
            <==> !kills
  {
    if kills {
      var run := KilledWriterLosesAWakeup();
      assert !ReadersAwake(run[|run| - 1]);
    } else {
      forall run: seq<System>, k: nat | IsRun(run, kills) && k < |run|
        ensures InOrder(run[k]) && WritersAwake(run[k]) && ReadersAwake(run[k])
      {
        RunKeepsSystem(run, kills, k);
        PipeIsSafe(run, kills, k);
      }
    }
  }

  // ---- a writer killed with a byte unannounced ---------------------------------------

  const EMPTY: Ring := Ring(seq(PIPESIZE, _ => 0), 0, 0, true, true)

  ghost function ReaderAt(k: nat): (q: Proc) {
    match k
    case 0 => Proc(Out, RUNNING, 0)
    case 1 => Proc(In, RUNNING, 0)
    case 2 => Proc(Calling(READ), RUNNING, 0)
    case 3 => Proc(Both(READ), RUNNING, 0)
    case 4 => Proc(Dropped(READ), RUNNING, 0)
    case 5 => Proc(Marked(READ), SLEEPING, READ)
    case _ => Proc(Away(READ), SLEEPING, READ)
  }

  /** Eleven states: process 0 falls asleep reading, process 1 writes one of two bytes and is killed. */
  ghost function At(k: nat): (s: System) {
    var reader := ReaderAt(k);
    var writer := if 7 <= k <= 9 then Proc(In, RUNNING, 0) else Proc(Out, RUNNING, 0);
    var holder := if 1 <= k <= 3 then 0 else if 7 <= k <= 9 then 1 else -1;
    var d := if k >= 8 then Put(EMPTY, 7) else EMPTY;
    var owed := if k >= 8 then iset{} + NewlyReady(Ready, EMPTY, Put(EMPTY, 7), iset{}) else iset{};
    var writing := if k == 7 then Write([7, 8], 0, false) else if 8 <= k <= 9 then Write([7, 8], 1, true) else Idle;
    System(State([reader, writer], holder, d, owed, iset{}), [if k == 0 then Idle else ReadWait(1), writing],
           if k >= 8 then [7] else [], [], k >= 10, if k >= 9 then {1} else {}, {})
  }

  lemma FallsAsleep(k: nat)
    requires k < 6
    ensures Next(At(k), At(k + 1), true)
  {
    var a: Action<Ring> := match k
      case 0 => Acquire
      case 1 => BeginSleep(READ)
      case 2 => LockSelf
      case 3 => Drop
      case 4 => Mark
      case _ => Switch;
    assert SystemStep(At(k), At(k + 1), 0, a, true);
  }

  lemma WritesAndDies(k: nat)
    requires 6 <= k < 10
    ensures Next(At(k), At(k + 1), true)
  {
    if k == 8 {
      assert KillStep(At(8), At(9), 1);
      return;
    }
    var a: Action<Ring> := match k
      case 6 => Acquire
      case 7 => Change(Put(EMPTY, 7))
      case _ => Release;
    assert At(k + 1).local == At(k).local[1 := At(k + 1).local[1]];
    assert SystemStep(At(k), At(k + 1), 1, a, true);
  }

  /** A writer killed after its first byte returns without waking the reader: the lock is free,
      the pipe holds a byte, and the reader sleeps on. */
  lemma KilledWriterLosesAWakeup() returns (run: seq<System>)
    ensures IsRun(run, true)
    ensures var s := run[|run| - 1];
            && s.core.holder == -1 && s.spoiled && |s.core.procs| == 2
            && AsleepOn(s.core.procs[0], READ) && |s.sent| == 1 && |s.received| == 0
  {
    run := seq(11, k requires 0 <= k < 11 => At(k));
    forall k | 0 < k < |run| ensures Next(run[k - 1], run[k], true) {
      hide At, Next;
      if k <= 6 { FallsAsleep(k - 1); } else { WritesAndDies(k - 1); }
    }
  }
}
