/** Log space over every interleaving of file-system operations.

    `used[i]` is how many log slots open operation i has taken; an operation takes a slot
    when it logs a block no operation of the transaction has logged yet. */
module LogSpace {
  const MAXOPBLOCKS := 10
  const LOGBLOCKS := 30

  datatype Space = Space(n: nat, used: seq<nat>, committing: bool)

  datatype Step = Begin | Take(i: nat) | End(i: nat) | Committed

  const EMPTY := Space(0, [], false)

  /** What begin_op, log_write, end_op and the end of commit do to the counters, when no
      operation takes more than `limit` slots. begin_op waits unless its test passes. */
  predicate Enabled(s: Space, step: Step, limit: nat) {
    match step
    case Begin => !s.committing && s.n + (|s.used| + 1) * MAXOPBLOCKS <= LOGBLOCKS
    case Take(i) => i < |s.used| && s.used[i] < limit && s.n < LOGBLOCKS
    case End(i) => i < |s.used|
    case Committed => s.committing
  }

  function Next(s: Space, step: Step, limit: nat): (r: Space)
    requires Enabled(s, step, limit)
  {
    match step
    case Begin => s.(used := s.used + [0])
    case Take(i) => s.(n := s.n + 1, used := s.used[i := s.used[i] + 1])
    case End(i) => Space(s.n, s.used[..i] + s.used[i + 1..], |s.used| == 1)
    case Committed => Space(0, s.used, false)
  }

  ghost predicate Run(states: seq<Space>, steps: seq<Step>, limit: nat) {
    && |states| == |steps| + 1 && states[0] == EMPTY
    && forall k :: 0 <= k < |steps| ==> Enabled(states[k], steps[k], limit)
                                        && states[k + 1] == Next(states[k], steps[k], limit)
  }

  /** Reserved but untaken slots of the open operations. */
  ghost function Unused(used: seq<nat>): (r: int) {
    if used == [] then 0 else Unused(used[..|used| - 1]) + MAXOPBLOCKS - used[|used| - 1]
  }

  lemma {:induction false} UnusedConcat(a: seq<nat>, b: seq<nat>)
    ensures Unused(a + b) == Unused(a) + Unused(b)
  {
    if b == [] {
      assert a + b == a;
    } else {
      assert (a + b)[..|a + b| - 1] == a + b[..|b| - 1];
      UnusedConcat(a, b[..|b| - 1]);
    }
  }

  lemma UnusedOne(x: nat)
    ensures Unused([x]) == MAXOPBLOCKS - x
  {
    assert [x][..0] == [];
  }

  lemma UnusedUpdate(used: seq<nat>, i: nat, x: nat)
    requires i < |used|
    ensures Unused(used[i := x]) == Unused(used) + used[i] - x
    ensures Unused(used[..i] + used[i + 1..]) == Unused(used) - MAXOPBLOCKS + used[i]
  {
    var a, b := used[..i], used[i + 1..];
    assert used == a + [used[i]] + b && used[i := x] == a + [x] + b;
    UnusedOne(used[i]);
    UnusedOne(x);
    UnusedConcat(a, [used[i]]);
    UnusedConcat(a + [used[i]], b);
    UnusedConcat(a, [x]);
    UnusedConcat(a + [x], b);
    UnusedConcat(a, b);
  }

  lemma {:induction false} UnusedBounds(used: seq<nat>)
    ensures Unused(used) <= MAXOPBLOCKS * |used|
    ensures (forall i :: 0 <= i < |used| ==> used[i] < MAXOPBLOCKS) ==> |used| <= Unused(used)
  {
    if used != [] {
      UnusedBounds(used[..|used| - 1]);
    }
  }

  /** The reservation invariant, and what it needs: a commit runs only with nothing open. */
  ghost predicate Inv(s: Space, limit: nat) {
    && s.n + Unused(s.used) <= LOGBLOCKS
    && (forall i :: 0 <= i < |s.used| ==> s.used[i] <= limit)
    && (s.committing ==> s.used == [])
    && (limit < MAXOPBLOCKS ==> s.n < LOGBLOCKS)
  }

  lemma BeginKeepsInv(s: Space, limit: nat)
    requires Inv(s, limit) && Enabled(s, Begin, limit)
    ensures Inv(Next(s, Begin, limit), limit)
  {
    hide Unused;
    UnusedBounds(s.used);
    UnusedOne(0);
    UnusedConcat(s.used, [0]);
  }

  lemma TakeKeepsInv(s: Space, i: nat, limit: nat)
    requires Inv(s, limit) && Enabled(s, Take(i), limit) && limit <= MAXOPBLOCKS
    ensures Inv(Next(s, Take(i), limit), limit)
  {
    hide Unused;
    var used := s.used[i := s.used[i] + 1];
    UnusedUpdate(s.used, i, s.used[i] + 1);
    UnusedBounds(used);
    assert |used| > 0;
  }

  lemma EndKeepsInv(s: Space, i: nat, limit: nat)
    requires Inv(s, limit) && Enabled(s, End(i), limit) && limit <= MAXOPBLOCKS
    ensures Inv(Next(s, End(i), limit), limit)
  {
    hide Unused;
    UnusedUpdate(s.used, i, 0);
    var rest := s.used[..i] + s.used[i + 1..];
    assert |s.used| == 1 ==> rest == [];
  }

  lemma StepKeepsInv(s: Space, step: Step, limit: nat)
    requires Inv(s, limit) && Enabled(s, step, limit) && limit <= MAXOPBLOCKS
    ensures Inv(Next(s, step, limit), limit)
  {
    match step
    case Begin => BeginKeepsInv(s, limit);
    case Take(i) => TakeKeepsInv(s, i, limit);
    case End(i) => EndKeepsInv(s, i, limit);
    case Committed => CommittedKeepsInv(s, limit);
  }

  lemma CommittedKeepsInv(s: Space, limit: nat)
    requires Inv(s, limit) && s.committing
    ensures Inv(Space(0, [], true), limit) && Inv(Space(0, [], false), limit)
    ensures s.used == []
  {
  }

  lemma {:induction false} RunKeepsInv(states: seq<Space>, steps: seq<Step>, limit: nat, k: nat)
    requires Run(states, steps, limit) && limit <= MAXOPBLOCKS && k < |states|
    ensures Inv(states[k], limit)
  {
    if k > 0 {
      RunKeepsInv(states, steps, limit, k - 1);
      StepKeepsInv(states[k - 1], steps[k - 1], limit);
    }
  }

  // ---- the tight case: three operations of ten blocks each ----------------------

  ghost function Filled(k: nat): (r: Space) {
    if k < 3 then Space(0, seq(k, _ => 0), false)
    else if k <= 33 then
      var t := k - 3;
      Space(t, [if t < 10 then t else 10, if t < 10 then 0 else if t < 20 then t - 10 else 10, if t < 20 then
                  0 else t - 20], false)
    else EMPTY
  }

  ghost function FillStep(k: nat): (r: Step) {
    if k < 3 then Begin else if k < 13 then Take(0) else if k < 23 then Take(1) else Take(2)
  }

  lemma FillingRun(limit: nat)
    requires limit >= MAXOPBLOCKS
    ensures exists states: seq<Space>, steps: seq<Step> :: Run(states, steps, limit) && states[|steps|].n == LOGBLOCKS
  {
    var states, steps := seq(34, (k: nat) => Filled(k)), seq(33, (k: nat) => FillStep(k));
    forall k | 0 <= k < 33
      ensures Enabled(states[k], steps[k], limit) && states[k + 1] == Next(states[k], steps[k], limit)
    {
      FillStepOk(k, limit);
    }
    assert Run(states, steps, limit);
  }

  lemma FillStepOk(k: nat, limit: nat)
    requires k < 33 && limit >= MAXOPBLOCKS
    ensures Enabled(Filled(k), FillStep(k), limit) && Filled(k + 1) == Next(Filled(k), FillStep(k), limit)
  {
    if k < 3 {
      assert Filled(k).used + [0] == Filled(k + 1).used;
    } else {
      var i := if k < 13 then 0 else if k < 23 then 1 else 2;
      var u := Filled(k).used;
      assert u[i := u[i] + 1] == Filled(k + 1).used;
    }
  }

  /** mkfs reserves 30 blocks for the log, header included, so slot 30 would fall on the first
      inode block. Over all runs the log stays within its 29 slots, and so never reaches the
      "too big a transaction" panic, exactly when no operation takes as many slots as it reserved. */
  lemma LogRegionSuffices(limit: nat)
    ensures (forall states: seq<Space>, steps: seq<Step>, k: nat :: Run(states, steps, limit) && k < |states| ==>
             states[k].n < LOGBLOCKS)
            <==> limit < MAXOPBLOCKS
  {
    if limit < MAXOPBLOCKS {
      forall states: seq<Space>, steps: seq<Step>, k: nat | Run(states, steps, limit) && k < |states|
        ensures states[k].n < LOGBLOCKS
      {
        RunKeepsInv(states, steps, limit, k);
      }
    } else {
      FillingRun(limit);
    }
  }
}
