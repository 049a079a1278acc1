/** Fix proposals: the kernel's verifier, the checkpoint slot, and the evaluator's loop of verifying,
    rolling back and amending. */
module VerdictLoop {
  import opened Blocks

  const LEN := 16
  const REPORT := 0
  const ANNOTATE := 1
  const REQUEUE := 2
  const OK := 0
  const ERR_FIELD := -1
  const ERR_RANGE := -2
  const ERR_PROTECTED := -3
  const ERR_ACTION := -4

  type Field = f: seq<Byte> | |f| == LEN witness seq(LEN, _ => 0)
  type Int32 = x: int | -0x8000_0000 <= x < 0x8000_0000

  /** struct fix_proposal */
  datatype Fix = Fix(role: Field, target: Field, action: Int32, severity: Int32, retry: Int32)

  // ---- C strings in fixed buffers ---------------------------------------------------

  /** The number of bytes before the first NUL, or all of them. */
  function StrLen(f: seq<Byte>): (n: nat)
    ensures n <= |f| && (forall i :: 0 <= i < n ==> f[i] != 0) && (n < |f| ==> f[n] == 0)
  {
    if |f| == 0 || f[0] == 0 then 0 else 1 + StrLen(f[1..])
  }

  function Text(f: seq<Byte>): (t: seq<Byte>) {
    f[..StrLen(f)]
  }

  /** Non-empty and NUL-terminated within the buffer. */
  predicate FieldOk(f: seq<Byte>) {
    1 <= StrLen(f) < |f|
  }

  lemma StrLenIs(f: seq<Byte>, n: nat)
    requires n <= |f| && (forall i :: 0 <= i < n ==> f[i] != 0) && (n < |f| ==> f[n] == 0)
    ensures StrLen(f) == n
  {
  }

  /** field_ok */
  method CheckField(f: seq<Byte>) returns (ok: bool)
    ensures ok == FieldOk(f)
  {
    var n := 0;
    while n < |f| && f[n] != 0
      invariant 0 <= n <= |f| && forall i :: 0 <= i < n ==> f[i] != 0
    {
      n := n + 1;
    }
    StrLenIs(f, n);
    ok := n >= 1 && n < |f|;
  }

  /** strncmp(p, q, n) == 0, with the bytes past the end of a buffer never looked at. */
  method SameString(p: seq<Byte>, q: seq<Byte>, n: nat) returns (same: bool)
    requires n <= |p| && StrLen(q) < |q| && StrLen(q) < n
    ensures same <==> Text(p) == Text(q)
  {
    var k := 0;
    while k < n && p[k] != 0 && p[k] == q[k]
      invariant 0 <= k <= n && k <= StrLen(p) && k <= StrLen(q) && p[..k] == q[..k]
    {
      k := k + 1;
    }
    same := k == n || p[k] == q[k];
    if same {
      assert StrLen(p) == k && StrLen(q) == k;
    } else {
      assert k < |Text(p)| == |Text(q)| ==> Text(p)[k] != Text(q)[k];
    }
  }

  /** strcopy of a buffer's text into another buffer of the same size: bytes after the NUL stay. */
  function StrCopy(dst: Field, src: Field): (r: Field)
    ensures StrLen(src) < LEN ==> Text(r) == Text(src)
  {
    var n := if StrLen(src) < LEN - 1 then StrLen(src) else LEN - 1;
    var r := src[..n] + [0] + dst[n + 1..];
    assert StrLen(r) == n by { StrLenIs(r, n); }
    r
  }

  // ---- the verifier -------------------------------------------------------------------

  const INIT_NAME: seq<Byte> := [105, 110, 105, 116, 0]
  const SH_NAME: seq<Byte> := [115, 104, 0]
  const EVALUATOR_NAME: seq<Byte> := [101, 118, 97, 108, 117, 97, 116, 111, 114, 0]

  predicate Allowed(action: int) {
    action == REPORT || action == ANNOTATE || action == REQUEUE
  }

  predicate InRange(p: Fix) {
    0 <= p.severity <= 3 && p.retry >= 0
  }

  /** target_is_protected; `held` is what the snapshot of the process table says of the target. */
  ghost predicate Protected(p: Fix, held: bool) {
    Text(p.target) in {Text(INIT_NAME), Text(SH_NAME), Text(EVALUATOR_NAME)} || held
  }

  /** What verify_fix answers. */
  ghost function Verdict(p: Fix, held: bool): (rc: int) {
    if !FieldOk(p.role) || !FieldOk(p.target) then ERR_FIELD
    else if !InRange(p) then ERR_RANGE
    else if !Allowed(p.action) && Protected(p, held) then ERR_PROTECTED
    else if !Allowed(p.action) then ERR_ACTION
    else OK
  }

  method VerifyFix(p: Fix, held: bool) returns (rc: int)
    ensures rc == Verdict(p, held)
  {
    var role := CheckField(p.role);
    if !role {
      return ERR_FIELD;
    }
    var target := CheckField(p.target);
    if !target {
      return ERR_FIELD;
    }
    if p.severity < 0 || p.severity > 3 || p.retry < 0 {
      return ERR_RANGE;
    }
    var destructive := p.action != REPORT && p.action != ANNOTATE && p.action != REQUEUE;
    if destructive {
      var protected := TargetIsProtected(p, held);
      if protected {
        return ERR_PROTECTED;
      }
    }
    if !Allowed(p.action) {
      return ERR_ACTION;
    }
    rc := OK;
  }

  method TargetIsProtected(p: Fix, held: bool) returns (yes: bool)
    ensures yes == Protected(p, held)
  {
    hide Text, StrLen;
    var names := [INIT_NAME, SH_NAME, EVALUATOR_NAME];
    StrLenIs(INIT_NAME, 4);
    StrLenIs(SH_NAME, 2);
    StrLenIs(EVALUATOR_NAME, 9);
    var i := 0;
    while i < |names|
      invariant 0 <= i <= |names| && forall j :: 0 <= j < i ==> Text(p.target) != Text(names[j])
    {
      var same := SameString(p.target, names[i], LEN);
      if same {
        return true;
      }
      i := i + 1;
    }
    assert Text(p.target) != Text(names[0]) && Text(p.target) != Text(names[1]) && Text(p.target) != Text(names[2]);
    yes := held;
  }

  /** What each answer means. A destructive action is never accepted, and on init, sh or the evaluator, or on a
      process that the snapshot protects, it is told apart from an unknown one. */
  lemma VerdictMeans(p: Fix, held: bool)
    ensures var rc := Verdict(p, held);
            var sound := 1 <= StrLen(p.role) < 16 && 1 <= StrLen(p.target) < 16;
            var fits := 0 <= p.severity <= 3 && p.retry >= 0;
            var mild := p.action in {0, 1, 2};
            var guarded := held || Text(p.target) in {[105, 110, 105, 116], [115, 104],
                                                      [101, 118, 97, 108, 117, 97, 116, 111, 114]};
            && (rc == 0 <==> sound && fits && mild) && (rc == ERR_FIELD <==> !sound)
            && (rc == ERR_RANGE <==> sound && !fits) && (rc == ERR_PROTECTED <==> sound && fits && !mild && guarded)
            && (rc == ERR_ACTION <==> sound && fits && !mild && !guarded)
  {
    hide Text, StrLen;
    NamesAre();
  }

  lemma NamesAre()
    ensures Text(INIT_NAME) == [105, 110, 105, 116] && Text(SH_NAME) == [115, 104]
    ensures Text(EVALUATOR_NAME) == [101, 118, 97, 108, 117, 97, 116, 111, 114]
  {
    StrLenIs(INIT_NAME, 4);
    StrLenIs(SH_NAME, 2);
    StrLenIs(EVALUATOR_NAME, 9);
  }

  /** Accepted whatever the state of the process table. */
  ghost predicate Accepted(p: Fix) {
    forall held :: Verdict(p, held) == OK
  }

  /** An accepted proposal stays accepted: its action is on the whitelist, so no snapshot matters. */
  lemma AcceptedOnceIsAccepted(p: Fix, held: bool)
    requires Verdict(p, held) == OK
    ensures Accepted(p)
  {
  }

  // ---- amending -------------------------------------------------------------------------

  /** amend_from_verdict */
  function Amend(p: Fix, base: Fix, rc: int): (q: Fix) {
    if rc == ERR_RANGE then
      p.(severity := if p.severity < 0 then 0 else if p.severity > 3 then 3 else
           p.severity, retry := if p.retry < 0 then 0 else p.retry)
    else if rc == ERR_ACTION then p.(action := REQUEUE)
    else if rc == ERR_PROTECTED then p.(action := REPORT, target := StrCopy(p.target, base.target))
    else if rc == ERR_FIELD then p.(role := StrCopy(p.role, base.role), target := StrCopy(p.target, base.target))
    else base
  }

  function Dist(a: int, b: int): (d: nat) {
    if a < b then b - a else a - b
  }

  /** What an amendment leaves alone, and what it takes from where: numbers go to the nearest ones in range, texts
      come from the state rolled back to, an action becomes a harmless one. */
  lemma AmendIs(p: Fix, base: Fix, held: bool)
    requires Accepted(base) && Verdict(p, held) != OK
    ensures var rc := Verdict(p, held); var q := Amend(p, base, rc);
            && (rc == ERR_RANGE ==>
                  && q == p.(severity := q.severity, retry := q.retry) && InRange(q)
                  && (forall x :: 0 <= x <= 3 ==> Dist(q.severity, p.severity) <= Dist(x, p.severity))
                  && (forall x :: x >= 0 ==> Dist(q.retry, p.retry) <= Dist(x, p.retry)))
            && (rc == ERR_ACTION ==> q == p.(action := REQUEUE))
            && (rc == ERR_PROTECTED ==> q == p.(action := REPORT, target := q.target)
                                        && Text(q.target) == Text(base.target))
            && (rc == ERR_FIELD ==> && q == p.(role := q.role, target := q.target)
                                    && Text(q.role) == Text(base.role) && Text(q.target) == Text(base.target))
  {
    assert Verdict(base, held) == OK;
  }

  /** How many of the three kinds of defect a proposal has. */
  function Defects(p: Fix): (n: nat)
    ensures n <= 3
  {
    (if FieldOk(p.role) && FieldOk(p.target) then 0 else 1)
    + (if InRange(p) then 0 else 1)
    + (if Allowed(p.action) then 0 else 1)
  }

  /** Each amendment removes exactly one defect, under any snapshot and from any accepted base. */
  lemma AmendRemovesOne(p: Fix, base: Fix, held: bool)
    requires Accepted(base)
    ensures Verdict(p, held) == OK <==> Defects(p) == 0
    ensures Verdict(p, held) != OK ==> Defects(Amend(p, base, Verdict(p, held))) == Defects(p) - 1
  {
    assert Verdict(base, false) == OK;
  }

  /** The proposal after k amendments, where step i sees snapshot held(i) and rolls back to bases[i]. */
  ghost function Amended(p: Fix, held: nat -> bool, bases: seq<Fix>, k: nat): (q: Fix)
    requires k <= |bases|
  {
    if k == 0 then p
    else var q := Amended(p, held, bases, k - 1);
      if Verdict(q, held(k - 1)) == OK then q else Amend(q, bases[k - 1], Verdict(q, held(k - 1)))
  }

  /** From any proposal the loop is accepted after exactly as many amendments as it has defects, so after at
      most three, whatever the snapshots and whatever accepted states it rolls back to. */
  lemma {:induction false} Converges(p: Fix, held: nat -> bool, bases: seq<Fix>, k: nat)
    requires k <= |bases| && forall i :: 0 <= i < |bases| ==> Accepted(bases[i])
    ensures Defects(Amended(p, held, bases, k)) == if k <= Defects(p) then Defects(p) - k else 0
    ensures Verdict(Amended(p, held, bases, k), held(k)) == OK <==> k >= Defects(p)
  {
    hide Verdict, Amend, Defects, Accepted;
    assert Accepted(DefaultProposal()) by { ProposalDefects(false); }
    if k > 0 {
      Converges(p, held, bases, k - 1);
      assert Accepted(bases[k - 1]);
      AmendRemovesOne(Amended(p, held, bases, k - 1), bases[k - 1], held(k - 1));
    }
    AmendRemovesOne(Amended(p, held, bases, k), DefaultProposal(), held(k));
  }

  // ---- the checkpoint slot ------------------------------------------------------------------

  const CKPT_MAX := 256
  const FIX_SIZE := 44

  /** An int as four bytes, low byte first, two's complement. */
  function IntBytes(x: Int32): (b: seq<Byte>)
    ensures |b| == 4
  {
    var u: int := if x < 0 then x + 0x1_0000_0000 else x;
    [u % 256, u / 256 % 256, u / 65536 % 256, u / 16777216]
  }

  function BytesInt(b: seq<Byte>): (x: Int32)
    requires |b| == 4
  {
    var b0: int, b1: int, b2: int, b3: int := b[0], b[1], b[2], b[3];
    var u := b0 + 256 * b1 + 65536 * b2 + 16777216 * b3;
    if u >= 0x8000_0000 then u - 0x1_0000_0000 else u
  }

  lemma IntRoundTrip(x: Int32)
    ensures BytesInt(IntBytes(x)) == x
  {
    var u: int := if x < 0 then x + 0x1_0000_0000 else x;
    BytesOfWord(u);
  }

  /** The memory image of a proposal. */
  function Image(p: Fix): (b: seq<Byte>)
    ensures |b| == FIX_SIZE
  {
    p.role + p.target + IntBytes(p.action) + IntBytes(p.severity) + IntBytes(p.retry)
  }

  function FromImage(b: seq<Byte>): (p: Fix)
    requires |b| == FIX_SIZE
  {
    Fix(b[..16], b[16..32], BytesInt(b[32..36]), BytesInt(b[36..40]), BytesInt(b[40..]))
  }

  lemma ImageRoundTrip(p: Fix)
    ensures FromImage(Image(p)) == p
  {
    var b := Image(p);
    assert b[..16] == p.role && b[16..32] == p.target;
    assert b[32..36] == IntBytes(p.action) && b[36..40] == IntBytes(p.severity) && b[40..] == IntBytes(p.retry);
    IntRoundTrip(p.action);
    IntRoundTrip(p.severity);
    IntRoundTrip(p.retry);
  }

  /** A checkpoint call of some process. */
  datatype Write = Write(pid: int, bytes: seq<Byte>, fault: bool)

  /** Whether the call overwrites the slot. */
  predicate Stores(w: Write) {
    |w.bytes| <= CKPT_MAX && (w.bytes == [] || !w.fault)
  }

  class Slot {
    const buf: array<Byte>
    var len: nat
    var owner: int

    ghost predicate Valid()
      reads this, buf
    {
      buf.Length == CKPT_MAX && len <= CKPT_MAX
    }

    constructor ()
      ensures Valid() && len == 0 && owner == 0 && fresh(buf)
    {
      buf := new Byte[CKPT_MAX](_ => 0);
      len, owner := 0, 0;
    }

    /** sys_checkpoint of n bytes at an address where memory holds src; `fault` is a failing copyin.
        The slot holds the caller's bytes, or is unchanged if the call fails. */
    method Checkpoint(pid: int, n: int, src: seq<Byte>, fault: bool) returns (r: int)
      requires Valid() && (n >= 0 ==> |src| == n)
      modifies this, buf
      ensures Valid() && r == if n < 0 || n > CKPT_MAX || (n > 0 && fault) then -1 else n
      ensures r >= 0 ==> r == len && owner == pid && buf[..len] == src
      ensures r < 0 ==> len == old(len) && owner == old(owner) && buf[..] == old(buf[..])
    {
      if n < 0 || n > CKPT_MAX {
        return -1;
      }
      if n > 0 && fault {
        return -1;
      }
      forall i | 0 <= i < n {
        buf[i] := src[i];
      }
      len, owner := n, pid;
      r := n;
    }

    /** sys_restore of at most max bytes: as much of the caller's own checkpoint as fits, nothing of
        another's; `fault` is a failing copyout. */
    method Restore(pid: int, max: int, fault: bool) returns (r: int, out: seq<Byte>)
      requires Valid()
      ensures out == if max < 0 || owner != pid then [] else if len <= max then buf[..len] else buf[..max]
      ensures r == if max < 0 || (out != [] && fault) then -1 else |out|
    {
      r, out := -1, [];
      if max < 0 {
        return;
      }
      var n := if owner == pid then len else 0;
      if n > max {
        n := max;
      }
      out := buf[..n];
      if n > 0 && fault {
        return;
      }
      r := n;
    }
  }

  // ---- the evaluator ---------------------------------------------------------------------------

  datatype Outcome = Accepts(attempts: nat) | Fails | CallFailed

  const MAX_RETRIES := 3

  function Padded(t: seq<Byte>): (f: Field)
    requires |t| < LEN
  {
    t + seq(LEN - |t|, _ => 0)
  }

  const FIXSUGGEST: seq<Byte> := [102, 105, 120, 115, 117, 103, 103, 101, 115, 116]
  const PARSER: seq<Byte> := [112, 97, 114, 115, 101, 114]

  /** build_default_proposal */
  function DefaultProposal(): (p: Fix) {
    Fix(Padded(FIXSUGGEST), Padded(PARSER), REPORT, 0, 0)
  }

  /** build_proposal; `bad` is whether the response holds the word ERROR. */
  function FirstProposal(bad: bool): (p: Fix) {
    Fix(Padded(FIXSUGGEST), Padded(PARSER), REQUEUE, if bad then 9 else 2, 0)
  }

  lemma PaddedOk(t: seq<Byte>)
    requires 0 < |t| < LEN && forall i :: 0 <= i < |t| ==> t[i] != 0
    ensures FieldOk(Padded(t))
  {
    StrLenIs(Padded(t), |t|);
  }

  lemma ProposalDefects(bad: bool)
    ensures Accepted(DefaultProposal()) && Defects(FirstProposal(bad)) == if bad then 1 else 0
  {
    PaddedOk(FIXSUGGEST);
    PaddedOk(PARSER);
  }

  class Evaluator {
    const pid: int
    const slot: Slot
    var prop: Fix
    var base: Fix

    /** The state to roll back to, in memory and in the slot if it is ours, is an accepted one. */
    ghost predicate Valid()
      reads this, slot, slot.buf
      ensures Valid() && slot.owner == pid ==> slot.buf.Length >= FIX_SIZE
    {
      && slot.Valid() && Accepted(base)
      && (slot.owner == pid ==> slot.len == FIX_SIZE && Accepted(FromImage(slot.buf[..FIX_SIZE])))
    }

    /** The start of main: the default proposal is checkpointed. */
    constructor (pid_: int, slot_: Slot)
      requires slot_.Valid()
      modifies slot_, slot_.buf
      ensures Valid() && pid == pid_ && slot == slot_
    {
      pid, slot := pid_, slot_;
      base, prop := DefaultProposal(), DefaultProposal();
      new;
      ProposalDefects(false);
      ImageRoundTrip(base);
      var r := slot.Checkpoint(pid, FIX_SIZE, Image(base), false);
    }

    /** Other processes use the slot, in any number and with any bytes. */
    method OthersRun(writes: seq<Write>)
      requires Valid() && forall i :: 0 <= i < |writes| ==> writes[i].pid != pid
      modifies slot, slot.buf
      ensures Valid()
      ensures slot.owner == pid <==> old(slot.owner) == pid && !Overwrites(writes)
      ensures slot.owner == pid ==> slot.buf[..] == old(slot.buf[..])
    {
      var i := 0;
      while i < |writes|
        modifies slot, slot.buf
        invariant 0 <= i <= |writes| && Valid()
        invariant slot.owner == pid <==> old(slot.owner) == pid && !Overwrites(writes[..i])
        invariant slot.owner == pid ==> slot.buf[..] == old(slot.buf[..])
      {
        assert writes[..i + 1] == writes[..i] + [writes[i]];
        var r := slot.Checkpoint(writes[i].pid, |writes[i].bytes|, writes[i].bytes, writes[i].fault);
        i := i + 1;
      }
      assert writes[..i] == writes;
    }

    /** restore(&base, sizeof(base)); 0 bytes leave base as it was. */
    method Rollback()
      requires Valid()
      modifies this`base
      ensures Valid() && base == if slot.owner == pid then FromImage(slot.buf[..FIX_SIZE]) else old(base)
    {
      var r, bytes := slot.Restore(pid, FIX_SIZE, false);
      if |bytes| > 0 {
        assert bytes == slot.buf[..FIX_SIZE];
        base := FromImage(bytes);
      }
    }

    /** Other processes run, then this one rolls back. */
    method RunAndRollback(writes: seq<Write>)
      requires Valid() && forall i :: 0 <= i < |writes| ==> writes[i].pid != pid
      modifies this`base, slot, slot.buf
      ensures Valid() && (slot.owner == pid <==> old(slot.owner) == pid && !Overwrites(writes))
      ensures slot.owner == pid ==>
                && slot.buf.Length >= FIX_SIZE
                   && FromImage(slot.buf[..FIX_SIZE]) == old(FromImage(slot.buf[..FIX_SIZE]))
                && base == FromImage(slot.buf[..FIX_SIZE])
      ensures slot.owner != pid ==> base == old(base)
    {
      hide FromImage, Overwrites, Accepted;
      OthersRun(writes);
      assert slot.owner == pid ==> slot.buf[..FIX_SIZE] == slot.buf[..][..FIX_SIZE] == old(slot.buf[..])[..FIX_SIZE];
      Rollback();
    }

    /** The slot holds the accepted proposal. */
    ghost predicate Checkpointed()
      reads this, slot, slot.buf
    {
      slot.Valid() && slot.owner == pid && slot.len == FIX_SIZE && FromImage(slot.buf[..FIX_SIZE]) == prop
    }

    /** The retry loop from any proposal: accepted at attempt Defects + 1 if that is within the
        limit, and not otherwise. An accepted proposal is checkpointed, so it is what the next
        rollback of this process finds. */
    method Retry(first: Fix, held: nat -> bool, others: nat -> seq<Write>, callFails: nat -> bool)
      returns (r: Outcome, ghost bases: seq<Fix>)
      requires Valid() && forall k, i :: 0 <= i < |others(k)| ==> others(k)[i].pid != pid
      modifies this`prop, this`base, slot, slot.buf
      ensures Valid() && forall i :: 0 <= i < |bases| ==> Accepted(bases[i])
      ensures r.Accepts? ==> r.attempts == Defects(first) + 1 == |bases| + 1 && Accepted(prop) && Checkpointed()
      ensures prop == Amended(first, held, bases, |bases|)
      ensures var own := old(slot.owner) == pid;
              RolledBack(bases, if own then old(FromImage(slot.buf[..FIX_SIZE])) else DefaultProposal(), own, old(base),
                         others)
      ensures r.Fails? <==> Defects(first) >= MAX_RETRIES && !r.CallFailed?
      ensures r.CallFailed? ==> |bases| < MAX_RETRIES && |bases| <= Defects(first) && callFails(|bases|)
      ensures forall k :: 0 <= k < |bases| + (if r.Accepts? then 1 else 0) ==> !callFails(k)
    {
      hide Verdict, Amend, Defects, Accepted, Amended, Image, FromImage, LostBy, Overwrites, RolledBack;
      var attempts := 0;
      prop, bases := first, [];
      NotAmended(first, held);
      ghost var own := slot.owner == pid;
      ghost var ckpt := if own then FromImage(slot.buf[..FIX_SIZE]) else DefaultProposal();
      NotRolledBack(ckpt, own, base, others);
      while attempts < MAX_RETRIES
        modifies this`prop, this`base, slot, slot.buf
        invariant Valid() && 0 <= attempts <= MAX_RETRIES && attempts <= Defects(first)
                  && Defects(prop) == Defects(first) - attempts
        invariant |bases| == attempts && prop == Amended(first, held, bases, attempts)
        invariant forall i :: 0 <= i < |bases| ==> Accepted(bases[i]) && !callFails(i)
        invariant RolledBack(bases, ckpt, own, old(base), others)
        invariant base == if attempts == 0 then old(base) else bases[attempts - 1]
        invariant slot.owner == pid <==> own && (attempts == 0 || !LostBy(others, attempts - 1))
        invariant slot.owner == pid ==> slot.buf.Length >= FIX_SIZE && FromImage(slot.buf[..FIX_SIZE]) == ckpt
      {
        if callFails(attempts) {
          return CallFailed, bases;
        }
        var rc := VerifyFix(prop, held(attempts));
        AmendRemovesOne(prop, base, held(attempts));
        if rc == OK {
          AcceptedOnceIsAccepted(prop, held(attempts));
          ImageRoundTrip(prop);
          var stored := slot.Checkpoint(pid, FIX_SIZE, Image(prop), false);
          return Accepts(attempts + 1), bases;
        }
        LostMore(others, attempts);
        RunAndRollback(others(attempts));
        RolledBackMore(bases, base, ckpt, own, old(base), others);
        AmendRemovesOne(prop, base, held(attempts));
        AmendedMore(first, held, bases, base);
        bases := bases + [base];
        prop := Amend(prop, base, rc);
        attempts := attempts + 1;
      }
      r := Fails;
    }

    /** One line of input: the evaluator never reports failure; it accepts at the first or second attempt, unless its
        call to the proxy fails. */
    method HandleLine(bad: bool, held: nat -> bool, others: nat -> seq<Write>, callFails: nat -> bool)
      returns (r: Outcome)
      requires Valid() && forall k, i :: 0 <= i < |others(k)| ==> others(k)[i].pid != pid
      modifies this`prop, this`base, slot, slot.buf
      ensures Valid() && !r.Fails?
      ensures r.Accepts? ==> r.attempts == (if bad then 2 else 1) && Accepted(prop) && Checkpointed()
      ensures r.CallFailed? ==> callFails(0) || (bad && callFails(1))
    {
      ProposalDefects(bad);
      ghost var bases;
      r, bases := Retry(FirstProposal(bad), held, others, callFails);
    }
  }

  lemma NotAmended(p: Fix, held: nat -> bool)
    ensures Amended(p, held, [], 0) == p
  {
  }

  lemma AmendedMore(p: Fix, held: nat -> bool, bases: seq<Fix>, base: Fix)
    ensures var k := |bases|; var q := Amended(p, held, bases, k);
            Amended(p, held, bases + [base], k + 1) ==
            if Verdict(q, held(k)) == OK then q else Amend(q, base, Verdict(q, held(k)))
  {
    SameAmended(p, held, bases, base, |bases|);
  }

  lemma {:induction false} SameAmended(p: Fix, held: nat -> bool, bases: seq<Fix>, base: Fix, k: nat)
    requires k <= |bases|
    ensures Amended(p, held, bases + [base], k) == Amended(p, held, bases, k)
  {
    hide Verdict, Amend;
    if k > 0 { SameAmended(p, held, bases, base, k - 1); }
  }

  /** One of the calls stores something. */
  ghost predicate Overwrites(writes: seq<Write>) {
    exists i :: 0 <= i < |writes| && Stores(writes[i])
  }

  /** By the end of round k another process has overwritten the slot. */
  ghost predicate LostBy(others: nat -> seq<Write>, k: nat) {
    exists j: nat :: j <= k && Overwrites(others(j))
  }

  lemma LostMore(others: nat -> seq<Write>, k: nat)
    ensures LostBy(others, k) <==> Overwrites(others(k)) || (k > 0 && LostBy(others, k - 1))
  {
    hide Overwrites;
  }

  /** What each round rolls back to: the checkpoint of before the call while the slot holds it, and otherwise what
      the round before had. */
  ghost predicate RolledBack(bases: seq<Fix>, ckpt: Fix, own: bool, base: Fix, others: nat -> seq<Write>) {
    forall k: nat {:trigger bases[k]} :: k < |bases| ==>
      bases[k] == if own && !LostBy(others, k) then ckpt else if k == 0 then base else bases[k - 1]
  }

  lemma RolledBackMore(bases: seq<Fix>, next: Fix, ckpt: Fix, own: bool, base: Fix, others: nat -> seq<Write>)
    requires RolledBack(bases, ckpt, own, base, others)
    requires var k := |bases|;
             next == if own && !LostBy(others, k) then ckpt else if k == 0 then base else bases[k - 1]
    ensures RolledBack(bases + [next], ckpt, own, base, others)
  {
    hide LostBy;
    var all := bases + [next];
    forall k: nat | k < |all|
      ensures all[k] == if own && !LostBy(others, k) then ckpt else if k == 0 then base else all[k - 1]
    {
      if k < |bases| {
        assert all[k] == bases[k];
        assert bases[k] == if own && !LostBy(others, k) then ckpt else if k == 0 then base else bases[k - 1];
      } else {
        assert all[k] == next && k == |bases|;
      }
    }
  }

  lemma NotRolledBack(ckpt: Fix, own: bool, base: Fix, others: nat -> seq<Write>)
    ensures RolledBack([], ckpt, own, base, others)
  {
  }

  /** Three defects at once are one too many for the retry limit. */
  lemma ThreeDefectsExist() returns (p: Fix)
    ensures Defects(p) == 3
  {
    p := Fix(seq(LEN, _ => 0), seq(LEN, _ => 0), 3, 9, 0);
  }
}
