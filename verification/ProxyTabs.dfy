/** Why other writes must mind their tabs: a run in which the echo of a response and another process's
    write together make a line that the host takes for a request. */
module ProxyTabs {
  import opened Blocks
  import opened ProxyFrames
  import opened ConsoleInput
  import opened ProxyProtocol

  /** The handler that answers nothing, and a call with an empty role and prompt. */
  const SILENT: Handler := (role, prompt) => []
  const CALL := Call([], [], 1)

  function Req(): (r: Bytes) {
    [80, 82, 79, 88, 89, 95, 82, 69, 81, 9, 48, 9, 9, 10]
  }

  function Resp(): (r: Bytes) {
    [80, 82, 79, 88, 89, 95, 82, 69, 83, 9, 48, 9, 10]
  }

  /** A 'Q' and a tab: agent 1's whole write. */
  function Note(): (r: Bytes) {
    [81, 9, 10]
  }

  lemma Texts()
    ensures Frame(0, CALL) == Req() && |RequestLine(0, CALL.role, [])| == 13
    ensures HostSplit(Req()[..13]) == Some(Request([48], [], []))
    ensures ResponseLine([48], SILENT([], [])) + [NL] == Resp()
    ensures AsSent(0, CALL) == CALL && Served(SILENT, 0, CALL) && WholeLines(Note())
  {
    RequestRoundTrip(0, [], []);
    assert Decimal(0) == [48];
    assert RequestLine(0, [], []) == Req()[..13];
    assert ResponseLine([48], []) == Resp()[..12];
  }

  lemma Bytes()
    ensures |Req()| == 14 && |Resp()| == 13 && |Note()| == 3
    ensures forall k :: 0 <= k < 14 ==> (Req()[k] == NL <==> k == 13)
    ensures forall k :: 0 <= k < 8 ==> Ordinary(Resp()[k]) && Resp()[k] != CTRL_D && Resp()[k] != CR && Resp()[k] != NL
    ensures forall k :: 0 <= k < 3 ==> (Note()[k] == NL <==> k == 2)
  {
  }

  ghost predicate Reached(s: State) {
    exists run :: IsRun(SILENT, true, run) && run[|run| - 1] == s
  }

  lemma Extend(s: State, t: State)
    requires Reached(s) && Next(SILENT, true, s, t)
    ensures Reached(t)
  {
    var run :| IsRun(SILENT, true, run) && run[|run| - 1] == s;
    var more := run + [t];
    forall k | 0 < k < |more| ensures Next(SILENT, true, more[k - 1], more[k]) {
      if k < |run| { assert more[k] == run[k] && more[k - 1] == run[k - 1]; }
    }
    assert IsRun(SILENT, true, more);
  }

  lemma Then(s: State, t: State, a: nat, act: Action)
    requires Reached(s) && Step(SILENT, s, t, a, act)
    ensures Reached(t)
  {
    hide Step;
    Extend(s, t);
  }

  // ---- the states ------------------------------------------------------------------------

  ghost function Start(): (s: State) {
    State(-1, -1, [Out, Out], [], [], [], [], 0, [], Quiet, 0, 0)
  }

  /** Agent 0 has k bytes of its request out. */
  ghost function Sending(k: nat): (s: State)
    requires k <= 14 == |Req()|
  {
    Start().(lock := 0, writer := 0, pc := [Emit(CALL, k), Out], cur := if k < 14 then Req()[..k] else [],
             lines := if k < 14 then [] else [Req()[..13]], phase := if k < 14 then Quiet else Asked(0))
  }

  /** The host has answered, agent 1 has begun to write, and n bytes of the response are echoed. */
  ghost function Echoing(n: nat): (s: State)
    requires n <= 8 < |Resp()|
  {
    State(0, 1, [Wait(CALL, []), Chat(Note(), 0)], [], Resp()[..n], Resp()[n..], Resp()[..n], 0, [],
          Answering(Resp()), 0, 0)
  }

  /** Then k bytes of agent 1's write follow. */
  ghost function Mixed(k: nat): (s: State)
    requires k <= 3 == |Note()| && 8 < |Resp()|
  {
    Echoing(8).(pc := [Wait(CALL, []), Chat(Note(), k)], cur := if k < 3 then Resp()[..8] + Note()[..k] else [],
                lines := if k < 3 then [] else [Resp()[..8] + Note()[..2]],
                chatFrom := if k < 3 then 0 else 3, echoFrom := if k < 3 then 0 else 8)
  }

  // ---- the run -----------------------------------------------------------------------------

  lemma Begins()
    ensures |Req()| == 14 && Reached(Sending(0))
  {
    hide Req, Served, RequestLine;
    Texts();
    Bytes();
    assert IsRun(SILENT, true, [Start()]);
    var held := Start().(lock := 0, pc := [Hold(CALL), Out]);
    assert Start().pc[0 := Hold(CALL)] == held.pc;
    Then(Start(), held, 0, TakeLock(CALL));
    assert held.pc[0 := Emit(CALL, 0)] == Sending(0).pc;
    assert Req()[..0] == [];
    Then(held, Sending(0), 0, BeginFrame);
  }

  lemma SendOne(k: nat)
    requires k < 14 == |Req()|
    ensures Step(SILENT, Sending(k), Sending(k + 1), 0, FrameByte)
  {
    hide Req, Frame, HostSplit, Received, OnLineAll, Payload, Harmless, Served, RequestLine;
    Texts();
    Bytes();
    assert Sending(k).pc[0 := Emit(CALL, k + 1)] == Sending(k + 1).pc;
    assert Req()[..k + 1] == Req()[..k] + [Req()[k]];
  }

  lemma {:induction false} Sends(k: nat)
    requires k <= 14
    ensures |Req()| == 14 && Reached(Sending(k))
  {
    hide Req, Step, Sending;
    Bytes();
    if k == 0 {
      Begins();
    } else {
      Sends(k - 1);
      SendOne(k - 1);
      Then(Sending(k - 1), Sending(k), 0, FrameByte);
    }
  }

  lemma Answers()
    ensures |Resp()| == 13 && Reached(Echoing(0))
  {
    hide Req, Resp, Note, HostSplit, Received, OnLineAll, Payload, Harmless, Served, RequestLine, ResponseLine,
         WholeLines,
         Frame;
    Texts();
    Bytes();
    Sends(14);
    var sent := Sending(14).(writer := -1, pc := [Wait(CALL, []), Out]);
    assert Sending(14).pc[0 := Wait(CALL, [])] == sent.pc;
    Then(Sending(14), sent, 0, EndFrame);
    var answered := sent.(lines := [], toGuest := Resp(), phase := Answering(Resp()), echoFrom := 0);
    assert sent.lines[1..] == [] && [] + Resp() == Resp();
    Then(sent, answered, 0, HostLine);
    assert answered.pc[1 := Chat(Note(), 0)] == Echoing(0).pc && Resp()[0..] == Resp() && Resp()[..0] == [];
    assert BareChat(answered, Echoing(0), 1, Note());
    Extend(answered, Echoing(0));
  }

  lemma EchoOne(n: nat)
    requires n < 8 < |Resp()|
    ensures Step(SILENT, Echoing(n), Echoing(n + 1), 0, Intr)
  {
    hide Req, Resp, Note, Frame, HostSplit, Received, OnLineAll, Payload, Harmless, Served, RequestLine;
    Bytes();
    var s, c := Echoing(n), Resp()[n];
    assert Resp()[n..][0] == c && Resp()[n..][1..] == Resp()[n + 1..];
    assert Resp()[..n + 1] == Resp()[..n] + [c];
    Heard(s, c);
  }

  lemma Heard(s: State, c: Byte)
    requires s.ready <= |s.inbuf| < SIZE - 1 && Ordinary(c) && c != CTRL_D && c != CR && c != NL
    ensures Received(s.inbuf, s.ready, c) == Input(s.inbuf + [c], s.ready, [c]) && OnLineAll(s, [c]) == OnLine(s, c)
  {
    assert [c][1..] == [];
    assert OnLineAll(OnLine(s, c), []) == OnLine(s, c);
  }

  lemma {:induction false} Echoes(n: nat)
    requires n <= 8
    ensures |Resp()| == 13 && Reached(Echoing(n))
  {
    hide Resp, Step, Echoing;
    Bytes();
    if n == 0 {
      Answers();
    } else {
      Echoes(n - 1);
      EchoOne(n - 1);
      Then(Echoing(n - 1), Echoing(n), 0, Intr);
    }
  }

  lemma MixOne(k: nat)
    requires k < 3 == |Note()| && 8 < |Resp()|
    ensures Step(SILENT, Mixed(k), Mixed(k + 1), 1, ChatByte)
  {
    hide Req, Resp, Note, Frame, HostSplit, Received, OnLineAll, Payload, Harmless, Served, RequestLine;
    Bytes();
    assert Mixed(k).pc[1 := Chat(Note(), k + 1)] == Mixed(k + 1).pc;
    assert Note()[..k + 1] == Note()[..k] + [Note()[k]];
    assert Resp()[..8] + Note()[..k] + [Note()[k]] == Resp()[..8] + Note()[..k + 1];
  }

  lemma {:induction false} Mixes(k: nat)
    requires k <= 3
    ensures |Note()| == 3 && |Resp()| == 13 && Reached(Mixed(k))
  {
    hide Resp, Note, Step;
    Bytes();
    if k == 0 {
      Echoes(8);
      assert Resp()[..8] + Note()[..0] == Resp()[..8];
    } else {
      Mixes(k - 1);
      MixOne(k - 1);
      Then(Mixed(k - 1), Mixed(k), 1, ChatByte);
    }
  }

  /** The mixed line is a request tag and a tab, ten bytes, and not the thirteen of the open call's request. */
  lemma MixedIsUnsafe()
    ensures |Note()| == 3 && 8 < |Resp()| && !Safe(SILENT, Mixed(3))
  {
    hide RequestLine, FinishedOk;
    var line := Resp()[..8] + Note()[..2];
    assert line[..9] == REQ && line[9] == TAB;
    assert Mixed(3).lines[0] == line && HasTag(line);
    Texts();
    assert |RequestLine(0, CALL.role, CALL.prompt)| == 13;
  }

  /** The eight letters "PROXY_RE" of an echoed response, then another write's "Q" and tab: the host finds
      a line that begins with the request tag and is no request of any call. */
  lemma EchoCompletesATag() returns (run: seq<State>)
    ensures IsRun(SILENT, true, run) && !Safe(SILENT, run[|run| - 1])
  {
    hide Safe, Mixed, Next;
    Mixes(3);
    run :| IsRun(SILENT, true, run) && run[|run| - 1] == Mixed(3);
    MixedIsUnsafe();
  }

  /** Over all handlers and runs the protocol is safe exactly when every other line has a byte that is no
      letter of the request tag before its first tab. */
  lemma SafeExactlyWithCoveredTabs(tabs: bool)
    ensures (forall h: Handler, run: seq<State>, k: nat :: IsRun(h, tabs, run) && k < |run| ==> Safe(h, run[k]))
            <==> !tabs
  {
    if tabs {
      var run := EchoCompletesATag();
      assert !Safe(SILENT, run[|run| - 1]);
    } else {
      forall h: Handler, run: seq<State>, k: nat | IsRun(h, tabs, run) && k < |run| ensures Safe(h, run[k]) {
        ProxyIsSafe(h, run, k);
      }
    }
  }
}
