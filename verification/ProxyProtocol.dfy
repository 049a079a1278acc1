/** Any number of agents, the console, the serial line and the host, in every interleaving of their bytes.

    Each agent may call the proxy (missing the cache) or write other lines to the console. Input bytes are echoed onto
    the same line as they arrive, in the middle of whatever is being written. There are no kills and
    no kernel printf. */
module ProxyProtocol {
  import opened Blocks
  import opened ProxyFrames
  import opened ConsoleInput

  datatype Call = Call(role: Bytes, prompt: Bytes, outmax: nat)

  datatype Pc =
    | Out
    | Hold(q: Call)                // has proxy_lock
    | Emit(q: Call, k: nat)        // has the console's write lock too; k bytes of the request are on the line
    | Wait(q: Call, got: Bytes)    // in proxy_recv, with this much of a line
    | Chat(w: Bytes, k: nat)       // writing another line; has the console's write lock

  /** Where the one open call is. Asked: its line is lines[at]. Answering: the host has sent this response. */
  datatype Phase = Quiet | Asked(at: nat) | Answering(resp: Bytes)

  datatype Finished = Finished(agent: nat, q: Call, result: Option<Bytes>)

  /** `lines` and `cur` are what the host makes of the serial line: whole lines it has not looked at yet, and the
      one being received. chatFrom and echoFrom, like `phase`, are for the proof: where in the other write and in the
      response the current line began. */
  datatype State = State(lock: int, writer: int, pc: seq<Pc>, lines: seq<Bytes>, cur: Bytes, toGuest: Bytes,
                         inbuf: Bytes, ready: nat,
                         finished: seq<Finished>, phase: Phase, chatFrom: nat, echoFrom: nat)

  type Handler = (Bytes, Bytes) -> Bytes

  predicate Printable(t: Bytes) {
    forall i :: 0 <= i < |t| ==> 32 <= t[i] <= 126
  }

  const REQUEST_MAX := 639    // what proxy_send's buffer has room for before the newline

  /** The request as proxy_send writes it: the prompt is cut to what the buffer has room for. */
  function AsSent(a: nat, q: Call): (r: Call)
    requires |RequestLine(a, q.role, [])| <= REQUEST_MAX
    ensures |RequestLine(a, r.role, r.prompt)| <= REQUEST_MAX
    ensures |RequestLine(a, q.role, q.prompt)| <= REQUEST_MAX ==> r == q
    ensures |r.prompt| <= |q.prompt| && r == q.(prompt := q.prompt[..|r.prompt|])
  {
    var room := REQUEST_MAX - |RequestLine(a, q.role, [])|;
    if |q.prompt| <= room then assert q.prompt[..|q.prompt|] == q.prompt; q else q.(prompt := q.prompt[..room])
  }

  /** A call the protocol serves: no tabs or newlines where they would not belong, and a printable
      reply whose frame fits the console's input ring. */
  ghost predicate Served(h: Handler, a: nat, q: Call) {
    && NoTab(q.role) && NoNewline(q.prompt) && q.outmax > 0
    && Printable(h(q.role, q.prompt)) && |ResponseLine(Decimal(a), h(q.role, q.prompt))| + 1 <= SIZE
  }

  predicate LineStart(w: Bytes, i: nat) {
    i == 0 || (i <= |w| && w[i - 1] == NL)
  }

  /** Another write: whole lines, none of them with a request in it or beginning with the request tag. */
  ghost predicate WholeLines(w: Bytes) {
    && |w| > 0 && w[|w| - 1] == NL
    && (forall i :: 0 <= i < |w| ==> !HasTag(w[i..]))
    && (forall i :: 0 <= i && i + 9 <= |w| && LineStart(w, i) ==> w[i..i + 9] != REQ)
  }

  /** In each line some byte that is no letter of the request tag comes before the first tab, so that no
      echoed bytes can complete the tag. */
  ghost predicate TabsCovered(w: Bytes) {
    forall i, m {:trigger LineStart(w, i), w[m]} :: 0 <= i <= m < |w| && LineStart(w, i) && w[m] == TAB
                                                    && NL !in w[i..m] ==>
      HasOther(w[i..m])
  }

  /** Another write that cannot be taken for a request, even with echoed bytes in between. */
  ghost predicate Harmless(w: Bytes) {
    WholeLines(w) && TabsCovered(w)
  }

  /** Some byte is not a letter of the request tag. */
  predicate HasOther(t: Bytes) {
    exists j :: 0 <= j < |t| && t[j] !in REQ
  }

  function Frame(a: nat, q: Call): (f: Bytes) {
    RequestLine(a, q.role, q.prompt) + [NL]
  }

  function Response(h: Handler, a: nat, q: Call): (r: Bytes) {
    ResponseLine(Decimal(a), h(q.role, q.prompt)) + [NL]
  }

  // ---- steps ---------------------------------------------------------------------------

  datatype Action =
    | TakeLock(q: Call) | BeginFrame | FrameByte | EndFrame
    | BeginChat(w: Bytes) | ChatByte | EndChat
    | HostLine | Intr | ReadByte

  /** A byte goes onto the serial line. */
  function OnLine(s: State, b: Byte): (t: State) {
    if b == NL then s.(lines := s.lines + [s.cur], cur := []) else s.(cur := s.cur + [b])
  }

  function OnLineAll(s: State, bs: Bytes): (t: State)
    ensures t == s.(lines := t.lines, cur := t.cur)
    decreases |bs|
  {
    if bs == [] then s else OnLineAll(OnLine(s, bs[0]), bs[1..])
  }

  /** What proxy_recv makes of one more byte: it goes on with this much of a line, fails at the end of
      input, or has its reply. */
  datatype Recv = More(line: Bytes) | Failed | Reply(text: Bytes)

  const LINEMAX := 511

  function Hears(line: Bytes, c: Byte, id: nat, outmax: nat): (r: Recv) {
    if c == CTRL_D then Failed
    else if c != NL then More(if |line| < LINEMAX then line + [c] else line)
    else if outmax == 0 || Payload(line, id, outmax).None? then More([])
    else Reply(Payload(line, id, outmax).value)
  }

  /** How far the chat in progress is. */
  function ChatAt(s: State): (k: nat) {
    if 0 <= s.writer < |s.pc| && s.pc[s.writer].Chat? then s.pc[s.writer].k else 0
  }

  ghost predicate Step(h: Handler, s: State, t: State, a: nat, act: Action) {
    && a < |s.pc|
    && var me := s.pc[a];
    match act
    case TakeLock(q) =>
      && me.Out? && s.lock == -1 && |RequestLine(a, q.role, [])| <= REQUEST_MAX && Served(h, a, AsSent(a, q))
      && t == s.(lock := a, pc := s.pc[a := Hold(AsSent(a, q))])
    case BeginFrame => me.Hold? && s.writer == -1 && t == s.(writer := a, pc := s.pc[a := Emit(me.q, 0)])
    case FrameByte =>
      && me.Emit? && me.k < |Frame(a, me.q)|
      && t == OnLine(s, Frame(a, me.q)[me.k]).(pc := s.pc[a := Emit(me.q, me.k + 1)],
                                               phase := if me.k + 1 == |Frame(a, me.q)| then
                                                   Asked(|s.lines|) else s.phase)
    case EndFrame => me.Emit? && me.k == |Frame(a, me.q)| && t == s.(writer := -1, pc := s.pc[a := Wait(me.q, [])])
    case BeginChat(w) => me.Out? && s.writer == -1 && Harmless(w)
         && t == s.(writer := a, pc := s.pc[a := Chat(w, 0)], chatFrom := 0)
    case ChatByte =>
      && me.Chat? && me.k < |me.w|
      && t == OnLine(s, me.w[me.k]).(pc := s.pc[a := Chat(me.w, me.k + 1)],
                                     chatFrom := if me.w[me.k] == NL then me.k + 1 else s.chatFrom,
                                     echoFrom := if me.w[me.k] == NL then Echoed(s) else s.echoFrom)
    case EndChat => me.Chat? && me.k == |me.w| && t == s.(writer := -1, pc := s.pc[a := Out])
    case HostLine =>
      && s.lines != []
      && (match HostSplit(s.lines[0])
          case None => t == s.(lines := s.lines[1..], phase := if s.phase.Asked? && s.phase.at > 0
                                                                 then Asked(s.phase.at - 1) else s.phase)
          case Some(r) =>
            var resp := ResponseLine(r.idText, h(r.role, r.prompt)) + [NL];
            t == s.(lines := s.lines[1..], toGuest := s.toGuest + resp, phase := Answering(resp), echoFrom := 0))
    case Intr =>
      && s.toGuest != [] && s.ready <= |s.inbuf|
      && var r := Received(s.inbuf, s.ready, s.toGuest[0]);
      t == OnLineAll(s, r.echo).(toGuest := s.toGuest[1..], inbuf := r.pending, ready := r.ready,
                                 chatFrom := if NL in r.echo then ChatAt(s) else s.chatFrom,
                                 echoFrom := if NL in r.echo then Echoed(s) + 1 else s.echoFrom)
    case ReadByte =>
      && me.Wait? && 0 < s.ready <= |s.inbuf|
      && var c := s.inbuf[0]; var u := s.(inbuf := s.inbuf[1..], ready := s.ready - 1);
      match Hears(me.got, c, a, me.q.outmax)
      case More(line) => t == u.(pc := s.pc[a := Wait(me.q, line)])
      case Failed => t == Returned(u, a, me.q, None)
      case Reply(text) => t == Returned(u, a, me.q, Some(text))
  }

  /** proxy_recv returns and proxy_lock is released. */
  function Returned(s: State, a: nat, q: Call, result: Option<Bytes>): (t: State)
    requires a < |s.pc|
  {
    s.(lock := -1, pc := s.pc[a := Out], finished := s.finished + [Finished(a, q, result)], phase := Quiet)
  }

  /** How many bytes of the response have been echoed. */
  function Echoed(s: State): (n: nat) {
    if s.phase.Answering? && |s.toGuest| <= |s.phase.resp| then |s.phase.resp| - |s.toGuest| else 0
  }

  // ---- the invariant ------------------------------------------------------------------------

  /** Every byte of two pieces, and nothing else, is in the current line. */
  ghost predicate Pieces(cur: Bytes, c: Bytes, x: Bytes) {
    && |cur| == |c| + |x| && (forall b :: b in c ==> b in cur) && (forall b :: b in x ==> b in cur)
       && (|x| == 0 ==> cur == c)
  }

  predicate InCall(pc: Pc) {
    pc.Hold? || pc.Emit? || pc.Wait?
  }

  predicate Writes(pc: Pc) {
    pc.Emit? || pc.Chat?
  }

  ghost predicate PcOk(h: Handler, a: nat, pc: Pc) {
    match pc
    case Out => true
    case Hold(q) => Served(h, a, q)
    case Emit(q, k) => Served(h, a, q) && k <= |Frame(a, q)|
    case Wait(q, _) => Served(h, a, q)
    case Chat(w, k) => Harmless(w) && k <= |w|
  }

  ghost predicate LocksOk(h: Handler, s: State) {
    && -1 <= s.lock < |s.pc| && -1 <= s.writer < |s.pc|
    && forall a {:trigger s.pc[a]} :: 0 <= a < |s.pc| ==>
         PcOk(h, a, s.pc[a]) && (InCall(s.pc[a]) <==> s.lock == a) && (Writes(s.pc[a]) <==> s.writer == a)
  }

  /** The whole request is on the line. */
  predicate Sent(a: nat, pc: Pc) {
    pc.Wait? || (pc.Emit? && pc.k == |Frame(a, pc.q)|)
  }

  function Got(pc: Pc): (g: Bytes) {
    if pc.Wait? then pc.got else []
  }

  ghost predicate NoRequests(lines: seq<Bytes>, but: int) {
    forall i {:trigger lines[i]} :: 0 <= i < |lines| && i != but ==> !HasTag(lines[i])
  }

  ghost predicate PhaseOk(h: Handler, s: State)
    requires LocksOk(h, s)
  {
    match s.phase
    case Quiet =>
      && (s.lock == -1 || !Sent(s.lock, s.pc[s.lock])) && s.toGuest == [] && s.inbuf == [] && s.ready == 0
         && NoRequests(s.lines, -1)
    case Asked(at) =>
      && s.lock >= 0 && Sent(s.lock, s.pc[s.lock]) && Got(s.pc[s.lock]) == [] && s.toGuest == [] && s.inbuf == []
         && s.ready == 0
      && at < |s.lines| && s.lines[at] == RequestLine(s.lock, s.pc[s.lock].q.role, s.pc[s.lock].q.prompt)
         && NoRequests(s.lines, at)
    case Answering(resp) =>
      && s.lock >= 0 && Sent(s.lock, s.pc[s.lock]) && NoRequests(s.lines, -1)
      && resp == Response(h, s.lock, s.pc[s.lock].q) && Got(s.pc[s.lock]) + s.inbuf + s.toGuest == resp
      && (s.toGuest != [] ==> Got(s.pc[s.lock]) == [] && s.ready == 0) && (s.toGuest == [] ==> s.ready == |s.inbuf|)
  }

  /** A request is being written. */
  predicate Framing(s: State) {
    0 <= s.writer < |s.pc| && s.pc[s.writer].Emit? && s.pc[s.writer].k < |Frame(s.writer, s.pc[s.writer].q)|
  }

  /** Another write in progress: k bytes of w are out, those from `from` on in the current line. */
  datatype Chatting = NoChat | InChat(w: Bytes, from: nat, k: nat)
  /** A response being echoed: n bytes are out, those from `from` on in the current line. */
  datatype Echoing = NoEcho(asked: bool) | InEcho(resp: Bytes, from: nat, n: nat)

  function ChatOf(s: State): (c: Chatting) {
    if 0 <= s.writer < |s.pc| && s.pc[s.writer].Chat? then InChat(s.pc[s.writer].w, s.chatFrom, s.pc[s.writer].k)
    else NoChat
  }

  function EchoOf(s: State): (e: Echoing) {
    match s.phase
    case Quiet => NoEcho(false)
    case Asked(_) => NoEcho(true)
    case Answering(resp) => InEcho(resp, s.echoFrom, Echoed(s))
  }

  ghost predicate ChatOk(c: Chatting, e: Echoing) {
    c.InChat? ==>
      && Harmless(c.w) && c.from <= c.k <= |c.w| && (c.k == |c.w| ==> c.from == c.k)
      && (!LineStart(c.w, c.from) && c.k < |c.w| ==> if e.NoEcho? then !e.asked else e.n == |e.resp|)
  }

  ghost predicate EchoOk(e: Echoing) {
    e.InEcho? ==> e.from <= e.n <= |e.resp| && (e.n == |e.resp| ==> e.from == e.n)
  }

  function ChatPiece(c: Chatting): (t: Bytes) {
    if c.InChat? && c.from <= c.k <= |c.w| then c.w[c.from..c.k] else []
  }

  function EchoPiece(e: Echoing): (t: Bytes) {
    if e.InEcho? && e.from <= e.n <= |e.resp| then e.resp[e.from..e.n] else []
  }

  /** The current line is made of these two pieces and is no request. */
  ghost predicate Mix(cur: Bytes, c: Chatting, e: Echoing) {
    !HasTag(cur) && NL !in cur && Pieces(cur, ChatPiece(c), EchoPiece(e)) && ChatOk(c, e) && EchoOk(e)
  }

  ghost predicate CurOk(s: State) {
    if Framing(s) then s.phase.Quiet? && s.cur == Frame(s.writer, s.pc[s.writer].q)[..s.pc[s.writer].k]
    else Mix(s.cur, ChatOf(s), EchoOf(s))
  }

  ghost predicate Inv(h: Handler, s: State) {
    LocksOk(h, s) && PhaseOk(h, s) && CurOk(s)
  }

  // ---- no interleaving looks like a request -----------------------------------------------------

  lemma TagNeedsTab(cur: Bytes, b: Byte)
    requires !HasTag(cur)
    ensures HasTag(cur + [b]) ==> cur == REQ && b == TAB
  {
    var t := cur + [b];
    assert |cur| >= 9 ==> t[..9] == cur[..9];
    assert |cur| >= 10 ==> t[9] == cur[9];
    assert |cur| == 9 ==> cur[..9] == cur;
  }

  /** One more byte of another write. */
  lemma ChatIsNoRequest(cur: Bytes, w: Bytes, from: nat, k: nat, x: Bytes)
    requires Harmless(w) && from <= k < |w| && w[k] != NL && !HasTag(cur) && Pieces(cur, w[from..k], x)
             && NL !in cur && (!LineStart(w, from) ==> x == [])
    ensures !HasTag(cur + [w[k]])
  {
    TagNeedsTab(cur, w[k]);
    if w[k] == TAB {
      if LineStart(w, from) {
        assert HasOther(w[from..k]);
        var j :| 0 <= j < |w[from..k]| && w[from..k][j] !in REQ;
        assert w[from..k][j] in w[from..k];
        assert cur != REQ;
      } else {
        var u := w[from..];
        assert !HasTag(u);
        assert k == from + 9 ==> u[..9] == w[from..k] && u[9] == w[k];
        assert cur != REQ;
      }
    }
  }

  /** One more echoed byte of a response. */
  lemma EchoIsNoRequest(cur: Bytes, c: Bytes, d: nat, reply: Bytes, from: nat, n: nat)
    requires var resp := ResponseLine(Decimal(d), reply) + [NL]; from <= n < |resp| - 1 && Pieces(cur, c, resp[from..n])
    requires !HasTag(cur) && Printable(reply) && c != REQ
    ensures !HasTag(cur + [(ResponseLine(Decimal(d), reply) + [NL])[n]])
  {
    var digits := Decimal(d);
    var resp := ResponseLine(digits, reply) + [NL];
    TagNeedsTab(cur, resp[n]);
    if resp[n] == TAB {
      TabsInResponse(digits, reply, n);
      var x := resp[from..n];
      if from < n {
        assert x[|x| - 1] == resp[n - 1] && x[|x| - 1] in x;
        assert cur != REQ;
      } else {
        assert cur == c;
      }
    }
  }

  /** The byte before a tab of a response is no letter of the request tag. */
  lemma TabsInResponse(digits: Bytes, reply: Bytes, n: nat)
    requires var resp := ResponseLine(digits, reply) + [NL]; n < |resp| - 1 && resp[n] == TAB
    requires |digits| > 0 && (forall i :: 0 <= i < |digits| ==> Digit(digits[i])) && Printable(reply)
    ensures n > 0 && (ResponseLine(digits, reply) + [NL])[n - 1] !in REQ
  {
    var resp := ResponseLine(digits, reply) + [NL];
    assert forall i :: 0 <= i < 9 ==> resp[i] == RES[i];
    assert forall i :: 0 <= i < |digits| ==> resp[10 + i] == digits[i];
    assert forall i :: 0 <= i < |reply| ==> resp[11 + |digits| + i] == reply[i];
    assert n == 9 || n == 10 + |digits|;
  }

  // ---- how the current line grows ---------------------------------------------------------------

  lemma MixChat(cur: Bytes, w: Bytes, from: nat, k: nat, e: Echoing)
    requires Mix(cur, InChat(w, from, k), e) && k < |w| && w[k] != NL
    ensures Mix(cur + [w[k]], InChat(w, from, k + 1), e)
  {
    hide HasTag, Harmless, Pieces, LineStart;
    EndsWithNewline(w, k);
    if !LineStart(w, from) { NoEchoYet(w, from, k, e); }
    ChatIsNoRequest(cur, w, from, k, EchoPiece(e));
    assert w[from..k + 1] == w[from..k] + [w[k]];
    PiecesChat(cur, w[from..k], EchoPiece(e), w[k]);
  }

  lemma EndsWithNewline(w: Bytes, k: nat)
    requires Harmless(w) && k < |w| && w[k] != NL
    ensures k + 1 < |w|
  {
  }

  /** A line begun before the response has no echo in it. */
  lemma NoEchoYet(w: Bytes, from: nat, k: nat, e: Echoing)
    requires ChatOk(InChat(w, from, k), e) && EchoOk(e) && k < |w| && !LineStart(w, from)
    ensures EchoPiece(e) == []
  {
  }

  lemma PiecesChat(cur: Bytes, c: Bytes, x: Bytes, b: Byte)
    requires Pieces(cur, c, x)
    ensures Pieces(cur + [b], c + [b], x)
  {
  }

  lemma MixChatEnd(cur: Bytes, w: Bytes, from: nat, k: nat, e: Echoing)
    requires Mix(cur, InChat(w, from, k), e) && k < |w| && w[k] == NL
    ensures Mix([], InChat(w, k + 1, k + 1), if e.InEcho? then e.(from := e.n) else e)
  {
  }

  lemma MixEcho(cur: Bytes, c: Chatting, d: nat, reply: Bytes, from: nat, n: nat)
    requires var resp := ResponseLine(Decimal(d), reply) + [NL]; Mix(cur, c, InEcho(resp, from, n)) && n < |resp| - 1
                                                                 && Printable(reply)
    ensures var resp := ResponseLine(Decimal(d), reply) + [NL]; Mix(cur + [resp[n]], c, InEcho(resp, from, n + 1))
  {
    hide ResponseLine, HasTag, Harmless, Decimal, Pieces;
    var resp := ResponseLine(Decimal(d), reply) + [NL];
    ResponseShape(d, reply);
    PieceIsNoTag(c);
    EchoIsNoRequest(cur, ChatPiece(c), d, reply, from, n);
    assert resp[from..n + 1] == resp[from..n] + [resp[n]];
    PiecesEcho(cur, ChatPiece(c), resp[from..n], resp[n]);
  }

  lemma PieceIsNoTag(c: Chatting)
    requires c.InChat? ==> && Harmless(c.w) && c.from <= c.k <= |c.w| && (c.k == |c.w| ==> c.from == c.k)
                           && (c.k < |c.w| ==> LineStart(c.w, c.from))
    ensures ChatPiece(c) != REQ
  {
    if c.InChat? && c.k == c.from + 9 { assert LineStart(c.w, c.from) && c.w[c.from..c.from + 9] == ChatPiece(c); }
  }

  lemma PiecesEcho(cur: Bytes, c: Bytes, x: Bytes, b: Byte)
    requires Pieces(cur, c, x)
    ensures Pieces(cur + [b], c, x + [b])
  {
  }

  lemma MixEchoEnd(cur: Bytes, c: Chatting, resp: Bytes, from: nat, n: nat)
    requires Mix(cur, c, InEcho(resp, from, n)) && n == |resp| - 1
    ensures Mix([], if c.InChat? then c.(from := c.k) else c, InEcho(resp, n + 1, n + 1))
  {
  }

  // ---- every step keeps the invariant -------------------------------------------------------------

  lemma StepKeepsLocks(h: Handler, s: State, t: State, a: nat, act: Action)
    requires LocksOk(h, s) && Step(h, s, t, a, act)
    ensures LocksOk(h, t) && |t.pc| == |s.pc|
  {
    hide HasTag, Harmless, Served, Frame, Hears, HostSplit, Response, Received, OnLineAll, AsSent;
  }

  lemma LockStepsCur(h: Handler, s: State, t: State, a: nat, act: Action)
    requires LocksOk(h, s) && PhaseOk(h, s) && CurOk(s) && Step(h, s, t, a, act)
    requires act.TakeLock? || act.BeginFrame? || act.EndFrame? || act.BeginChat? || act.EndChat?
    ensures CurOk(t)
  {
    hide HasTag, Harmless, Served, Frame, NoRequests, Response, Hears, Received, OnLineAll, HostSplit, AsSent, Mix;
    if act.BeginChat? { StartChat(s.cur, act.w, EchoOf(s)); }
    if act.EndChat? { StopChat(s.cur, s.pc[a].w, s.chatFrom, EchoOf(s)); }
    if act.BeginFrame? {
      FrameNotEmpty(a, s.pc[a].q);
      NothingIn(s.cur, false);
    }
  }

  lemma NothingIn(cur: Bytes, asked: bool)
    requires Mix(cur, NoChat, NoEcho(asked))
    ensures cur == []
  {
  }

  lemma FrameNotEmpty(a: nat, q: Call)
    ensures |Frame(a, q)| > 0
  {
  }

  lemma StartChat(cur: Bytes, w: Bytes, e: Echoing)
    requires Mix(cur, NoChat, e) && Harmless(w)
    ensures Mix(cur, InChat(w, 0, 0), e)
  {
  }

  lemma StopChat(cur: Bytes, w: Bytes, from: nat, e: Echoing)
    requires Mix(cur, InChat(w, from, |w|), e)
    ensures Mix(cur, NoChat, e)
  {
  }

  lemma LockStepsPhase(h: Handler, s: State, t: State, a: nat, act: Action)
    requires LocksOk(h, s) && PhaseOk(h, s) && CurOk(s) && Step(h, s, t, a, act) && LocksOk(h, t)
    requires act.TakeLock? || act.BeginFrame? || act.EndFrame? || act.BeginChat? || act.EndChat?
    ensures PhaseOk(h, t)
  {
    hide HasTag, Harmless, Served, NoRequests, Response, Mix;
    if act.BeginFrame? { FrameNotEmpty(a, s.pc[a].q); }
  }

  lemma ResponseShape(a: nat, reply: Bytes)
    requires Printable(reply)
    ensures var r := ResponseLine(Decimal(a), reply) + [NL];
            && |r| > 1 && r[|r| - 1] == NL && (forall i :: 0 <= i < |r| ==>
                                               Ordinary(r[i]) && r[i] != CTRL_D && r[i] != CR)
                                               && forall i :: 0 <= i < |r| - 1 ==> r[i] != NL
  {
    var d := Decimal(a);
    var r := ResponseLine(d, reply) + [NL];
    assert forall i :: 0 <= i < 9 ==> r[i] == RES[i];
    assert r[9] == TAB && forall i :: 0 <= i < |d| ==> r[10 + i] == d[i];
    assert r[10 + |d|] == TAB && forall i :: 0 <= i < |reply| ==> r[11 + |d| + i] == reply[i];
  }

  lemma FrameShape(a: nat, q: Call)
    requires NoTab(q.role) && NoNewline(q.prompt)
    ensures var f := Frame(a, q);
            && |f| > 0 && f[|f| - 1] == NL && (forall i :: 0 <= i < |f| - 1 ==> f[i] != NL)
               && f[..|f| - 1] == RequestLine(a, q.role, q.prompt)
  {
    var l := RequestLine(a, q.role, q.prompt);
    var d := Decimal(a);
    DigitsHaveNoTab(a);
    forall i | 0 <= i < |l| ensures l[i] != NL {
      assert l[i] in REQ || l[i] == TAB || l[i] in d || l[i] in q.role || l[i] in q.prompt;
    }
  }

  lemma FrameStep(h: Handler, s: State, t: State, a: nat)
    requires Inv(h, s) && Step(h, s, t, a, FrameByte) && LocksOk(h, t)
    ensures Inv(h, t)
  {
    hide HasTag, Harmless, Frame, RequestLine;
    var q, k := s.pc[a].q, s.pc[a].k;
    var f := Frame(a, q);
    FrameShape(a, q);
    assert f[..k + 1] == f[..k] + [f[k]];
    if k == |f| - 1 {
      NothingOut(true);
    }
  }

  lemma NothingOut(asked: bool)
    ensures Mix([], NoChat, NoEcho(asked))
  {
  }

  lemma ChatStep(h: Handler, s: State, t: State, a: nat)
    requires Inv(h, s) && Step(h, s, t, a, ChatByte) && LocksOk(h, t)
    ensures Inv(h, t)
  {
    hide HasTag, Harmless, Served, Frame, Response, Mix;
    var w, k := s.pc[a].w, s.pc[a].k;
    if w[k] != NL {
      MixChat(s.cur, w, s.chatFrom, k, EchoOf(s));
    } else {
      MixChatEnd(s.cur, w, s.chatFrom, k, EchoOf(s));
      NotTagged(s.cur, ChatOf(s), EchoOf(s));
    }
  }

  lemma NotTagged(cur: Bytes, c: Chatting, e: Echoing)
    requires Mix(cur, c, e)
    ensures !HasTag(cur)
  {
  }

  lemma HostStep(h: Handler, s: State, t: State, a: nat)
    requires Inv(h, s) && Step(h, s, t, a, HostLine) && LocksOk(h, t)
    ensures Inv(h, t)
  {
    hide HasTag, Harmless, Frame, RequestLine, ResponseLine, Mix, HostSplit;
    UntaggedIsDropped(s.lines[0]);
    if s.phase.Asked? {
      var q := s.pc[s.lock].q;
      RequestRoundTrip(s.lock, q.role, q.prompt);
      if s.phase.at == 0 { BeginEcho(s.cur, ChatOf(s), t.phase.resp); }
    }
  }

  lemma UntaggedIsDropped(l: Bytes)
    ensures !HasTag(l) ==> HostSplit(l) == None
  {
  }

  lemma BeginEcho(cur: Bytes, c: Chatting, resp: Bytes)
    requires Mix(cur, c, NoEcho(true)) && |resp| > 0
    ensures Mix(cur, c, InEcho(resp, 0, 0))
  {
  }

  lemma InputFacts(h: Handler, s: State, t: State, a: nat)
    requires Step(h, s, t, a, Intr)
    ensures s.toGuest != [] && s.ready <= |s.inbuf|
  {
  }

  /** A byte of a response goes into the input line and back onto the serial line. */
  lemma OrdinaryByte(h: Handler, s: State, t: State, a: nat)
    requires Step(h, s, t, a, Intr) && s.toGuest != [] && s.ready <= |s.inbuf| < SIZE
    requires var c := s.toGuest[0]; Ordinary(c) && c != CTRL_D && c != CR
    ensures var c := s.toGuest[0];
            var more := s.inbuf + [c];
            t == OnLine(s, c).(toGuest := s.toGuest[1..], inbuf := more,
                               ready := if c == NL || |more| == SIZE then |more| else s.ready,
                               chatFrom := if c == NL then ChatAt(s) else s.chatFrom,
                               echoFrom := if c == NL then Echoed(s) + 1 else s.echoFrom)
  {
    var c := s.toGuest[0];
    assert [c][1..] == [];
    assert OnLineAll(OnLine(s, c), []) == OnLine(s, c);
    assert OnLineAll(s, [c]) == OnLine(s, c);
  }

  lemma IntrStep(h: Handler, s: State, t: State, a: nat)
    requires Inv(h, s) && Step(h, s, t, a, Intr) && LocksOk(h, t)
    ensures Inv(h, t)
  {
    hide HasTag, Harmless, Frame, ResponseLine, Mix, Received, OnLineAll, Decimal, Step;
    InputFacts(h, s, t, a);
    var q := s.pc[s.lock].q;
    var resp := s.phase.resp;
    var n := Echoed(s);
    var reply := h(q.role, q.prompt);
    ResponseShape(s.lock, reply);
    assert resp == s.inbuf + s.toGuest;
    assert resp[n] == s.toGuest[0];
    OrdinaryByte(h, s, t, a);
    if n < |resp| - 1 {
      MixEcho(s.cur, ChatOf(s), s.lock, reply, s.echoFrom, n);
    } else {
      MixEchoEnd(s.cur, ChatOf(s), resp, s.echoFrom, n);
      NotTagged(s.cur, ChatOf(s), EchoOf(s));
    }
  }

  lemma ReadStep(h: Handler, s: State, t: State, a: nat)
    requires Inv(h, s) && Step(h, s, t, a, ReadByte) && LocksOk(h, t)
    ensures Inv(h, t)
    ensures var q := s.pc[a].q;
            || t.finished == s.finished
            || t.finished == s.finished + [Finished(a, q, Some(CutTo(h(q.role, q.prompt), q.outmax)))]
  {
    if s.inbuf[0] == NL {
      ReadEnd(h, s, t, a);
    } else {
      ReadMore(h, s, t, a);
    }
  }

  lemma ReadMore(h: Handler, s: State, t: State, a: nat)
    requires Inv(h, s) && Step(h, s, t, a, ReadByte) && LocksOk(h, t) && s.inbuf[0] != NL
    ensures Inv(h, t) && t.finished == s.finished
  {
    hide HasTag, Harmless, Frame, ResponseLine, Mix, Payload, Received, OnLineAll, Decimal, HostSplit, NoRequests,
      Step;
    ReadFacts(h, s, t, a);
    var q, got := s.pc[a].q, s.pc[a].got;
    ResponseShape(a, h(q.role, q.prompt));
    assert s.phase.resp == got + s.inbuf && s.phase.resp[|got|] == s.inbuf[0];
    PlainByte(h, s, t, a);
  }

  lemma ReadFacts(h: Handler, s: State, t: State, a: nat)
    requires Step(h, s, t, a, ReadByte)
    ensures a < |s.pc| && s.pc[a].Wait? && 0 < s.ready <= |s.inbuf|
  {
  }

  lemma PlainByte(h: Handler, s: State, t: State, a: nat)
    requires Step(h, s, t, a, ReadByte) && s.inbuf[0] != NL && s.inbuf[0] != CTRL_D && |s.pc[a].got| < 511
    ensures t == s.(inbuf := s.inbuf[1..], ready := s.ready - 1,
                    pc := s.pc[a := Wait(s.pc[a].q, s.pc[a].got + [s.inbuf[0]])])
  {
  }

  lemma ReadEnd(h: Handler, s: State, t: State, a: nat)
    requires Inv(h, s) && Step(h, s, t, a, ReadByte) && LocksOk(h, t) && s.inbuf[0] == NL
    ensures Inv(h, t)
    ensures var q := s.pc[a].q;
            t.finished == s.finished + [Finished(a, q, Some(CutTo(h(q.role, q.prompt), q.outmax)))]
  {
    hide HasTag, Harmless, Frame, ResponseLine, Mix, Payload, Received, OnLineAll, Decimal, HostSplit, NoRequests,
      Step;
    ReadFacts(h, s, t, a);
    var q, got := s.pc[a].q, s.pc[a].got;
    var resp := s.phase.resp;
    var reply := h(q.role, q.prompt);
    ResponseShape(a, reply);
    ResponseRoundTrip(a, reply, q.outmax);
    assert resp == got + s.inbuf && resp[|got|] == s.inbuf[0];
    assert got == resp[..|resp| - 1] == ResponseLine(Decimal(a), reply);
    LastByte(h, s, t, a);
    EndEcho(s.cur, ChatOf(s), resp, s.echoFrom);
  }

  lemma LastByte(h: Handler, s: State, t: State, a: nat)
    requires Step(h, s, t, a, ReadByte) && s.inbuf[0] == NL && s.pc[a].q.outmax > 0
    requires Payload(s.pc[a].got, a, s.pc[a].q.outmax).Some?
    ensures t == Returned(s.(inbuf := s.inbuf[1..], ready := s.ready - 1), a, s.pc[a].q,
                          Payload(s.pc[a].got, a, s.pc[a].q.outmax))
  {
  }

  lemma EndEcho(cur: Bytes, c: Chatting, resp: Bytes, from: nat)
    requires Mix(cur, c, InEcho(resp, from, |resp|))
    ensures Mix(cur, c, NoEcho(false))
  {
  }

  /** Every finished call returned the handler's reply to its own request, cut to its buffer. */
  ghost predicate FinishedOk(h: Handler, s: State) {
    forall i {:trigger s.finished[i]} :: 0 <= i < |s.finished| ==>
      && s.finished[i].q.outmax > 0
      && s.finished[i].result == Some(CutTo(h(s.finished[i].q.role, s.finished[i].q.prompt), s.finished[i].q.outmax))
  }

  lemma StepKeepsInv(h: Handler, s: State, t: State, a: nat, act: Action)
    requires Inv(h, s) && FinishedOk(h, s) && Step(h, s, t, a, act)
    ensures Inv(h, t) && FinishedOk(h, t)
  {
    hide Step, FinishedOk, LocksOk, PhaseOk, CurOk;
    StepKeepsLocks(h, s, t, a, act);
    StepKeepsFinished(h, s, t, a, act);
    match act
    case FrameByte => FrameStep(h, s, t, a);
    case ChatByte => ChatStep(h, s, t, a);
    case HostLine => HostStep(h, s, t, a);
    case Intr => IntrStep(h, s, t, a);
    case ReadByte => ReadStep(h, s, t, a);
    case _ =>
      LockStepsCur(h, s, t, a, act);
      LockStepsPhase(h, s, t, a, act);
  }

  lemma StepKeepsFinished(h: Handler, s: State, t: State, a: nat, act: Action)
    requires Inv(h, s) && FinishedOk(h, s) && Step(h, s, t, a, act)
    ensures FinishedOk(h, t)
  {
    hide Mix, Harmless, HasTag, NoRequests, Frame, Response, Payload, HostSplit, PhaseOk, CurOk;
    StepKeepsLocks(h, s, t, a, act);
    if act.ReadByte? { ReadStep(h, s, t, a); }
  }

  ghost predicate Initial(s: State) {
    && s.lock == -1 && s.writer == -1 && (forall a :: 0 <= a < |s.pc| ==> s.pc[a] == Out)
    && s.lines == [] && s.cur == [] && s.toGuest == [] && s.inbuf == [] && s.ready == 0 && s.finished == []
       && s.phase == Quiet
    && s.chatFrom == 0 && s.echoFrom == 0
  }

  /** The start of another write with nothing said about its tabs. */
  ghost predicate BareChat(s: State, t: State, a: nat, w: Bytes) {
    && a < |s.pc| && s.pc[a].Out? && s.writer == -1 && WholeLines(w)
    && t == s.(writer := a, pc := s.pc[a := Chat(w, 0)], chatFrom := 0)
  }

  /** `tabs`: other writes may have tabs anywhere. */
  ghost predicate Next(h: Handler, tabs: bool, s: State, t: State) {
    (exists a, act :: Step(h, s, t, a, act)) || (tabs && exists a, w :: BareChat(s, t, a, w))
  }

  ghost predicate IsRun(h: Handler, tabs: bool, run: seq<State>) {
    && |run| > 0 && Initial(run[0])
    && forall k :: 0 < k < |run| ==> Next(h, tabs, run[k - 1], run[k])
  }

  lemma {:induction false} RunKeepsInv(h: Handler, run: seq<State>, k: nat)
    requires IsRun(h, false, run) && k < |run|
    ensures Inv(h, run[k]) && FinishedOk(h, run[k])
  {
    if k == 0 {
      NothingOut(false);
    } else {
      RunKeepsInv(h, run, k - 1);
      hide Step, Inv, FinishedOk;
      var a, act :| Step(h, run[k - 1], run[k], a, act);
      StepKeepsInv(h, run[k - 1], run[k], a, act);
    }
  }

  ghost predicate Safe(h: Handler, s: State) {
    && (forall a, b :: 0 <= a < b < |s.pc| && InCall(s.pc[a]) ==> !InCall(s.pc[b]))
    && (forall i :: 0 <= i < |s.lines| && HasTag(s.lines[i]) ==>
          && 0 <= s.lock < |s.pc| && InCall(s.pc[s.lock])
          && s.lines[i] == RequestLine(s.lock, s.pc[s.lock].q.role, s.pc[s.lock].q.prompt))
    && (forall i, j :: 0 <= i < j < |s.lines| && HasTag(s.lines[i]) ==> !HasTag(s.lines[j]))
    && FinishedOk(h, s)
  }

  /** In every run: at most one call is open; every line the host takes for a request is, whole, the request of that
      call, and there is at most one such line; and every call that has returned has the handler's reply to its own
      request as it was sent, cut to its buffer. */
  lemma {:induction false} ProxyIsSafe(h: Handler, run: seq<State>, k: nat)
    requires IsRun(h, false, run) && k < |run|
    ensures Safe(h, run[k])
  {
    hide HasTag, Mix, RequestLine;
    RunKeepsInv(h, run, k);
  }
}
