/** proxy_send and proxy_recv as loops over bytes. */
module ProxyClient {
  import opened Blocks
  import opened ProxyFrames
  import opened ConsoleInput
  import opened ProxyProtocol

  /** How much of s goes into a buffer of max bytes that holds n already, one byte kept free. */
  function Room(n: nat, s: Bytes, max: nat): (k: nat)
    ensures k <= |s|
  {
    if n + 1 >= max then 0 else if n + 1 + |s| <= max then |s| else max - 1 - n
  }

  /** _proxy_append_str */
  method AppendStr(buf: Bytes, max: nat, s: Bytes) returns (r: Bytes)
    ensures r == buf + s[..Room(|buf|, s, max)]
  {
    r := buf;
    var i := 0;
    while i < |s| && |r| < max - 1
      invariant 0 <= i <= |s| && r == buf + s[..i] && i <= Room(|buf|, s, max)
    {
      r := r + [s[i]];
      i := i + 1;
      assert s[..i] == s[..i - 1] + [s[i - 1]];
    }
  }

  /** proxy_send: the one write to the console is the frame of the request as it is sent. */
  method ProxySend(id: nat, role: Bytes, prompt: Bytes, ghost outmax: nat) returns (buf: Bytes)
    requires id < 0x8000_0000 && |RequestLine(id, role, [])| <= REQUEST_MAX
    ensures buf == Frame(id, AsSent(id, Call(role, prompt, outmax)))
  {
    hide Decimal;
    ghost var d := Decimal(id);
    assert |RequestLine(id, role, [])| == 9 + 1 + |d| + 1 + |role| + 1;
    buf := AppendStr([], REQUEST_MAX + 1, REQ);
    buf := buf + [TAB];
    buf := AppendInt(buf, id);
    buf := buf + [TAB];
    buf := AppendStr(buf, REQUEST_MAX + 1, role);
    buf := buf + [TAB];
    assert buf == RequestLine(id, role, []);
    ghost var front := buf;
    buf := AppendStr(buf, REQUEST_MAX + 1, prompt);
    ghost var sent := AsSent(id, Call(role, prompt, outmax)).prompt;
    assert sent == prompt[..Room(|front|, prompt, REQUEST_MAX + 1)];
    assert front + sent == RequestLine(id, role, sent);
    buf := buf + [NL];
  }

  /** The test of a whole line in proxy_recv. */
  method LinePayload(line: Bytes, id: nat, outmax: nat) returns (r: Option<Bytes>)
    requires outmax > 0
    ensures r == Payload(line, id, outmax)
  {
    hide DigitRun;
    r := None;
    if |line| > 10 && line[..9] == RES && line[9] == TAB {
      var rest := line[10..];
      var v, used := ParseInt(rest);
      DigitRunIs(rest, used);
      if used > 0 && used < |rest| && rest[used] == TAB && v == id {
        var plen := |rest| - used - 1;
        if plen > outmax - 1 {
          plen := outmax - 1;
        }
        r := Some(rest[used + 1..used + 1 + plen]);
        ghost var text := rest[used + 1..];
        assert r.value == if |text| <= outmax - 1 then text else text[..outmax - 1];
      }
    }
  }

  /** All of proxy_recv on the bytes that read() delivers. */
  ghost function Listen(input: Bytes, line: Bytes, id: nat, outmax: nat): (r: Recv)
    decreases |input|
  {
    if input == [] then More(line)
    else
      var r := Hears(line, input[0], id, outmax);
      if r.More? then Listen(input[1..], r.line, id, outmax) else r
  }

  /** proxy_recv: bytes are gathered into a line of at most 511, each line is tested, and the first
      response to this id ends the loop; without room for a result it fails at once. */
  method ProxyRecv(input: Bytes, id: nat, outmax: int) returns (r: Recv)
    ensures r == if outmax <= 0 then Failed else Listen(input, [], id, outmax)
  {
    hide Payload;
    if outmax <= 0 {
      return Failed;
    }
    var line: Bytes := [];
    var k := 0;
    assert input[0..] == input;
    while k < |input|
      invariant 0 <= k <= |input| && Listen(input, [], id, outmax) == Listen(input[k..], line, id, outmax)
    {
      var c := input[k];
      assert input[k..][0] == c && input[k..][1..] == input[k + 1..];
      k := k + 1;
      if c == CTRL_D {
        return Failed;
      }
      if c != NL {
        if |line| < LINEMAX {
          line := line + [c];
        }
      } else {
        var p := LinePayload(line, id, outmax);
        if p.Some? {
          return Reply(p.value);
        }
        line := [];
      }
    }
    r := More(line);
  }

  /** A byte inside a line. */
  lemma ListenOne(input: Bytes, line: Bytes, id: nat, outmax: nat)
    requires input != [] && input[0] != NL && input[0] != CTRL_D && |line| < LINEMAX
    ensures Listen(input, line, id, outmax) == Listen(input[1..], line + [input[0]], id, outmax)
  {
    hide Payload;
  }

  /** A line that arrives whole is gathered whole. */
  lemma {:induction false} ListenLine(l: Bytes, rest: Bytes, line: Bytes, id: nat, outmax: nat)
    requires |line| + |l| <= LINEMAX && NL !in l && CTRL_D !in l
    ensures Listen(l + rest, line, id, outmax) == Listen(rest, line + l, id, outmax)
  {
    hide Payload, Hears, Listen;
    if l == [] {
      assert l + rest == rest && line + l == line;
    } else {
      ListenOne(l + rest, line, id, outmax);
      assert (l + rest)[0] == l[0] && (l + rest)[1..] == l[1..] + rest;
      assert l[0] in l;
      ListenLine(l[1..], rest, line + [l[0]], id, outmax);
      assert line + [l[0]] + l[1..] == line + l;
    }
  }

  /** Whatever other lines come first, the response to this id is what proxy_recv returns. */
  lemma {:induction false} ReplyIsHeard(others: seq<Bytes>, id: nat, reply: Bytes, rest: Bytes, outmax: nat)
    requires outmax > 0 && NL !in reply && CTRL_D !in reply && |ResponseLine(Decimal(id), reply)| <= LINEMAX
    requires forall l :: l in others ==> |l| <= LINEMAX && NL !in l && CTRL_D !in l && Payload(l, id, outmax).None?
    ensures Listen(Joined(others) + (ResponseLine(Decimal(id), reply) + [NL] + rest), [], id, outmax)
            == Reply(CutTo(reply, outmax))
  {
    hide Payload, Decimal, ResponseLine;
    var resp := ResponseLine(Decimal(id), reply);
    var tail := resp + [NL] + rest;
    if others == [] {
      assert Joined(others) + tail == resp + ([NL] + rest);
      NoBreaks(id, reply);
      ListenLine(resp, [NL] + rest, [], id, outmax);
      assert [] + resp == resp;
      ResponseRoundTrip(id, reply, outmax);
    } else {
      var l := others[0];
      assert l in others;
      var more := Joined(others[1..]) + tail;
      assert Joined(others) + tail == l + ([NL] + more);
      ListenLine(l, [NL] + more, [], id, outmax);
      assert [] + l == l && ([NL] + more)[1..] == more;
      ReplyIsHeard(others[1..], id, reply, rest, outmax);
    }
  }

  function Joined(lines: seq<Bytes>): (r: Bytes) {
    if lines == [] then [] else lines[0] + [NL] + Joined(lines[1..])
  }

  lemma NoBreaks(id: nat, reply: Bytes)
    requires NL !in reply && CTRL_D !in reply
    ensures NL !in ResponseLine(Decimal(id), reply) && CTRL_D !in ResponseLine(Decimal(id), reply)
  {
    var d, r := Decimal(id), ResponseLine(Decimal(id), reply);
    forall i | 0 <= i < |r| ensures r[i] != NL && r[i] != CTRL_D {
      assert r[i] in RES || r[i] == TAB || r[i] in d || r[i] in reply;
    }
  }
}
