/** Request and response lines of the proxy protocol: building, splitting and reading them. */
module ProxyFrames {
  import opened Blocks

  type Bytes = seq<Byte>

  const NL: Byte := 10
  const TAB: Byte := 9
  /** "PROXY_REQ" and "PROXY_RES" */
  const REQ: Bytes := [80, 82, 79, 88, 89, 95, 82, 69, 81]
  const RES: Bytes := [80, 82, 79, 88, 89, 95, 82, 69, 83]

  // ---- decimal numbers --------------------------------------------------------------

  predicate Digit(c: Byte) {
    48 <= c <= 57
  }

  /** The decimal digits of a number. */
  function Decimal(v: nat): (t: Bytes)
    ensures |t| > 0 && forall i :: 0 <= i < |t| ==> Digit(t[i])
  {
    if v < 10 then [48 + v] else Decimal(v / 10) + [48 + v % 10]
  }

  function Value(t: Bytes): (v: nat)
    requires forall i :: 0 <= i < |t| ==> Digit(t[i])
  {
    if |t| == 0 then 0 else assert Digit(t[|t| - 1]); 10 * Value(t[..|t| - 1]) + (t[|t| - 1] as int - 48)
  }

  lemma {:induction false} DecimalRoundTrip(v: nat)
    ensures Value(Decimal(v)) == v
  {
    var t := Decimal(v);
    if v < 10 {
      assert t[..0] == [];
    } else {
      DecimalRoundTrip(v / 10);
      assert t[..|t| - 1] == Decimal(v / 10);
    }
  }

  const MINUS: Byte := 45

  /** _proxy_append_int: a sign if there must be one, and the digits, produced last first and then
      reversed. The least int has no negation. */
  method AppendInt(buf: Bytes, v: int) returns (r: Bytes)
    requires -0x8000_0000 < v < 0x8000_0000
    ensures r == buf + if v < 0 then [MINUS] + Decimal(-v) else Decimal(v)
  {
    hide Decimal, Reversed;
    r := buf;
    var u := v;
    if u < 0 {
      r := r + [MINUS];
      u := -u;
    }
    ghost var front := r;
    var tmp := DigitsBackwards(u);
    var n := |tmp|;
    assert tmp[..n] == tmp;
    while n > 0
      invariant 0 <= n <= |tmp| && front + Reversed(tmp) == r + Reversed(tmp[..n])
    {
      n := n - 1;
      ReversedMore(tmp[..n], tmp[n]);
      assert tmp[..n + 1] == tmp[..n] + [tmp[n]];
      r := r + [tmp[n]];
    }
    ReversedNone();
    assert tmp[..0] == [];
    assert r == front + Decimal(u);
    assert v < 0 ==> r == buf + ([MINUS] + Decimal(-v));
  }

  /** The digits of a number, the last one first. */
  method DigitsBackwards(v: nat) returns (tmp: Bytes)
    ensures Reversed(tmp) == Decimal(v)
  {
    hide Decimal, Reversed;
    tmp := [];
    ReversedNone();
    DecimalStep(v);
    if v == 0 {
      ReversedMore(tmp, 48);
      tmp := tmp + [48];
    } else {
      var rest: nat := v;
      while rest > 0
        invariant Decimal(v) == (if rest > 0 then Decimal(rest) else []) + Reversed(tmp)
      {
        DecimalStep(rest);
        ReversedMore(tmp, 48 + rest % 10);
        tmp := tmp + [48 + rest % 10];
        rest := rest / 10;
      }
    }
  }

  lemma DecimalStep(v: nat)
    ensures Decimal(v) == (if v / 10 > 0 then Decimal(v / 10) else []) + [48 + v % 10]
  {
  }

  lemma ReversedNone()
    ensures Reversed([]) == []
  {
  }

  function Reversed(s: Bytes): (r: Bytes) {
    if s == [] then [] else [s[|s| - 1]] + Reversed(s[..|s| - 1])
  }

  lemma ReversedMore(s: Bytes, c: Byte)
    ensures Reversed(s + [c]) == [c] + Reversed(s)
  {
    assert (s + [c])[..|s|] == s;
  }

  /** _proxy_parse_int: the number at the start of a text, and how many bytes it takes; 0 bytes if there is none. */
  method ParseInt(s: Bytes) returns (v: nat, used: nat)
    ensures used <= |s| && (forall i :: 0 <= i < used ==> Digit(s[i])) && (used < |s| ==> !Digit(s[used]))
    ensures v == Value(s[..used])
  {
    v, used := 0, 0;
    assert s[..0] == [];
    while used < |s| && Digit(s[used])
      invariant 0 <= used <= |s| && (forall i :: 0 <= i < used ==> Digit(s[i])) && v == Value(s[..used])
    {
      assert s[..used + 1][..used] == s[..used];
      v := 10 * v + (s[used] as int - 48);
      used := used + 1;
    }
  }

  // ---- lines -----------------------------------------------------------------------------

  predicate NoTab(t: Bytes) {
    TAB !in t && NL !in t
  }

  predicate NoNewline(t: Bytes) {
    NL !in t
  }

  /** A request line without its newline. */
  function RequestLine(id: nat, role: Bytes, prompt: Bytes): (l: Bytes) {
    REQ + [TAB] + (Decimal(id) + [TAB] + (role + [TAB] + prompt))
  }

  /** A response line without its newline. */
  function ResponseLine(idText: Bytes, reply: Bytes): (l: Bytes) {
    RES + [TAB] + (idText + [TAB] + reply)
  }

  predicate HasTag(l: Bytes) {
    |l| >= 10 && l[..9] == REQ && l[9] == TAB
  }

  /** The first tab, or the length if there is none. */
  function TabAt(t: Bytes): (n: nat)
    ensures n <= |t| && (forall i :: 0 <= i < n ==> t[i] != TAB) && (n < |t| ==> t[n] == TAB)
  {
    if t == [] || t[0] == TAB then 0 else 1 + TabAt(t[1..])
  }

  predicate NoTabIn(t: Bytes) {
    TAB !in t
  }

  lemma TabAtIs(a: Bytes, b: Bytes)
    requires NoTabIn(a)
    ensures TabAt(a + [TAB] + b) == |a|
  {
    var t := a + [TAB] + b;
    assert t[|a|] == TAB && forall i :: 0 <= i < |a| ==> t[i] == a[i] && a[i] in a;
  }

  datatype Request = Request(idText: Bytes, role: Bytes, prompt: Bytes)
  datatype Option<T> = None | Some(value: T)

  /** What the host makes of a line: text.split("\\t", 3) of one that starts with the request tag. */
  function HostSplit(l: Bytes): (r: Option<Request>) {
    if !HasTag(l) then None
    else
      var rest := l[10..];
      var i := TabAt(rest);
      if i == |rest| then None
      else
        var rest2 := rest[i + 1..];
        var j := TabAt(rest2);
        if j == |rest2| then None else Some(Request(rest[..i], rest2[..j], rest2[j + 1..]))
  }

  lemma DigitsHaveNoTab(v: nat)
    ensures NoTab(Decimal(v))
  {
  }

  /** The host gets back the id, role and prompt that were sent; the prompt may hold tabs. */
  lemma RequestRoundTrip(id: nat, role: Bytes, prompt: Bytes)
    requires NoTab(role)
    ensures HostSplit(RequestLine(id, role, prompt)) == Some(Request(Decimal(id), role, prompt))
  {
    hide Decimal;
    var l := RequestLine(id, role, prompt);
    var d := Decimal(id);
    DigitsHaveNoTab(id);
    var rest := d + [TAB] + (role + [TAB] + prompt);
    assert l[..9] == REQ && l[9] == TAB && l[10..] == rest;
    TabAtIs(d, role + [TAB] + prompt);
    assert rest[..|d|] == d && rest[|d| + 1..] == role + [TAB] + prompt;
    TabAtIs(role, prompt);
    assert (role + [TAB] + prompt)[..|role|] == role && (role + [TAB] + prompt)[|role| + 1..] == prompt;
  }

  /** What proxy_recv makes of a line: the payload if it is a response to this id, cut to fit. */
  function Payload(l: Bytes, id: nat, outmax: nat): (r: Option<Bytes>)
    requires outmax > 0
  {
    if !(|l| > 10 && l[..9] == RES && l[9] == TAB) then None
    else
      var rest := l[10..];
      var n := DigitRun(rest);
      if n == 0 || n >= |rest| || rest[n] != TAB || Value(rest[..n]) != id then None
      else
        var text := rest[n + 1..];
        Some(if |text| <= outmax - 1 then text else text[..outmax - 1])
  }

  function DigitRun(t: Bytes): (n: nat)
    ensures n <= |t| && (forall i :: 0 <= i < n ==> Digit(t[i])) && (n < |t| ==> !Digit(t[n]))
  {
    if t == [] || !Digit(t[0]) then 0 else 1 + DigitRun(t[1..])
  }

  function CutTo(t: Bytes, outmax: nat): (r: Bytes)
    requires outmax > 0
  {
    if |t| <= outmax - 1 then t else t[..outmax - 1]
  }

  /** A response to this id is accepted and yields the reply. */
  lemma ResponseRoundTrip(id: nat, reply: Bytes, outmax: nat)
    requires outmax > 0
    ensures Payload(ResponseLine(Decimal(id), reply), id, outmax) == Some(CutTo(reply, outmax))
  {
    var d := Decimal(id);
    var l := ResponseLine(d, reply);
    var rest := d + [TAB] + reply;
    assert l[..9] == RES && l[9] == TAB && l[10..] == rest;
    assert rest[|d|] == TAB && forall i :: 0 <= i < |d| ==> rest[i] == d[i];
    DigitRunIs(rest, |d|);
    assert rest[..|d|] == d && rest[|d| + 1..] == reply;
    DecimalRoundTrip(id);
  }

  lemma DigitRunIs(t: Bytes, n: nat)
    requires n <= |t| && (forall i :: 0 <= i < n ==> Digit(t[i])) && (n < |t| ==> !Digit(t[n]))
    ensures DigitRun(t) == n
  {
  }

  /** A response to another id is dropped. */
  lemma OthersDropped(id: nat, other: nat, reply: Bytes, outmax: nat)
    requires outmax > 0 && other != id
    ensures Payload(ResponseLine(Decimal(other), reply), id, outmax) == None
  {
    var d := Decimal(other);
    var l := ResponseLine(d, reply);
    var rest := d + [TAB] + reply;
    assert l[..9] == RES && l[9] == TAB && l[10..] == rest;
    assert rest[|d|] == TAB && forall i :: 0 <= i < |d| ==> rest[i] == d[i];
    DigitRunIs(rest, |d|);
    assert rest[..|d|] == d;
    DecimalRoundTrip(other);
  }
}
