/** The shell's parser on characters: a cursor over the line, counted strings, and their termination in place. */
module ShellParser {
  import opened ShellGrammar

  // ---- tokens of a line -----------------------------------------------------------------

  predicate Space(c: char) {
    c == ' ' || c == '\t' || c == '\r' || c == '\n' || c == '\U{0B}'
  }

  predicate Symbol(c: char) {
    c in {'<', '|', '>', '&', ';', '(', ')'}
  }

  predicate WordChar(c: char) {
    !Space(c) && !Symbol(c)
  }

  /** The number of leading characters of a word. */
  function WordLen(t: string): (n: nat)
    ensures n <= |t| && (forall i :: 0 <= i < n ==> WordChar(t[i])) && (n < |t| ==> !WordChar(t[n]))
    ensures |t| > 0 && WordChar(t[0]) ==> n > 0
  {
    if t == "" || !WordChar(t[0]) then 0 else 1 + WordLen(t[1..])
  }

  function Lex(t: string): (ts: seq<Tok>)
    decreases |t|
  {
    if t == "" then []
    else if Space(t[0]) then Lex(t[1..])
    else if t[0] == '>' && |t| > 1 && t[1] == '>' then [Sym('+')] + Lex(t[2..])
    else if Symbol(t[0]) then [Sym(t[0])] + Lex(t[1..])
    else [Word(t[..WordLen(t)])] + Lex(t[WordLen(t)..])
  }

  /** The character a token begins with. */
  function FirstChar(k: Tok): (c: char) {
    match k
    case Sym(c) => if c == '+' then '>' else c
    case Word(w) => if w == "" then '+' else w[0]
  }

  // ---- trees with counted strings --------------------------------------------------------

  /** Characters [q, e) of the line. */
  datatype Span = Span(q: nat, e: nat)

  datatype Tree =
    | ExecNode(args: seq<Span>)
    | RedirNode(cmd: Tree, kind: Kind, file: Span)
    | PipeNode(left: Tree, right: Tree)
    | ListNode(first: Tree, rest: Tree)
    | BackNode(bg: Tree)

  /** A whole word of the line: what follows it is not part of a word. */
  predicate IsWord(line: string, sp: Span) {
    && sp.q < sp.e <= |line| && (forall i :: sp.q <= i < sp.e ==> WordChar(line[i]))
    && (sp.e < |line| ==> !WordChar(line[sp.e]))
  }

  predicate AllWords(line: string, t: Tree) {
    match t
    case ExecNode(args) => forall i :: 0 <= i < |args| ==> IsWord(line, args[i])
    case RedirNode(d, _, f) => AllWords(line, d) && IsWord(line, f)
    case PipeNode(l, r) => AllWords(line, l) && AllWords(line, r)
    case ListNode(l, r) => AllWords(line, l) && AllWords(line, r)
    case BackNode(d) => AllWords(line, d)
  }

  function Str(line: string, sp: Span): (w: string) {
    if sp.q <= sp.e <= |line| then line[sp.q..sp.e] else ""
  }

  function Strs(line: string, args: seq<Span>): (ws: seq<string>)
    ensures |ws| == |args| && forall i :: 0 <= i < |args| ==> ws[i] == Str(line, args[i])
  {
    seq(|args|, i requires 0 <= i < |args| => Str(line, args[i]))
  }

  /** The command a tree stands for. */
  function CmdOf(line: string, t: Tree): (c: Cmd) {
    match t
    case ExecNode(args) => Exec(Strs(line, args))
    case RedirNode(d, k, f) => Redir(CmdOf(line, d), k, Str(line, f))
    case PipeNode(l, r) => Pipe(CmdOf(line, l), CmdOf(line, r))
    case ListNode(l, r) => List(CmdOf(line, l), CmdOf(line, r))
    case BackNode(d) => Back(CmdOf(line, d))
  }

  datatype Redirected = Redirected(kind: Kind, file: Span)

  function WrapNode(t: Tree, rs: seq<Redirected>): (r: Tree)
    decreases |rs|
  {
    if rs == [] then t else WrapNode(RedirNode(t, rs[0].kind, rs[0].file), rs[1..])
  }

  function RedirsOf(line: string, rs: seq<Redirected>): (r: seq<Redirection>)
    ensures |r| == |rs| && forall i :: 0 <= i < |rs| ==> r[i] == To(rs[i].kind, Str(line, rs[i].file))
  {
    seq(|rs|, i requires 0 <= i < |rs| => To(rs[i].kind, Str(line, rs[i].file)))
  }

  lemma {:induction false} WrapNodeIs(line: string, t: Tree, rs: seq<Redirected>)
    requires AllWords(line, t) && forall i :: 0 <= i < |rs| ==> IsWord(line, rs[i].file)
    ensures CmdOf(line, WrapNode(t, rs)) == Wrap(CmdOf(line, t), RedirsOf(line, rs)) && AllWords(line, WrapNode(t, rs))
    decreases |rs|
  {
    if rs != [] {
      WrapNodeIs(line, RedirNode(t, rs[0].kind, rs[0].file), rs[1..]);
      assert RedirsOf(line, rs)[1..] == RedirsOf(line, rs[1..]);
    }
  }

  // ---- the cursor ---------------------------------------------------------------------------

  class Parser {
    const line: string
    var s: nat

    constructor (text: string)
      ensures line == text && s == 0
    {
      line, s := text, 0;
    }

    ghost function Rest(): (ts: seq<Tok>)
      requires s <= |line|
      reads this
    {
      Lex(line[s..])
    }

    method SkipSpace()
      requires s <= |line|
      modifies this`s
      ensures old(s) <= s <= |line| && Rest() == old(Rest()) && (s < |line| ==> !Space(line[s]))
    {
      while s < |line| && Space(line[s])
        invariant old(s) <= s <= |line| && Rest() == old(Rest())
        decreases |line| - s
      {
        assert line[s..][1..] == line[s + 1..];
        s := s + 1;
      }
    }

    /** peek: the next token begins with one of the characters. */
    method Peek(toks: set<char>) returns (yes: bool)
      requires s <= |line|
      modifies this`s
      ensures old(s) <= s <= |line| && Rest() == old(Rest())
      ensures yes <==> Rest() != [] && FirstChar(Rest()[0]) in toks
      ensures s < |line| ==> !Space(line[s])
      ensures yes ==> s < |line|
    {
      SkipSpace();
      FirstOf(line[s..]);
      yes := s < |line| && line[s] in toks;
    }

    /** gettoken: 0 at the end of the line, 'a' for a word, '+' for ">>", else the symbol; then the
        next token is next. */
    method Gettoken() returns (tok: char, q: nat, e: nat)
      requires s <= |line|
      modifies this`s
      ensures old(s) <= s <= |line|
      ensures old(Rest()) == [] ==> tok == '\0' && Rest() == []
      ensures old(Rest()) != [] ==>
                && s > old(s) && Rest() == old(Rest())[1..]
                && match old(Rest())[0]
                   case Sym(c) => tok == c && tok != 'a' && tok != '\0'
                   case Word(w) => tok == 'a' && IsWord(line, Span(q, e)) && Str(line, Span(q, e)) == w
    {
      hide Lex;
      SkipSpace();
      q := s;
      FirstOf(line[s..]);
      if s == |line| {
        tok := '\0';
      } else if line[s] == '>' && s + 1 < |line| && line[s + 1] == '>' {
        tok := '+';
        LexSymbol(line, s);
        s := s + 2;
      } else if Symbol(line[s]) {
        tok := line[s];
        LexSymbol(line, s);
        s := s + 1;
      } else {
        tok := 'a';
        ReadWord();
        LexWord(line, q, s);
      }
      e := s;
      SkipSpace();
    }

    method ReadWord()
      requires s < |line| && WordChar(line[s])
      modifies this`s
      ensures old(s) < s <= |line| && IsWord(line, Span(old(s), s))
    {
      while s < |line| && !Space(line[s]) && !Symbol(line[s])
        invariant old(s) <= s <= |line| && forall i :: old(s) <= i < s ==> WordChar(line[i])
        invariant s == old(s) ==> s < |line| && WordChar(line[s])
        decreases |line| - s
      {
        s := s + 1;
      }
    }

    /** peek for symbols, in terms of tokens: '>' also announces ">>". */
    method PeekSymbol(toks: set<char>) returns (yes: bool)
      requires s <= |line| && forall c :: c in toks ==> Symbol(c)
      modifies this`s
      ensures old(s) <= s <= |line| && Rest() == old(Rest()) && (yes ==> s < |line|)
      ensures yes <==> Starts(Rest(), toks + if '>' in toks then {'+'} else {})
      ensures s < |line| ==> !Space(line[s])
    {
      hide Lex;
      yes := Peek(toks);
      if Rest() != [] { LexTokens(line[s..], 0); }
    }

    /** parseredirs; false stands for its panic. */
    method ParseRedirs() returns (ok: bool, rs: seq<Redirected>)
      requires s <= |line|
      modifies this`s
      ensures old(s) <= s <= |line| && ok == Redirs(old(Rest())).Ok?
      ensures ok ==> RedirsOf(line, rs) == Redirs(old(Rest())).value && Rest() == Redirs(old(Rest())).left
      ensures forall i :: 0 <= i < |rs| ==> IsWord(line, rs[i].file)
    {
      hide Lex;
      rs := [];
      ghost var r0 := Rest();
      assert RedirsOf(line, rs) == [];
      Joined([], Redirs(r0));
      var more := PeekSymbol({'<', '>'});
      while more
        invariant old(s) <= s <= |line| && (more <==> Starts(Rest(), {'<', '>', '+'}))
        invariant Redirs(r0) == Join(RedirsOf(line, rs), Redirs(Rest()))
        invariant forall i :: 0 <= i < |rs| ==> IsWord(line, rs[i].file)
        decreases |line| - s, more
      {
        ghost var r1 := Rest();
        var tok, q, e := Gettoken();
        var t2, q2, e2 := Gettoken();
        if t2 != 'a' {
          return false, rs;
        }
        JoinStep(line, rs, r1, Redirected(KindOf(tok), Span(q2, e2)));
        rs := rs + [Redirected(KindOf(tok), Span(q2, e2))];
        more := PeekSymbol({'<', '>'});
      }
      ok := true;
    }

    /** parseexec, with parseblock */
    method ParseExec() returns (ok: bool, t: Tree)
      requires s <= |line|
      modifies this`s
      ensures old(s) <= s <= |line| && ok == ShellGrammar.ParseExec(old(Rest())).Ok?
      ensures ok ==> AllWords(line, t) && ShellGrammar.ParseExec(old(Rest())) == Ok(CmdOf(line, t), Rest())
      decreases |line| - s, 0
    {
      hide Lex, ShellGrammar.Args, WrapNode, ShellGrammar.Redirs, ShellGrammar.ParseLine;
      ghost var r0 := Rest();
      t := ExecNode([]);
      var block := PeekSymbol({'('});
      if block {
        var tok, q, e := Gettoken();
        var inner;
        ok, inner := ParseLine();
        if !ok {
          return;
        }
        var close := PeekSymbol({')'});
        if !close {
          return false, t;
        }
        tok, q, e := Gettoken();
        var rs;
        ok, rs := ParseRedirs();
        if ok {
          WrapNodeIs(line, inner, rs);
          t := WrapNode(inner, rs);
        }
      } else {
        var rs;
        ok, rs := ParseRedirs();
        if ok {
          ok, t := ParseArgs(rs);
        }
      }
    }

    /** The loop of parseexec. */
    method ParseArgs(first: seq<Redirected>) returns (ok: bool, t: Tree)
      requires s <= |line| && forall i :: 0 <= i < |first| ==> IsWord(line, first[i].file)
      modifies this`s
      ensures old(s) <= s <= |line| && ok == Args([], RedirsOf(line, first), old(Rest())).Ok?
      ensures ok ==> AllWords(line, t) && Args([], RedirsOf(line, first), old(Rest())) == Ok(CmdOf(line, t), Rest())
    {
      hide Lex, ShellGrammar.Redirs, WrapNode;
      ghost var target := Args([], RedirsOf(line, first), Rest());
      var args: seq<Span>, rs := [], first;
      t := ExecNode([]);
      ok := true;
      assert Strs(line, args) == [];
      var more := MoreArgs();
      while more
        invariant old(s) <= s <= |line| && (more <==> Rest() != [] && !Starts(Rest(), {'|', ')', '&', ';'}))
        invariant target == Args(Strs(line, args), RedirsOf(line, rs), Rest())
        invariant forall i :: 0 <= i < |args| ==> IsWord(line, args[i])
        invariant forall i :: 0 <= i < |rs| ==> IsWord(line, rs[i].file)
        decreases |line| - s
      {
        ghost var r1 := Rest();
        var tok, q, e := Gettoken();
        if tok != 'a' {
          return false, t;
        }
        StrsMore(line, args, Span(q, e));
        args := args + [Span(q, e)];
        if |args| >= MAXARGS {
          return false, t;
        }
        var rs2;
        ok, rs2 := ParseRedirs();
        if !ok {
          return;
        }
        RedirsOfJoin(line, rs, rs2);
        rs := rs + rs2;
        more := MoreArgs();
      }
      WrapNodeIs(line, ExecNode(args), rs);
      t := WrapNode(ExecNode(args), rs);
    }

    /** The loop test of parseexec and the end of the line together. */
    method MoreArgs() returns (more: bool)
      requires s <= |line|
      modifies this`s
      ensures old(s) <= s <= |line| && Rest() == old(Rest())
              && (more <==> Rest() != [] && !Starts(Rest(), {'|', ')', '&', ';'}))
    {
      hide Lex;
      var stop := PeekSymbol({'|', ')', '&', ';'});
      AtEnd(line, s);
      more := !stop && s < |line|;
    }

    /** parsepipe */
    method ParsePipe() returns (ok: bool, t: Tree)
      requires s <= |line|
      modifies this`s
      ensures old(s) <= s <= |line| && ok == ShellGrammar.ParsePipe(old(Rest())).Ok?
      ensures ok ==> AllWords(line, t) && ShellGrammar.ParsePipe(old(Rest())) == Ok(CmdOf(line, t), Rest())
      decreases |line| - s, 1
    {
      hide Lex, ShellGrammar.ParseExec;
      ok, t := ParseExec();
      if ok {
        var bar := PeekSymbol({'|'});
        if bar {
          var tok, q, e := Gettoken();
          var right;
          ok, right := ParsePipe();
          if ok {
            t := PipeNode(t, right);
          }
        }
      }
    }

    /** parseline */
    method ParseLine() returns (ok: bool, t: Tree)
      requires s <= |line|
      modifies this`s
      ensures old(s) <= s <= |line| && ok == ShellGrammar.ParseLine(old(Rest())).Ok?
      ensures ok ==> AllWords(line, t) && ShellGrammar.ParseLine(old(Rest())) == Ok(CmdOf(line, t), Rest())
      decreases |line| - s, 2
    {
      hide Lex, ShellGrammar.ParsePipe;
      ok, t := ParsePipe();
      if ok {
        t := ParseBacks(t);
        var semi := PeekSymbol({';'});
        if semi {
          var tok, q, e := Gettoken();
          var rest;
          ok, rest := ParseLine();
          if ok {
            t := ListNode(t, rest);
          }
        }
      }
    }

    /** The loop of parseline over '&'. */
    method ParseBacks(first: Tree) returns (t: Tree)
      requires s <= |line| && AllWords(line, first)
      modifies this`s
      ensures old(s) <= s <= |line| && AllWords(line, t)
              && Backs(CmdOf(line, first), old(Rest())) == Ok(CmdOf(line, t), Rest())
    {
      hide Lex;
      ghost var target := Backs(CmdOf(line, first), Rest());
      t := first;
      var more := PeekSymbol({'&'});
      while more
        invariant old(s) <= s <= |line| && (more <==> Starts(Rest(), {'&'})) && AllWords(line, t)
        invariant target == Backs(CmdOf(line, t), Rest())
        decreases |line| - s
      {
        var tok, q, e := Gettoken();
        t := BackNode(t);
        more := PeekSymbol({'&'});
      }
    }

    /** parsecmd, up to nulterminate: it always returns, with a tree exactly when the whole line is a command. */
    method ParseAll() returns (ok: bool, t: Tree)
      requires s == 0
      modifies this`s
      ensures ok == ParseCmd(Lex(line)).Ok?
      ensures ok ==> AllWords(line, t) && CmdOf(line, t) == ParseCmd(Lex(line)).value
    {
      hide Lex, ShellGrammar.ParseLine;
      assert line[0..] == line;
      ok, t := ParseLine();
      if ok {
        SkipSpace();
        AtEnd(line, s);
        ok := s == |line|;
      }
    }
  }

  lemma LexSymbol(line: string, s: nat)
    requires s < |line| && Symbol(line[s])
    ensures Lex(line[s..]) == if line[s] == '>' && s + 1 < |line| && line[s + 1] == '>'
                                then [Sym('+')] + Lex(line[s + 2..]) else [Sym(line[s])] + Lex(line[s + 1..])
  {
    var t := line[s..];
    assert t[1..] == line[s + 1..];
    if s + 1 < |line| { assert t[2..] == line[s + 2..]; }
  }

  lemma LexWord(line: string, q: nat, e: nat)
    requires IsWord(line, Span(q, e))
    ensures Lex(line[q..]) == [Word(line[q..e])] + Lex(line[e..])
  {
    hide Lex, WordLen, WordChar;
    var t := line[q..];
    WordLenIs(t, e - q);
    LexAtWord(t);
    assert t[e - q..] == line[e..] && t[..e - q] == line[q..e];
  }

  lemma LexAtWord(t: string)
    requires t != "" && WordChar(t[0])
    ensures Lex(t) == [Word(t[..WordLen(t)])] + Lex(t[WordLen(t)..])
  {
  }

  lemma FirstOf(t: string)
    ensures t == "" ==> Lex(t) == []
    ensures t != "" && !Space(t[0]) ==> Lex(t) != [] && FirstChar(Lex(t)[0]) == t[0]
  {
  }

  lemma WordLenIs(t: string, n: nat)
    requires n <= |t| && (forall i :: 0 <= i < n ==> WordChar(t[i])) && (n < |t| ==> !WordChar(t[n]))
    ensures WordLen(t) == n
  {
  }

  lemma {:induction false} LexTokens(t: string, i: nat)
    requires i < |Lex(t)|
    ensures match Lex(t)[i]
            case Sym(c) => Symbol(c) || c == '+'
            case Word(w) => w != "" && WordChar(w[0])
    decreases |t|
  {
    if Space(t[0]) {
      LexTokens(t[1..], i);
    } else if i > 0 {
      var n := if t[0] == '>' && |t| > 1 && t[1] == '>' then 2 else if Symbol(t[0]) then 1 else WordLen(t);
      LexTokens(t[n..], i - 1);
    }
  }

  /** A result with redirections put in front. */
  function Join(rs: seq<Redirection>, r: Result<seq<Redirection>>): (q: Result<seq<Redirection>>) {
    if r.Err? then Err else Ok(rs + r.value, r.left)
  }

  lemma Joined(rs: seq<Redirection>, r: Result<seq<Redirection>>)
    ensures rs == [] ==> Join(rs, r) == r
  {
    if r.Ok? && rs == [] { assert rs + r.value == r.value; }
  }

  lemma JoinStep(line: string, rs: seq<Redirected>, ts: seq<Tok>, r: Redirected)
    requires Starts(ts, {'<', '>', '+'}) && |ts| >= 2 && ts[1] == Word(Str(line, r.file)) && r.kind == KindOf(ts[0].c)
    ensures Join(RedirsOf(line, rs), Redirs(ts)) == Join(RedirsOf(line, rs + [r]), Redirs(ts[2..]))
  {
    RedirsOfMore(line, rs, r);
    hide RedirsOf, Str;
    JoinNext(RedirsOf(line, rs), ts);
  }

  lemma RedirsOfMore(line: string, rs: seq<Redirected>, r: Redirected)
    ensures RedirsOf(line, rs + [r]) == RedirsOf(line, rs) + [To(r.kind, Str(line, r.file))]
  {
  }

  lemma JoinNext(rs: seq<Redirection>, ts: seq<Tok>)
    requires Starts(ts, {'<', '>', '+'}) && |ts| >= 2 && ts[1].Word?
    ensures Join(rs, Redirs(ts)) == Join(rs + [To(KindOf(ts[0].c), ts[1].w)], Redirs(ts[2..]))
  {
    var more, h := Redirs(ts[2..]), [To(KindOf(ts[0].c), ts[1].w)];
    if more.Ok? {
      assert rs + (h + more.value) == rs + h + more.value;
    }
  }

  lemma StrsMore(line: string, args: seq<Span>, sp: Span)
    ensures Strs(line, args + [sp]) == Strs(line, args) + [Str(line, sp)]
  {
  }

  lemma RedirsOfJoin(line: string, rs: seq<Redirected>, rs2: seq<Redirected>)
    ensures RedirsOf(line, rs + rs2) == RedirsOf(line, rs) + RedirsOf(line, rs2)
  {
  }

  lemma AtEnd(line: string, s: nat)
    requires s <= |line|
    ensures s == |line| ==> Lex(line[s..]) == []
    ensures s < |line| && !Space(line[s]) ==> Lex(line[s..]) != []
  {
    FirstOf(line[s..]);
  }

  // ---- nulterminate -------------------------------------------------------------------------

  /** The positions just past the words of a tree. */
  function Ends(t: Tree): (r: set<nat>) {
    match t
    case ExecNode(args) => set i | 0 <= i < |args| :: args[i].e
    case RedirNode(d, _, f) => Ends(d) + {f.e}
    case PipeNode(l, r) => Ends(l) + Ends(r)
    case ListNode(l, r) => Ends(l) + Ends(r)
    case BackNode(d) => Ends(d)
  }

  function Spans(t: Tree): (r: set<Span>) {
    match t
    case ExecNode(args) => set i | 0 <= i < |args| :: args[i]
    case RedirNode(d, _, f) => Spans(d) + {f}
    case PipeNode(l, r) => Spans(l) + Spans(r)
    case ListNode(l, r) => Spans(l) + Spans(r)
    case BackNode(d) => Spans(d)
  }

  /** The line with its NUL, and NULs written at some positions. */
  ghost predicate Terminated(line: string, buf: seq<char>, ends: set<nat>) {
    |buf| == |line| + 1 && buf[|line|] == '\0' && forall i :: 0 <= i < |line| ==>
        buf[i] == if i in ends then '\0' else line[i]
  }

  lemma {:induction false} EndsAreDelimiters(line: string, t: Tree, i: nat)
    requires AllWords(line, t) && i in Ends(t)
    ensures i <= |line| && (i < |line| ==> !WordChar(line[i]))
  {
    match t
    case ExecNode(args) =>
    case RedirNode(d, _, f) => if i in Ends(d) { EndsAreDelimiters(line, d, i); }
    case PipeNode(l, r) => if i in Ends(l) { EndsAreDelimiters(line, l, i); } else { EndsAreDelimiters(line, r, i); }
    case ListNode(l, r) => if i in Ends(l) { EndsAreDelimiters(line, l, i); } else { EndsAreDelimiters(line, r, i); }
    case BackNode(d) => EndsAreDelimiters(line, d, i);
  }

  lemma {:induction false} SpansEnd(line: string, t: Tree, sp: Span)
    requires AllWords(line, t) && sp in Spans(t)
    ensures IsWord(line, sp) && sp.e in Ends(t)
  {
    match t
    case ExecNode(args) =>
    case RedirNode(d, _, f) => if sp in Spans(d) { SpansEnd(line, d, sp); }
    case PipeNode(l, r) => if sp in Spans(l) { SpansEnd(line, l, sp); } else { SpansEnd(line, r, sp); }
    case ListNode(l, r) => if sp in Spans(l) { SpansEnd(line, l, sp); } else { SpansEnd(line, r, sp); }
    case BackNode(d) => SpansEnd(line, d, sp);
  }

  /** nulterminate: a NUL just past every word of the tree and nowhere else. */
  method Nulterminate(buf: array<char>, t: Tree, ghost line: string, ghost before: set<nat>)
    requires AllWords(line, t) && Terminated(line, buf[..], before)
    modifies buf
    ensures Terminated(line, buf[..], before + Ends(t))
    decreases t
  {
    match t
    case ExecNode(args) =>
      var i := 0;
      while i < |args|
        invariant 0 <= i <= |args|
        invariant Terminated(line, buf[..], before + (set j | 0 <= j < i :: args[j].e))
      {
        buf[args[i].e] := '\0';
        i := i + 1;
      }
    case RedirNode(d, _, f) =>
      Nulterminate(buf, d, line, before);
      buf[f.e] := '\0';
    case PipeNode(l, r) =>
      Nulterminate(buf, l, line, before);
      Nulterminate(buf, r, line, before + Ends(l));
      assert before + Ends(l) + Ends(r) == before + Ends(t);
    case ListNode(l, r) =>
      Nulterminate(buf, l, line, before);
      Nulterminate(buf, r, line, before + Ends(l));
      assert before + Ends(l) + Ends(r) == before + Ends(t);
    case BackNode(d) =>
      Nulterminate(buf, d, line, before);
  }

  /** The C string at q in a buffer. */
  ghost predicate CString(buf: seq<char>, q: nat, w: string) {
    q + |w| < |buf| && buf[q..q + |w|] == w && buf[q + |w|] == '\0' && forall i :: 0 <= i < |w| ==> w[i] != '\0'
  }

  /** After nulterminate every argument and file name of the tree is, as a C string, its token. */
  lemma {:induction false} StringsAreTokens(line: string, t: Tree, buf: seq<char>, sp: Span)
    requires AllWords(line, t) && Terminated(line, buf, Ends(t)) && sp in Spans(t)
    requires forall i :: 0 <= i < |line| ==> line[i] != '\0'
    ensures CString(buf, sp.q, Str(line, sp))
  {
    SpansEnd(line, t, sp);
    forall i | sp.q <= i < sp.e ensures buf[i] == line[i] {
      if i in Ends(t) { EndsAreDelimiters(line, t, i); }
    }
  }

  /** parsecmd: the tree of the line's command, and the line with every string of the tree terminated in place. */
  method Parsecmd(text: string) returns (ok: bool, t: Tree, buf: array<char>)
    requires forall i :: 0 <= i < |text| ==> text[i] != '\0'
    ensures fresh(buf) && buf.Length == |text| + 1 && ok == ParseCmd(Lex(text)).Ok?
    ensures ok ==> CmdOf(text, t) == ParseCmd(Lex(text)).value
    ensures ok ==> forall sp :: sp in Spans(t) ==> CString(buf[..], sp.q, Str(text, sp))
    ensures forall i :: 0 <= i < |text| && WordChar(text[i]) ==> buf[i] == text[i]
  {
    hide Lex, ParseCmd, CString;
    buf := new char[|text| + 1](i requires 0 <= i <= |text| => if i < |text| then text[i] else '\0');
    var p := new Parser(text);
    ok, t := p.ParseAll();
    if ok {
      Nulterminate(buf, t, text, {});
      assert {} + Ends(t) == Ends(t);
      forall sp | sp in Spans(t) ensures CString(buf[..], sp.q, Str(text, sp)) {
        StringsAreTokens(text, t, buf[..], sp);
      }
      forall i | 0 <= i < |text| && WordChar(text[i]) ensures buf[i] == text[i] {
        if i in Ends(t) { EndsAreDelimiters(text, t, i); }
      }
    }
  }
}
