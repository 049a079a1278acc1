/** The shell's grammar as a language: command lines as they are written, their tokens, and the trees they stand
    for. The parser accepts exactly the lines of the grammar and gives each its tree. */
module ShellSyntax {
  import opened ShellGrammar

  // ---- command lines as they are written ----------------------------------------------------

  /** A word and the redirections written after it. */
  datatype Arg = Arg(word: string, after: seq<Redirection>)

  /** A simple command, with redirections before its first word and after each word, or a line in parentheses. */
  datatype WExec = Plain(first: seq<Redirection>, args: seq<Arg>) | Block(line: WLine, after: seq<Redirection>)

  datatype WPipe = One(e: WExec) | Bar(e: WExec, more: WPipe)

  /** A pipeline and any number of '&', the last one of a line or with ';' and more after it. */
  datatype WLine = Last(p: WPipe, amps: nat) | Semi(p: WPipe, amps: nat, rest: WLine)

  function SymOf(k: Kind): (c: char) {
    match k
    case In => '<'
    case Out => '>'
    case Append => '+'
  }

  function PrintRedirs(rs: seq<Redirection>): (ts: seq<Tok>) {
    if rs == [] then [] else [Sym(SymOf(rs[0].kind)), Word(rs[0].file)] + PrintRedirs(rs[1..])
  }

  function ArgToks(args: seq<Arg>): (ts: seq<Tok>) {
    if args == [] then [] else [Word(args[0].word)] + (PrintRedirs(args[0].after) + ArgToks(args[1..]))
  }

  function Amps(n: nat): (ts: seq<Tok>) {
    if n == 0 then [] else [Sym('&')] + Amps(n - 1)
  }

  function TextExec(e: WExec): (ts: seq<Tok>)
    decreases e, 0
  {
    match e
    case Plain(first, args) => PrintRedirs(first) + ArgToks(args)
    case Block(line, after) => [Sym('(')] + (TextLine(line) + ([Sym(')')] + PrintRedirs(after)))
  }

  function TextPipe(p: WPipe): (ts: seq<Tok>)
    decreases p, 1
  {
    match p
    case One(e) => TextExec(e)
    case Bar(e, more) => TextExec(e) + ([Sym('|')] + TextPipe(more))
  }

  /** The tokens of a line. */
  function TextLine(l: WLine): (ts: seq<Tok>)
    decreases l, 2
  {
    match l
    case Last(p, n) => TextPipe(p) + Amps(n)
    case Semi(p, n, rest) => TextPipe(p) + (Amps(n) + ([Sym(';')] + TextLine(rest)))
  }

  // ---- what a line means ----------------------------------------------------------------------

  function AllWords(args: seq<Arg>): (ws: seq<string>) {
    if args == [] then [] else [args[0].word] + AllWords(args[1..])
  }

  function AllRedirs(args: seq<Arg>): (rs: seq<Redirection>) {
    if args == [] then [] else args[0].after + AllRedirs(args[1..])
  }

  /** A simple command runs its words, with every redirection applied in the order written. */
  function TreeExec(e: WExec): (c: Cmd)
    decreases e, 0
  {
    match e
    case Plain(first, args) => Wrap(Exec(AllWords(args)), first + AllRedirs(args))
    case Block(line, after) => Wrap(TreeLine(line), after)
  }

  function TreePipe(p: WPipe): (c: Cmd)
    decreases p, 1
  {
    match p
    case One(e) => TreeExec(e)
    case Bar(e, more) => Pipe(TreeExec(e), TreePipe(more))
  }

  function InBack(c: Cmd, n: nat): (r: Cmd)
    decreases n
  {
    if n == 0 then c else InBack(Back(c), n - 1)
  }

  function TreeLine(l: WLine): (c: Cmd)
    decreases l, 2
  {
    match l
    case Last(p, n) => InBack(TreePipe(p), n)
    case Semi(p, n, rest) => List(InBack(TreePipe(p), n), TreeLine(rest))
  }

  /** At most nine words in every simple command. */
  predicate FitsExec(e: WExec)
    decreases e, 0
  {
    match e
    case Plain(_, args) => |args| < MAXARGS
    case Block(line, _) => FitsLine(line)
  }

  predicate FitsPipe(p: WPipe)
    decreases p, 1
  {
    FitsExec(p.e) && (p.Bar? ==> FitsPipe(p.more))
  }

  predicate FitsLine(l: WLine)
    decreases l, 2
  {
    FitsPipe(l.p) && (l.Semi? ==> FitsLine(l.rest))
  }

  // ---- every line of the grammar is parsed to its tree --------------------------------------------

  /** What may follow a command, a pipeline and a line for the parser to stop there. */
  predicate StopsExec(tail: seq<Tok>) {
    tail == [] || Starts(tail, {'|', ')', '&', ';'})
  }

  predicate StopsPipe(tail: seq<Tok>) {
    tail == [] || Starts(tail, {')', '&', ';'})
  }

  predicate StopsLine(tail: seq<Tok>) {
    tail == [] || Starts(tail, {')'})
  }

  lemma {:induction false} RedirsBack(rs: seq<Redirection>, tail: seq<Tok>)
    requires !Starts(tail, {'<', '>', '+'})
    ensures Redirs(PrintRedirs(rs) + tail) == Ok(rs, tail)
  {
    var ts := PrintRedirs(rs) + tail;
    if rs == [] {
      assert ts == tail;
    } else {
      assert ts[2..] == PrintRedirs(rs[1..]) + tail;
      RedirsBack(rs[1..], tail);
      assert [To(rs[0].kind, rs[0].file)] + rs[1..] == rs;
    }
  }

  lemma ArgsStart(args: seq<Arg>, tail: seq<Tok>)
    requires StopsExec(tail)
    ensures !Starts(ArgToks(args) + tail, {'<', '>', '+'}) && !Starts(ArgToks(args) + tail, {'('})
  {
    if args == [] {
      assert ArgToks(args) + tail == tail;
    } else {
      assert (ArgToks(args) + tail)[0] == Word(args[0].word);
    }
  }

  lemma ArgsEnd(done: seq<string>, rs: seq<Redirection>, ts: seq<Tok>)
    requires StopsExec(ts)
    ensures Args(done, rs, ts) == Ok(Wrap(Exec(done), rs), ts)
  {
  }

  lemma ArgsNext(done: seq<string>, rs: seq<Redirection>, ts: seq<Tok>)
    requires !StopsExec(ts)
    ensures Args(done, rs, ts) ==
            if !ts[0].Word? || |done| + 1 >= MAXARGS || Redirs(ts[1..]).Err? then Err
            else Args(done + [ts[0].w], rs + Redirs(ts[1..]).value, Redirs(ts[1..]).left)
  {
    hide Redirs;
  }

  lemma NoArgs()
    ensures ArgToks([]) == []
  {
  }

  lemma FirstArg(args: seq<Arg>, tail: seq<Tok>)
    requires args != []
    ensures var ts := ArgToks(args) + tail;
            && |ts| > 0 && ts[0] == Word(args[0].word)
            && ts[1..] == PrintRedirs(args[0].after) + (ArgToks(args[1..]) + tail)
  {
    Regroup(Word(args[0].word), PrintRedirs(args[0].after), ArgToks(args[1..]), tail);
  }

  lemma Regroup(x: Tok, a: seq<Tok>, b: seq<Tok>, tail: seq<Tok>)
    ensures var ts := [x] + (a + b) + tail; ts[0] == x && ts[1..] == a + (b + tail)
  {
  }

  /** Words and redirections in any order. */
  lemma {:induction false} ArgsBack(done: seq<string>, rs: seq<Redirection>, args: seq<Arg>, tail: seq<Tok>)
    requires |done| + |args| < MAXARGS && StopsExec(tail)
    ensures Args(done, rs, ArgToks(args) + tail)
            == Ok(Wrap(Exec(done + AllWords(args)), rs + AllRedirs(args)), tail)
    decreases |args|
  {
    hide Redirs, Wrap, PrintRedirs, Args, ArgToks;
    var ts := ArgToks(args) + tail;
    if args == [] {
      NoArgs();
      assert ts == tail && done + [] == done && rs + [] == rs;
      ArgsEnd(done, rs, tail);
    } else {
      var a, more := args[0], ArgToks(args[1..]) + tail;
      FirstArg(args, tail);
      ArgsNext(done, rs, ts);
      ArgsStart(args[1..], tail);
      RedirsBack(a.after, more);
      ArgsBack(done + [a.word], rs + a.after, args[1..], tail);
      assert done + [a.word] + AllWords(args[1..]) == done + AllWords(args);
      assert rs + a.after + AllRedirs(args[1..]) == rs + AllRedirs(args);
    }
  }

  lemma PlainBack(first: seq<Redirection>, args: seq<Arg>, tail: seq<Tok>)
    requires |args| < MAXARGS && StopsExec(tail)
    ensures ParseExec(TextExec(Plain(first, args)) + tail) == Ok(TreeExec(Plain(first, args)), tail)
  {
    hide Redirs, Wrap, Args, ArgToks;
    var rest := ArgToks(args) + tail;
    var ts := TextExec(Plain(first, args)) + tail;
    assert ts == PrintRedirs(first) + rest;
    ArgsStart(args, tail);
    RedirsBack(first, rest);
    ArgsBack([], first, args, tail);
    assert [] + AllWords(args) == AllWords(args);
    assert first == [] ==> ts == rest;
    assert first != [] ==> ts[0] == Sym(SymOf(first[0].kind));
  }

  lemma BlockBack(line: WLine, after: seq<Redirection>, tail: seq<Tok>)
    requires StopsExec(tail)
    requires var end := [Sym(')')] + (PrintRedirs(after) + tail);
             ParseLine(TextLine(line) + end) == Ok(TreeLine(line), end)
    ensures ParseExec(TextExec(Block(line, after)) + tail) == Ok(TreeExec(Block(line, after)), tail)
  {
    hide Redirs, Wrap, Args, PrintRedirs, TextLine, TreeLine;
    var end := [Sym(')')] + (PrintRedirs(after) + tail);
    var ts := TextExec(Block(line, after)) + tail;
    assert ts[0] == Sym('(') && ts[1..] == TextLine(line) + end;
    assert end[1..] == PrintRedirs(after) + tail;
    RedirsBack(after, tail);
  }

  lemma BarBack(e: WExec, more: WPipe, tail: seq<Tok>)
    requires var rest := [Sym('|')] + (TextPipe(more) + tail);
             ParseExec(TextExec(e) + rest) == Ok(TreeExec(e), rest)
    requires ParsePipe(TextPipe(more) + tail) == Ok(TreePipe(more), tail)
    ensures ParsePipe(TextPipe(Bar(e, more)) + tail) == Ok(TreePipe(Bar(e, more)), tail)
  {
    hide ParseExec, TextExec, TreeExec;
    var rest := [Sym('|')] + (TextPipe(more) + tail);
    assert TextPipe(Bar(e, more)) + tail == TextExec(e) + rest;
    assert rest[1..] == TextPipe(more) + tail;
  }

  lemma {:induction false} AmpsBack(c: Cmd, n: nat, tail: seq<Tok>)
    requires !Starts(tail, {'&'})
    ensures Backs(c, Amps(n) + tail) == Ok(InBack(c, n), tail)
    decreases n
  {
    var ts := Amps(n) + tail;
    if n == 0 {
      assert ts == tail;
    } else {
      assert ts[0] == Sym('&') && ts[1..] == Amps(n - 1) + tail;
      AmpsBack(Back(c), n - 1, tail);
    }
  }

  /** A pipeline and its '&'s, with what follows. */
  lemma LineFrom(p: WPipe, n: nat, rest: seq<Tok>)
    requires ParsePipe(TextPipe(p) + (Amps(n) + rest)) == Ok(TreePipe(p), Amps(n) + rest) && !Starts(rest, {'&'})
    ensures var l := ParseLine(TextPipe(p) + (Amps(n) + rest)); var c := InBack(TreePipe(p), n);
            l == if !Starts(rest, {';'}) then Ok(c, rest)
                 else var r := ParseLine(rest[1..]); if r.Err? then Err else Ok(List(c, r.value), r.left)
  {
    hide ParsePipe, TextPipe, TreePipe;
    AmpsBack(TreePipe(p), n, rest);
  }

  lemma AmpsStart(n: nat, tail: seq<Tok>)
    requires StopsLine(tail) || Starts(tail, {';'})
    ensures StopsPipe(Amps(n) + tail)
  {
    if n == 0 {
      assert Amps(n) + tail == tail;
    } else {
      assert (Amps(n) + tail)[0] == Sym('&');
    }
  }

  lemma {:induction false} ExecBack(e: WExec, tail: seq<Tok>)
    requires FitsExec(e) && StopsExec(tail)
    ensures ParseExec(TextExec(e) + tail) == Ok(TreeExec(e), tail)
    decreases e, 0
  {
    hide ParseExec, ParseLine, TextLine, TreeLine, Args;
    match e
    case Plain(first, args) => PlainBack(first, args, tail);
    case Block(line, after) =>
      LineBack(line, [Sym(')')] + (PrintRedirs(after) + tail));
      BlockBack(line, after, tail);
  }

  lemma {:induction false} PipeBack(p: WPipe, tail: seq<Tok>)
    requires FitsPipe(p) && StopsPipe(tail)
    ensures ParsePipe(TextPipe(p) + tail) == Ok(TreePipe(p), tail)
    decreases p, 1
  {
    hide ParseExec, TextExec, TreeExec;
    match p
    case One(e) => ExecBack(e, tail);
    case Bar(e, more) =>
      ExecBack(e, [Sym('|')] + (TextPipe(more) + tail));
      PipeBack(more, tail);
      BarBack(e, more, tail);
  }

  /** A line of the grammar before the end or a closing parenthesis. */
  lemma {:induction false} LineBack(l: WLine, tail: seq<Tok>)
    requires FitsLine(l) && StopsLine(tail)
    ensures ParseLine(TextLine(l) + tail) == Ok(TreeLine(l), tail)
    decreases l, 2
  {
    hide ParsePipe, ParseLine, TextPipe, TreePipe;
    match l
    case Last(p, n) =>
      AmpsStart(n, tail);
      PipeBack(p, Amps(n) + tail);
      LineFrom(p, n, tail);
      assert TextLine(l) + tail == TextPipe(p) + (Amps(n) + tail);
    case Semi(p, n, more) =>
      var rest := [Sym(';')] + (TextLine(more) + tail);
      AmpsStart(n, rest);
      PipeBack(p, Amps(n) + rest);
      LineBack(more, tail);
      LineFrom(p, n, rest);
      assert rest[1..] == TextLine(more) + tail;
      assert TextLine(l) + tail == TextPipe(p) + (Amps(n) + rest);
  }

  // ---- what is parsed is a line of the grammar -------------------------------------------------------

  lemma {:induction false} RedirsRead(ts: seq<Tok>)
    ensures var r := Redirs(ts); r.Ok? ==> ts == PrintRedirs(r.value) + r.left
    decreases |ts|
  {
    if Starts(ts, {'<', '>', '+'}) && |ts| >= 2 && ts[1].Word? {
      RedirsRead(ts[2..]);
      assert ts == [ts[0], ts[1]] + ts[2..];
    }
  }

  lemma {:induction false} ArgsRead(done: seq<string>, rs: seq<Redirection>, ts: seq<Tok>) returns (args: seq<Arg>)
    requires Args(done, rs, ts).Ok? && |done| < MAXARGS
    ensures var r := Args(done, rs, ts);
            && ts == ArgToks(args) + r.left && |done| + |args| < MAXARGS
            && r.value == Wrap(Exec(done + AllWords(args)), rs + AllRedirs(args))
    decreases |ts|
  {
    hide Redirs, Wrap, PrintRedirs, Args;
    args := [];
    if StopsExec(ts) {
      assert ts == [] + ts && done + [] == done && rs + [] == rs;
      ArgsEnd(done, rs, ts);
    } else {
      ArgsNext(done, rs, ts);
      var w, more := ts[0].w, Redirs(ts[1..]);
      RedirsRead(ts[1..]);
      var tail := ArgsRead(done + [w], rs + more.value, more.left);
      args := [Arg(w, more.value)] + tail;
      assert args[1..] == tail;
      assert ts == [ts[0]] + ts[1..];
      assert done + [w] + AllWords(tail) == done + AllWords(args);
      assert rs + more.value + AllRedirs(tail) == rs + AllRedirs(args);
    }
  }

  lemma {:induction false} ExecRead(ts: seq<Tok>) returns (e: WExec)
    requires ParseExec(ts).Ok?
    ensures var r := ParseExec(ts); FitsExec(e) && ts == TextExec(e) + r.left && r.value == TreeExec(e)
    decreases |ts|, 0
  {
    hide Redirs, Wrap, PrintRedirs, Args, ParseLine;
    if Starts(ts, {'('}) {
      var inner := ParseLine(ts[1..]);
      var line := LineRead(ts[1..]);
      RedirsRead(inner.left[1..]);
      e := Block(line, Redirs(inner.left[1..]).value);
      assert ts == [ts[0]] + ts[1..] && inner.left == [inner.left[0]] + inner.left[1..];
    } else {
      var first := Redirs(ts);
      RedirsRead(ts);
      var args := ArgsRead([], first.value, first.left);
      e := Plain(first.value, args);
      assert [] + AllWords(args) == AllWords(args);
    }
  }

  lemma {:induction false} PipeRead(ts: seq<Tok>) returns (p: WPipe)
    requires ParsePipe(ts).Ok?
    ensures var r := ParsePipe(ts); FitsPipe(p) && ts == TextPipe(p) + r.left && r.value == TreePipe(p)
    decreases |ts|, 1
  {
    hide ParseExec, TextExec, TreeExec;
    var l := ParseExec(ts);
    var e := ExecRead(ts);
    if Starts(l.left, {'|'}) {
      var more := PipeRead(l.left[1..]);
      p := Bar(e, more);
      assert l.left == [l.left[0]] + l.left[1..];
    } else {
      p := One(e);
    }
  }

  lemma {:induction false} BacksRead(c: Cmd, ts: seq<Tok>) returns (n: nat)
    ensures ts == Amps(n) + Backs(c, ts).left && Backs(c, ts).value == InBack(c, n)
    decreases |ts|
  {
    n := 0;
    if Starts(ts, {'&'}) {
      n := BacksRead(Back(c), ts[1..]);
      n := n + 1;
      assert ts == [ts[0]] + ts[1..];
    }
  }

  lemma {:induction false} LineRead(ts: seq<Tok>) returns (l: WLine)
    requires ParseLine(ts).Ok?
    ensures var r := ParseLine(ts); FitsLine(l) && ts == TextLine(l) + r.left && r.value == TreeLine(l)
    decreases |ts|, 2
  {
    hide ParsePipe, TextPipe, TreePipe;
    var q := ParsePipe(ts);
    var p := PipeRead(ts);
    var b := Backs(q.value, q.left);
    var n := BacksRead(q.value, q.left);
    if Starts(b.left, {';'}) {
      var rest := LineRead(b.left[1..]);
      l := Semi(p, n, rest);
      assert b.left == [b.left[0]] + b.left[1..];
    } else {
      l := Last(p, n);
    }
  }

  // ---- the parser is the grammar --------------------------------------------------------------------

  lemma LineParses(l: WLine)
    requires FitsLine(l)
    ensures ParseCmd(TextLine(l)) == Ok(TreeLine(l), [])
  {
    hide ParseLine, TextLine, TreeLine, FitsLine;
    LineBack(l, []);
    assert TextLine(l) + [] == TextLine(l);
  }

  lemma LineIsRead(ts: seq<Tok>) returns (l: WLine)
    requires ParseCmd(ts).Ok?
    ensures FitsLine(l) && TextLine(l) == ts && ParseCmd(ts) == Ok(TreeLine(l), [])
  {
    hide ParseLine, TextLine, TreeLine, FitsLine;
    l := LineRead(ts);
    assert TextLine(l) + [] == TextLine(l);
  }

  /** The parser accepts exactly the tokens of a line of the grammar, and gives it its tree. */
  lemma ParsesExactly(ts: seq<Tok>, c: Cmd)
    ensures ParseCmd(ts) == Ok(c, []) <==> exists l :: FitsLine(l) && TextLine(l) == ts && TreeLine(l) == c
  {
    hide ParseCmd, TextLine, TreeLine, FitsLine;
    if ParseCmd(ts) == Ok(c, []) {
      var l := LineIsRead(ts);
    }
    if l :| FitsLine(l) && TextLine(l) == ts && TreeLine(l) == c {
      LineParses(l);
    }
  }

  /** No line means two things. */
  lemma NotAmbiguous(k: WLine, l: WLine)
    requires FitsLine(k) && FitsLine(l) && TextLine(k) == TextLine(l)
    ensures TreeLine(k) == TreeLine(l)
  {
    hide TextLine, TreeLine, FitsLine, ParseCmd;
    LineParses(k);
    LineParses(l);
  }

  // ---- every tree can be written -----------------------------------------------------------------------

  /** At most nine arguments in every simple command. */
  predicate WellFormed(c: Cmd) {
    match c
    case Exec(args) => |args| < MAXARGS
    case Redir(d, _, _) => WellFormed(d)
    case Pipe(l, r) => WellFormed(l) && WellFormed(r)
    case List(l, r) => WellFormed(l) && WellFormed(r)
    case Back(d) => WellFormed(d)
  }

  /** The command under all its redirections, and those redirections in order. */
  function Core(c: Cmd): (d: Cmd)
    ensures !d.Redir?
    ensures d == c || d < c
  {
    if c.Redir? then Core(c.cmd) else c
  }

  function Chain(c: Cmd): (rs: seq<Redirection>) {
    if c.Redir? then Chain(c.cmd) + [To(c.kind, c.file)] else []
  }

  /** All redirections after the last word. */
  function WriteArgs(args: seq<string>, rs: seq<Redirection>): (r: seq<Arg>)
    requires args != []
    ensures |r| == |args| && AllWords(r) == args && AllRedirs(r) == rs
  {
    if |args| == 1 then [Arg(args[0], rs)] else [Arg(args[0], [])] + WriteArgs(args[1..], rs)
  }

  /** Redirections at the end, and parentheses round what is not a simple command. */
  function WriteExec(c: Cmd): (e: WExec)
    decreases c, 0
  {
    var d := Core(c);
    match d
    case Exec(args) =>
      if args == [] then Plain(Chain(c), []) else Plain([], WriteArgs(args, Chain(c)))
    case Pipe(l, r) => Block(Last(Bar(WriteExec(l), WritePipe(r)), 0), Chain(c))
    case List(l, r) => Block(Semi(WriteBack(l).0, WriteBack(l).1, WriteLine(r)), Chain(c))
    case Back(b) => Block(Last(WriteBack(b).0, WriteBack(b).1 + 1), Chain(c))
  }

  function WritePipe(c: Cmd): (p: WPipe)
    decreases c, 1
  {
    if c.Pipe? then Bar(WriteExec(c.left), WritePipe(c.right)) else One(WriteExec(c))
  }

  function WriteBack(c: Cmd): (r: (WPipe, nat))
    decreases c, 2
  {
    if c.Back? then var b := WriteBack(c.bg); (b.0, b.1 + 1) else (WritePipe(c), 0)
  }

  function WriteLine(c: Cmd): (l: WLine)
    decreases c, 3
  {
    if c.List? then Semi(WriteBack(c.first).0, WriteBack(c.first).1, WriteLine(c.rest))
    else Last(WriteBack(c).0, WriteBack(c).1)
  }

  /** A whole command line. */
  function PrintLine(c: Cmd): (ts: seq<Tok>) {
    TextLine(WriteLine(c))
  }

  lemma {:induction false} WrapChain(c: Cmd, more: seq<Redirection>)
    ensures Wrap(Core(c), Chain(c) + more) == Wrap(c, more)
  {
    if c.Redir? {
      var r := [To(c.kind, c.file)];
      assert Chain(c) + more == Chain(c.cmd) + (r + more);
      WrapChain(c.cmd, r + more);
      assert (r + more)[1..] == more;
    } else {
      assert Chain(c) + more == more;
    }
  }

  lemma {:induction false} CoreWellFormed(c: Cmd)
    requires WellFormed(c)
    ensures WellFormed(Core(c))
  {
    if c.Redir? { CoreWellFormed(c.cmd); }
  }

  lemma {:induction false} BackOutside(c: Cmd, n: nat)
    ensures InBack(Back(c), n) == Back(InBack(c, n))
    decreases n
  {
    if n > 0 { BackOutside(Back(c), n - 1); }
  }

  lemma {:induction false} WrittenExec(c: Cmd)
    requires WellFormed(c)
    ensures FitsExec(WriteExec(c)) && TreeExec(WriteExec(c)) == c
    decreases c, 0
  {
    hide Wrap, WriteArgs;
    var d := Core(c);
    CoreWellFormed(c);
    WrapChain(c, []);
    WrapNothing(c);
    assert Chain(c) + [] == Chain(c) && [] + Chain(c) == Chain(c);
    match d
    case Exec(args) =>
    case Pipe(l, r) =>
      WrittenExec(l);
      WrittenPipe(r);
      var p := Bar(WriteExec(l), WritePipe(r));
      assert FitsPipe(p) && TreePipe(p) == d && InBack(d, 0) == d;
    case List(l, r) => WrittenBack(l); WrittenLine(r);
    case Back(b) => WrittenBack(b); BackOutside(TreePipe(WriteBack(b).0), WriteBack(b).1);
  }

  lemma WrapNothing(c: Cmd)
    ensures Wrap(c, []) == c
  {
  }

  lemma {:induction false} WrittenPipe(c: Cmd)
    requires WellFormed(c)
    ensures FitsPipe(WritePipe(c)) && TreePipe(WritePipe(c)) == c
    decreases c, 1
  {
    if c.Pipe? {
      WrittenExec(c.left);
      WrittenPipe(c.right);
    } else {
      WrittenExec(c);
    }
  }

  lemma {:induction false} WrittenBack(c: Cmd)
    requires WellFormed(c)
    ensures var b := WriteBack(c); FitsPipe(b.0) && InBack(TreePipe(b.0), b.1) == c
    decreases c, 2
  {
    if c.Back? {
      WrittenBack(c.bg);
      BackOutside(TreePipe(WriteBack(c.bg).0), WriteBack(c.bg).1);
    } else {
      WrittenPipe(c);
    }
  }

  /** A tree is written as a line that stands for it. */
  lemma {:induction false} WrittenLine(c: Cmd)
    requires WellFormed(c)
    ensures FitsLine(WriteLine(c)) && TreeLine(WriteLine(c)) == c
    decreases c, 3
  {
    if c.List? {
      WrittenBack(c.first);
      WrittenLine(c.rest);
    } else {
      WrittenBack(c);
    }
  }

  /** Every tree with at most nine arguments per command, printed with parentheses where needed,
      parses back to itself. */
  lemma PrintedParsesBack(c: Cmd)
    requires WellFormed(c)
    ensures ParseCmd(PrintLine(c)) == Ok(c, [])
  {
    hide ParseCmd, FitsLine, TextLine, TreeLine, WriteLine;
    WrittenLine(c);
    LineParses(WriteLine(c));
  }
}
