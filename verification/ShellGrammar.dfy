/** The shell's parser on tokens: what the recursive descent computes. */
module ShellGrammar {
  datatype Kind = In | Out | Append

  /** Parsed commands; parentheses leave no node. */
  datatype Cmd =
    | Exec(args: seq<string>)
    | Redir(cmd: Cmd, kind: Kind, file: string)
    | Pipe(left: Cmd, right: Cmd)
    | List(first: Cmd, rest: Cmd)
    | Back(bg: Cmd)

  /** '+' stands for ">>". */
  datatype Tok = Sym(c: char) | Word(w: string)

  datatype Result<T> = Ok(value: T, left: seq<Tok>) | Err

  const MAXARGS := 10

  predicate Starts(ts: seq<Tok>, cs: set<char>) {
    |ts| > 0 && ts[0].Sym? && ts[0].c in cs
  }

  datatype Redirection = To(kind: Kind, file: string)

  function KindOf(c: char): (k: Kind) {
    if c == '<' then In else if c == '>' then Out else Append
  }

  /** parseredirs */
  function Redirs(ts: seq<Tok>): (r: Result<seq<Redirection>>)
    ensures r.Ok? ==> |r.left| <= |ts| && !Starts(r.left, {'<', '>', '+'})
  {
    if !Starts(ts, {'<', '>', '+'}) then Ok([], ts)
    else if |ts| < 2 || !ts[1].Word? then Err
    else
      var more := Redirs(ts[2..]);
      if more.Err? then Err else Ok([To(KindOf(ts[0].c), ts[1].w)] + more.value, more.left)
  }

  /** A command with redirections applied in the order they were read. */
  function Wrap(c: Cmd, rs: seq<Redirection>): (r: Cmd)
    decreases |rs|
  {
    if rs == [] then c else Wrap(Redir(c, rs[0].kind, rs[0].file), rs[1..])
  }

  /** The loop of parseexec, with the arguments and redirections read so far. */
  function Args(args: seq<string>, rs: seq<Redirection>, ts: seq<Tok>): (r: Result<Cmd>)
    ensures r.Ok? ==> |r.left| <= |ts|
    decreases |ts|
  {
    if ts == [] || Starts(ts, {'|', ')', '&', ';'}) then Ok(Wrap(Exec(args), rs), ts)
    else if !ts[0].Word? || |args| + 1 >= MAXARGS then Err
    else
      var more := Redirs(ts[1..]);
      if more.Err? then Err else Args(args + [ts[0].w], rs + more.value, more.left)
  }

  /** parseexec, with parseblock */
  function ParseExec(ts: seq<Tok>): (r: Result<Cmd>)
    ensures r.Ok? ==> |r.left| <= |ts|
    decreases |ts|, 0
  {
    if Starts(ts, {'('}) then
      var inner := ParseLine(ts[1..]);
      if inner.Err? || !Starts(inner.left, {')'}) then Err
      else
        var rs := Redirs(inner.left[1..]);
        if rs.Err? then Err else Ok(Wrap(inner.value, rs.value), rs.left)
    else
      var rs := Redirs(ts);
      if rs.Err? then Err else Args([], rs.value, rs.left)
  }

  /** parsepipe */
  function ParsePipe(ts: seq<Tok>): (r: Result<Cmd>)
    ensures r.Ok? ==> |r.left| <= |ts|
    decreases |ts|, 1
  {
    var l := ParseExec(ts);
    if l.Err? || !Starts(l.left, {'|'}) then l
    else
      var r := ParsePipe(l.left[1..]);
      if r.Err? then Err else Ok(Pipe(l.value, r.value), r.left)
  }

  /** The loop of parseline over '&'. */
  function Backs(c: Cmd, ts: seq<Tok>): (r: Result<Cmd>)
    ensures r.Ok? && |r.left| <= |ts| && !Starts(r.left, {'&'})
    decreases |ts|
  {
    if Starts(ts, {'&'}) then Backs(Back(c), ts[1..]) else Ok(c, ts)
  }

  /** parseline */
  function ParseLine(ts: seq<Tok>): (r: Result<Cmd>)
    ensures r.Ok? ==> |r.left| <= |ts|
    decreases |ts|, 2
  {
    var p := ParsePipe(ts);
    if p.Err? then Err
    else
      var b := Backs(p.value, p.left);
      if !Starts(b.left, {';'}) then b
      else
        var r := ParseLine(b.left[1..]);
        if r.Err? then Err else Ok(List(b.value, r.value), r.left)
  }

  /** parsecmd: the whole line. */
  function ParseCmd(ts: seq<Tok>): (r: Result<Cmd>) {
    var r := ParseLine(ts);
    if r.Err? || r.left != [] then Err else r
  }
}
