/** Command lines as characters: the lexer reads exactly the tokens that a line spells, whatever blanks stand
    between them, and the parser accepts exactly the lines that spell a line of the grammar. */
module ShellText {
  import opened ShellGrammar
  import opened ShellSyntax
  import P = ShellParser

  /** A word the lexer keeps whole. */
  predicate GoodWord(w: string) {
    w != "" && forall i :: 0 <= i < |w| ==> P.WordChar(w[i])
  }

  predicate GoodTok(k: Tok) {
    match k
    case Sym(c) => P.Symbol(c) || c == '+'
    case Word(w) => GoodWord(w)
  }

  ghost predicate GoodToks(ts: seq<Tok>) {
    forall i :: 0 <= i < |ts| ==> GoodTok(ts[i])
  }

  /** How a token is spelt. */
  function Spelt(k: Tok): (t: string) {
    match k
    case Sym(c) => if c == '+' then ">>" else [c]
    case Word(w) => w
  }

  predicate Blank(t: string) {
    forall i :: 0 <= i < |t| ==> P.Space(t[i])
  }

  /** Tokens that would be read as others if no blank stood between them. */
  predicate NeedsGap(a: Tok, b: Tok) {
    (a.Word? && b.Word?) || (a == Sym('>') && (b == Sym('>') || b == Sym('+')))
  }

  /** Blanks before, between and after the tokens, at least one where it is needed. */
  ghost predicate GapsOk(ts: seq<Tok>, gaps: seq<string>) {
    && |gaps| == |ts| + 1 && (forall i :: 0 <= i < |gaps| ==> Blank(gaps[i]))
    && forall i :: 0 < i < |ts| && NeedsGap(ts[i - 1], ts[i]) ==> gaps[i] != ""
  }

  function Spaced(ts: seq<Tok>, gaps: seq<string>): (t: string)
    requires |gaps| == |ts| + 1
  {
    if ts == [] then gaps[0] else gaps[0] + (Spelt(ts[0]) + Spaced(ts[1..], gaps[1..]))
  }

  lemma {:induction false} LexBlank(gap: string, t: string)
    requires Blank(gap)
    ensures P.Lex(gap + t) == P.Lex(t)
  {
    if gap == "" {
      assert gap + t == t;
    } else {
      assert (gap + t)[1..] == gap[1..] + t;
      LexBlank(gap[1..], t);
    }
  }

  /** The token is read whole if what follows cannot be part of it. */
  lemma LexOne(k: Tok, rest: string)
    requires GoodTok(k) && (k.Word? && rest != "" ==> !P.WordChar(rest[0]))
    requires k == Sym('>') && rest != "" ==> rest[0] != '>'
    ensures P.Lex(Spelt(k) + rest) == [k] + P.Lex(rest)
  {
    var t := Spelt(k) + rest;
    assert t[0..] == t;
    match k
    case Sym(c) =>
      P.LexSymbol(t, 0);
      if c == '+' { assert t[2..] == rest; } else { assert t[1..] == rest; }
    case Word(w) =>
      assert forall i :: 0 <= i < |w| ==> t[i] == w[i];
      P.LexWord(t, 0, |w|);
      assert t[0..|w|] == w && t[|w|..] == rest;
  }

  /** What the rest of a line begins with. */
  lemma RestBegins(ts: seq<Tok>, gaps: seq<string>)
    requires GoodToks(ts) && GapsOk(ts, gaps)
    ensures var t := Spaced(ts, gaps);
            t != "" ==> P.Space(t[0]) || (ts != [] && gaps[0] == "" && Spelt(ts[0]) != "" && t[0] == Spelt(ts[0])[0])
  {
    if ts != [] {
      assert GoodTok(ts[0]);
    }
    assert Blank(gaps[0]);
  }

  /** The lexer reads the tokens that are spelt. */
  lemma {:induction false} LexSpaced(ts: seq<Tok>, gaps: seq<string>)
    requires GoodToks(ts) && GapsOk(ts, gaps)
    ensures P.Lex(Spaced(ts, gaps)) == ts
  {
    hide P.Lex, Blank, GoodTok, Spelt;
    assert Blank(gaps[0]);
    if ts == [] {
      LexBlank(gaps[0], "");
      assert gaps[0] + "" == gaps[0];
      NoTokens();
    } else {
      var k, rest := ts[0], Spaced(ts[1..], gaps[1..]);
      LexSpaced(ts[1..], gaps[1..]);
      RestBegins(ts[1..], gaps[1..]);
      assert ts[1..] != [] ==> ts[1..][0] == ts[1] && gaps[1..][0] == gaps[1] && GoodTok(ts[1]);
      assert GoodTok(k);
      Follows(k, ts[1..], gaps[1..]);
      LexBlank(gaps[0], Spelt(k) + rest);
      LexOne(k, rest);
    }
  }

  lemma NoTokens()
    ensures P.Lex("") == []
  {
  }

  /** What comes after a token is no part of it. */
  lemma Follows(k: Tok, ts: seq<Tok>, gaps: seq<string>)
    requires GoodTok(k) && GoodToks(ts) && GapsOk(ts, gaps) && (ts != [] && NeedsGap(k, ts[0]) ==> gaps[0] != "")
    ensures var rest := Spaced(ts, gaps);
            rest != "" ==> (k.Word? ==> !P.WordChar(rest[0])) && (k == Sym('>') ==> rest[0] != '>')
  {
    RestBegins(ts, gaps);
    if ts != [] {
      assert GoodTok(ts[0]);
    }
  }

  /** Every text is spelt by the tokens that the lexer reads. */
  lemma {:induction false} Spells(t: string) returns (gaps: seq<string>)
    ensures GoodToks(P.Lex(t)) && GapsOk(P.Lex(t), gaps) && Spaced(P.Lex(t), gaps) == t
    decreases |t|
  {
    hide P.Lex, P.Space, GoodTok, Spelt;
    if t == "" {
      gaps := [""];
      NoTokens();
    } else if P.Space(t[0]) {
      var more := Spells(t[1..]);
      gaps := more[0 := [t[0]] + more[0]];
      LexAtSpace(t);
      MoreBlank(P.Lex(t), more, t[0]);
      assert t == [t[0]] + t[1..];
    } else {
      var k, n := FirstTok(t);
      var more := Spells(t[n..]);
      gaps := [""] + more;
      assert t == t[..n] + t[n..];
      OneMoreTok(k, P.Lex(t[n..]), more);
    }
  }

  lemma LexAtSpace(t: string)
    requires t != "" && P.Space(t[0])
    ensures P.Lex(t) == P.Lex(t[1..])
  {
  }

  /** The first token of a text that does not begin with a blank, and what may follow it. */
  lemma FirstTok(t: string) returns (k: Tok, n: nat)
    requires t != "" && !P.Space(t[0])
    ensures 0 < n <= |t| && GoodTok(k) && Spelt(k) == t[..n] && P.Lex(t) == [k] + P.Lex(t[n..])
    ensures n < |t| ==> (k.Word? ==> !P.WordChar(t[n])) && (k == Sym('>') ==> t[n] != '>')
  {
    hide P.WordLen;
    k := P.Lex(t)[0];
    n := if t[0] == '>' && |t| > 1 && t[1] == '>' then 2 else if P.Symbol(t[0]) then 1 else P.WordLen(t);
  }

  lemma MoreBlank(ts: seq<Tok>, gaps: seq<string>, c: char)
    requires GapsOk(ts, gaps) && P.Space(c)
    ensures var g := gaps[0 := [c] + gaps[0]]; GapsOk(ts, g) && Spaced(ts, g) == [c] + Spaced(ts, gaps)
  {
    var g := gaps[0 := [c] + gaps[0]];
    assert Blank(gaps[0]);
    assert g[1..] == gaps[1..];
    if ts != [] {
      assert [c] + gaps[0] + (Spelt(ts[0]) + Spaced(ts[1..], gaps[1..]))
             == [c] + (gaps[0] + (Spelt(ts[0]) + Spaced(ts[1..], gaps[1..])));
    }
  }

  lemma GapKept(k: Tok, ts: seq<Tok>, gaps: seq<string>)
    requires GoodTok(k) && GoodToks(ts) && GapsOk(ts, gaps)
    requires var rest := Spaced(ts, gaps);
             rest != "" ==> (k.Word? ==> !P.WordChar(rest[0])) && (k == Sym('>') ==> rest[0] != '>')
    ensures ts != [] && NeedsGap(k, ts[0]) ==> gaps[0] != ""
  {
    if ts != [] {
      assert GoodTok(ts[0]);
      assert gaps[0] == "" ==> Spaced(ts, gaps) == Spelt(ts[0]) + Spaced(ts[1..], gaps[1..]);
    }
  }

  lemma OneMoreTok(k: Tok, ts: seq<Tok>, gaps: seq<string>)
    requires GoodTok(k) && GoodToks(ts) && GapsOk(ts, gaps)
    requires var rest := Spaced(ts, gaps);
             rest != "" ==> (k.Word? ==> !P.WordChar(rest[0])) && (k == Sym('>') ==> rest[0] != '>')
    ensures GoodToks([k] + ts) && GapsOk([k] + ts, [""] + gaps)
    ensures Spaced([k] + ts, [""] + gaps) == Spelt(k) + Spaced(ts, gaps)
  {
    var all, g := [k] + ts, [""] + gaps;
    assert all[1..] == ts && g[1..] == gaps;
    GapKept(k, ts, gaps);
    forall i | 0 < i < |all| && NeedsGap(all[i - 1], all[i]) ensures g[i] != "" {
      assert i > 1 ==> NeedsGap(ts[i - 2], ts[i - 1]);
    }
  }

  /** The parser accepts exactly the texts that spell a line of the grammar, in words the lexer keeps whole and
      with any blanks, and gives each the tree of that line. */
  lemma LinesExactly(t: string, c: Cmd)
    ensures ParseCmd(P.Lex(t)) == Ok(c, []) <==>
            exists l, gaps :: && FitsLine(l) && TreeLine(l) == c && GoodToks(TextLine(l)) && GapsOk(TextLine(l), gaps)
                              && Spaced(TextLine(l), gaps) == t
  {
    hide P.Lex, ParseCmd, FitsLine, TreeLine, TextLine, Spaced;
    if ParseCmd(P.Lex(t)) == Ok(c, []) {
      var gaps := Spells(t);
      var l := LineIsRead(P.Lex(t));
      assert GapsOk(TextLine(l), gaps) && Spaced(TextLine(l), gaps) == t;
    }
    if l, gaps :| && FitsLine(l) && TreeLine(l) == c && GoodToks(TextLine(l)) && GapsOk(TextLine(l), gaps)
                  && Spaced(TextLine(l), gaps) == t {
      LexSpaced(TextLine(l), gaps);
      LineParses(l);
    }
  }
}
