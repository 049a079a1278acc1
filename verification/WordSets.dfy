/** Which prompts have the same content words: case, punctuation, order, repetition and stopwords do not
    matter, and nothing else is lost but what follows the 31st character of a word. */
module WordSets {
  import opened Blocks
  import opened MinHash

  predicate LetterOrDigit(c: Byte) {
    48 <= c <= 57 || 65 <= c <= 90 || 97 <= c <= 122
  }

  /** The same character but for case. */
  predicate SameLetter(c: Byte, d: Byte) {
    c == d || (65 <= c <= 90 && d == c + 32) || (65 <= d <= 90 && c == d + 32)
  }

  predicate Alike(c: Byte, d: Byte) {
    SameLetter(c, d) || (!LetterOrDigit(c) && !LetterOrDigit(d))
  }

  /** The same text but for case and for what stands between words. */
  ghost predicate SameText(p: seq<Byte>, q: seq<Byte>) {
    |p| == |q| && forall i :: 0 <= i < |p| ==> Alike(p[i], q[i])
  }

  lemma AlnumIs(c: Byte, d: Byte)
    requires Alike(c, d)
    ensures (Alnum(c) <==> LetterOrDigit(c)) && (Alnum(c) <==> Alnum(d)) && (Alnum(c) ==> Lower(c) == Lower(d))
  {
  }

  lemma SameRuns(p: seq<Byte>, q: seq<Byte>, i: nat, j: nat)
    requires SameText(p, q) && IsRun(p, i, j)
    ensures IsRun(q, i, j) && Norm(p[i..j]) == Norm(q[i..j])
  {
    hide Alnum, Lower, Alike;
    forall k | 0 <= k < |p|
      ensures (Alnum(p[k]) <==> Alnum(q[k])) && (Alnum(p[k]) ==> Lower(p[k]) == Lower(q[k]))
    {
      AlnumIs(p[k], q[k]);
    }
  }

  lemma FewerWords(p: seq<Byte>, q: seq<Byte>)
    requires SameText(p, q)
    ensures ContentWords(p) <= ContentWords(q)
  {
    hide Norm, IsRun, SameText;
    forall w | w in ContentWords(p) ensures w in ContentWords(q) {
      var i, j := FindRun(p, w);
      SameRuns(p, q, i, j);
      WordAt(q, i, j);
    }
  }

  lemma FindRun(p: seq<Byte>, w: Word) returns (i: nat, j: nat)
    requires w in ContentWords(p)
    ensures i < j <= |p| && IsRun(p, i, j) && Norm(p[i..j]) !in STOPWORDS && w == Norm(p[i..j])
  {
    hide Norm;
    i, j :| i < |p| && 0 < j <= |p| && IsRun(p, i, j) && Norm(p[i..j]) !in STOPWORDS && w == Norm(p[i..j]);
  }

  lemma WordAt(p: seq<Byte>, i: nat, j: nat)
    requires IsRun(p, i, j) && Norm(p[i..j]) !in STOPWORDS
    ensures Norm(p[i..j]) in ContentWords(p)
  {
    hide Norm;
  }

  /** Case and separators do not matter. */
  lemma SameTextSameWords(p: seq<Byte>, q: seq<Byte>)
    requires SameText(p, q)
    ensures ContentWords(p) == ContentWords(q)
  {
    hide ContentWords, SameText;
    FewerWords(p, q);
    assert SameText(q, p) by { Turned(p, q); }
    FewerWords(q, p);
  }

  lemma Turned(p: seq<Byte>, q: seq<Byte>)
    requires SameText(p, q)
    ensures SameText(q, p)
  {
  }

  // ---- texts side by side -------------------------------------------------------------------------

  lemma LeftRun(p: seq<Byte>, s: Byte, q: seq<Byte>, i: nat, j: nat)
    requires !Alnum(s) && j <= |p|
    ensures IsRun(p, i, j) <==> IsRun(p + [s] + q, i, j)
  {
    hide Alnum;
    var t := p + [s] + q;
    assert forall k :: 0 <= k < |p| ==> t[k] == p[k];
    assert t[|p|] == s;
  }

  lemma RightRun(p: seq<Byte>, s: Byte, q: seq<Byte>, i: nat, j: nat)
    requires !Alnum(s) && i <= j <= |q|
    ensures IsRun(q, i, j) <==> IsRun(p + [s] + q, |p| + 1 + i, |p| + 1 + j)
  {
    hide Alnum;
    var t, n := p + [s] + q, |p| + 1;
    assert forall k :: n <= k < |t| ==> t[k] == q[k - n];
    assert forall k :: 0 <= k < |q| ==> q[k] == t[n + k];
    assert t[|p|] == s;
  }

  lemma RunsApart(p: seq<Byte>, s: Byte, q: seq<Byte>, i: nat, j: nat)
    requires !Alnum(s) && IsRun(p + [s] + q, i, j)
    ensures j <= |p| || i > |p|
  {
    hide Alnum;
    assert (p + [s] + q)[|p|] == s;
  }

  lemma JoinHasAll(p: seq<Byte>, s: Byte, q: seq<Byte>)
    requires !Alnum(s)
    ensures ContentWords(p) + ContentWords(q) <= ContentWords(p + [s] + q)
  {
    hide Norm, IsRun, Alnum;
    var t, n := p + [s] + q, |p| + 1;
    forall w | w in ContentWords(p) ensures w in ContentWords(t) {
      var i, j := FindRun(p, w);
      LeftRun(p, s, q, i, j);
      assert t[i..j] == p[i..j];
      WordAt(t, i, j);
    }
    forall w | w in ContentWords(q) ensures w in ContentWords(t) {
      var i, j := FindRun(q, w);
      RightRun(p, s, q, i, j);
      assert t[n + i..n + j] == q[i..j];
      WordAt(t, n + i, n + j);
    }
  }

  lemma JoinHasNoOther(p: seq<Byte>, s: Byte, q: seq<Byte>)
    requires !Alnum(s)
    ensures ContentWords(p + [s] + q) <= ContentWords(p) + ContentWords(q)
  {
    hide Norm, IsRun, Alnum;
    var t, n := p + [s] + q, |p| + 1;
    forall w | w in ContentWords(t) ensures w in ContentWords(p) + ContentWords(q) {
      var i, j := FindRun(t, w);
      RunsApart(p, s, q, i, j);
      if j <= |p| {
        LeftRun(p, s, q, i, j);
        assert t[i..j] == p[i..j];
        WordAt(p, i, j);
      } else {
        RightRun(p, s, q, i - n, j - n);
        assert t[i..j] == q[i - n..j - n];
        WordAt(q, i - n, j - n);
      }
    }
  }

  /** Two texts with a separator between them have the words of both: neither order nor repetition matters. */
  lemma JoinedWords(p: seq<Byte>, s: Byte, q: seq<Byte>)
    requires !LetterOrDigit(s)
    ensures ContentWords(p + [s] + q) == ContentWords(p) + ContentWords(q)
  {
    hide ContentWords, Alnum;
    AlnumIs(s, s);
    JoinHasAll(p, s, q);
    JoinHasNoOther(p, s, q);
  }

  // ---- single words -----------------------------------------------------------------------------------

  /** A word of lower-case letters and digits. */
  ghost predicate PlainWord(w: Word) {
    w != [] && forall i :: 0 <= i < |w| ==> 48 <= w[i] <= 57 || 97 <= w[i] <= 122
  }

  function CutWord(w: Word): (r: Word) {
    if |w| <= WORD_MAX then w else w[..WORD_MAX]
  }

  lemma PlainNorm(w: Word)
    requires PlainWord(w)
    ensures Norm(w) == CutWord(w) && IsRun(w, 0, |w|)
  {
  }

  /** The words of a list but for the stopwords, each cut to 31 characters. */
  ghost function Kept(ws: seq<Word>): (r: set<Word>) {
    set k | 0 <= k < |ws| && CutWord(ws[k]) !in STOPWORDS :: CutWord(ws[k])
  }

  lemma OneWord(w: Word)
    requires PlainWord(w)
    ensures ContentWords(w) == Kept([w])
  {
    hide Norm, IsRun;
    PlainNorm(w);
    assert w[0..|w|] == w;
    if CutWord(w) !in STOPWORDS {
      WordAt(w, 0, |w|);
      assert [w][0] == w;
    }
    forall x | x in ContentWords(w) ensures x == CutWord(w) && CutWord(w) !in STOPWORDS {
      var i, j := FindRun(w, x);
      WholeRun(w, i, j);
    }
  }

  lemma WholeRun(w: Word, i: nat, j: nat)
    requires PlainWord(w) && IsRun(w, i, j)
    ensures i == 0 && j == |w|
  {
    assert i > 0 ==> Alnum(w[i - 1]);
    assert j < |w| ==> Alnum(w[j]);
  }

  const BLANK: Byte := 32

  /** The words with blanks between them. */
  function Sentence(ws: seq<Word>): (p: seq<Byte>) {
    if |ws| == 0 then [] else if |ws| == 1 then ws[0] else ws[0] + [BLANK] + Sentence(ws[1..])
  }

  /** The content words of a sentence are its words but the stopwords. */
  lemma {:induction false} SentenceWords(ws: seq<Word>)
    requires forall k :: 0 <= k < |ws| ==> PlainWord(ws[k])
    ensures ContentWords(Sentence(ws)) == Kept(ws)
  {
    hide ContentWords, PlainWord, CutWord;
    if |ws| == 0 {
      NoWords();
    } else {
      OneWord(ws[0]);
      KeptMore(ws);
      if |ws| == 1 {
        assert ws == [ws[0]];
      } else {
        SentenceWords(ws[1..]);
        JoinedWords(ws[0], BLANK, Sentence(ws[1..]));
      }
    }
  }

  lemma NoWords()
    ensures ContentWords([]) == {}
  {
  }

  lemma KeptMore(ws: seq<Word>)
    requires |ws| > 0
    ensures Kept(ws) == Kept([ws[0]]) + Kept(ws[1..])
  {
    hide CutWord;
    assert [ws[0]][0] == ws[0];
    forall k | 0 < k < |ws| ensures ws[1..][k - 1] == ws[k] {
    }
  }
}
