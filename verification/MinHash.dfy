/** MinHash signatures of prompts. Arithmetic is modulo 2^64. */
module MinHash {
  import opened Blocks

  /** A C string without its NUL. */
  type Text = t: seq<Byte> | forall i :: 0 <= i < |t| ==> t[i] != 0
  type Word = seq<Byte>

  const SIG_K := 16
  const WORD_MAX := 31
  const WRAP := 0x1_0000_0000_0000_0000
  const BASIS: U64 := 1469598103934665603
  const PRIME: U64 := 1099511628211
  const TOP: U64 := 0xffff_ffff_ffff_ffff

  type U64 = x: int | 0 <= x < 0x1_0000_0000_0000_0000

  // ---- words -----------------------------------------------------------------------

  function Lower(c: Byte): (d: Byte) {
    if 65 <= c <= 90 then c + 32 else c
  }

  predicate Alnum(c: Byte) {
    97 <= Lower(c) <= 122 || 48 <= Lower(c) <= 57
  }

  function LowerAll(s: seq<Byte>): (r: seq<Byte>)
    ensures |r| == |s| && forall i :: 0 <= i < |s| ==> r[i] == Lower(s[i])
  {
    seq(|s|, i requires 0 <= i < |s| => Lower(s[i]))
  }

  /** What a run of letters and digits counts as: lower case, cut to 31 characters. */
  function Norm(s: seq<Byte>): (w: Word) {
    LowerAll(if |s| <= WORD_MAX then s else s[..WORD_MAX])
  }

  /** p[i..j] is a longest run of letters and digits. */
  predicate IsRun(p: seq<Byte>, i: nat, j: nat) {
    && i < j <= |p| && (forall k :: i <= k < j ==> Alnum(p[k]))
    && (i > 0 ==> !Alnum(p[i - 1])) && (j < |p| ==> !Alnum(p[j]))
  }

  /** The stopwords, as ASCII: the, a, an, please, to, of, and, is, are, in, on, at, for, with, this,
      that, it, be, can, you, me. */
  const STOPWORDS: seq<Word> := [
    [116, 104, 101], [97], [97, 110], [112, 108, 101, 97, 115, 101], [116, 111], [111, 102], [97, 110, 100],
    [105, 115], [97, 114, 101], [105, 110], [111, 110], [97, 116], [102, 111, 114], [119, 105, 116, 104],
    [116, 104, 105, 115], [116, 104, 97, 116], [105, 116], [98, 101], [99, 97, 110], [121, 111, 117], [109, 101]
  ]

  /** The content words of the runs that end before position q. */
  ghost function WordsBefore(p: seq<Byte>, q: nat): (r: set<Word>) {
    set i, j | 0 <= i < |p| && 0 < j <= |p| && IsRun(p, i, j) && j < q && Norm(p[i..j]) !in STOPWORDS :: Norm(p[i..j])
  }

  /** The set of content words of a prompt. */
  ghost function ContentWords(p: seq<Byte>): (r: set<Word>) {
    WordsBefore(p, |p| + 1)
  }

  // ---- hashing ------------------------------------------------------------------------

  function Pow2(n: nat): (r: nat)
    ensures r > 0
  {
    if n == 0 then 1 else 2 * Pow2(n - 1)
  }

  /** Exclusive or of n bits. */
  function XorBits(a: nat, b: nat, n: nat): (r: nat)
    requires a < Pow2(n) && b < Pow2(n)
    ensures r < Pow2(n)
  {
    if n == 0 then 0 else 2 * XorBits(a / 2, b / 2, n - 1) + (a + b) % 2
  }

  function XorByte(a: Byte, b: Byte): (r: Byte) {
    assert Pow2(8) == 256;
    XorBits(a, b, 8)
  }

  /** Exclusive or with a byte changes the low eight bits only. */
  function Xor(h: U64, c: Byte): (r: U64) {
    h - h % 256 + XorByte(h % 256, c)
  }

  function Mul(h: U64, m: U64): (r: U64) {
    (h * m) % WRAP
  }

  function Hash(w: Word, h: U64, m: U64): (r: U64) {
    if |w| == 0 then h else Mul(Xor(Hash(w[..|w| - 1], h, m), w[|w| - 1]), m)
  }

  /** The k-th hash function of a word: two base hashes combined, the second made odd. */
  function HashK(w: Word, k: nat): (r: U64)
    requires k < SIG_K
  {
    Combine(Hash(w, BASIS, PRIME), Hash(w, PRIME, BASIS), k)
  }

  function Combine(h1: U64, h2: U64, k: nat): (r: U64) {
    (h1 + k * (if h2 % 2 == 0 then h2 + 1 else h2)) % WRAP
  }

  /** Position k of the signature of a set of words: the least of their k-th hashes. */
  ghost predicate IsLeast(x: U64, ws: set<Word>, k: nat)
    requires k < SIG_K
  {
    (forall w :: w in ws ==> x <= HashK(w, k)) && (x == TOP || exists w :: w in ws && x == HashK(w, k))
  }

  ghost predicate IsSignature(sig: seq<U64>, ws: set<Word>) {
    |sig| == SIG_K && forall k :: 0 <= k < SIG_K ==> IsLeast(sig[k], ws, k)
  }

  lemma LeastIsUnique(x: U64, y: U64, ws: set<Word>, k: nat)
    requires k < SIG_K && IsLeast(x, ws, k) && IsLeast(y, ws, k)
    ensures x == y
  {
    hide HashK, Hash;
  }

  /** A set of words has one signature. */
  lemma SignatureIsUnique(a: seq<U64>, b: seq<U64>, ws: set<Word>)
    requires IsSignature(a, ws) && IsSignature(b, ws)
    ensures a == b
  {
    hide HashK, Hash, IsLeast;
    forall k | 0 <= k < SIG_K ensures a[k] == b[k] { LeastIsUnique(a[k], b[k], ws, k); }
  }

  /** Prompts with the same content words, in whatever order, number, case and punctuation, have the same signature. */
  lemma SameWordsSameSignature(p: seq<Byte>, a: seq<U64>, q: seq<Byte>, b: seq<U64>)
    requires IsSignature(a, ContentWords(p)) && IsSignature(b, ContentWords(q)) && ContentWords(p) == ContentWords(q)
    ensures a == b
  {
    SignatureIsUnique(a, b, ContentWords(p));
  }

  // ---- the code ---------------------------------------------------------------------------

  /** is_stopword */
  method IsStopword(w: Word) returns (yes: bool)
    ensures yes <==> w in STOPWORDS
  {
    var i := 0;
    while i < |STOPWORDS|
      invariant 0 <= i <= |STOPWORDS| && forall n :: 0 <= n < i ==> STOPWORDS[n] != w
    {
      var s := STOPWORDS[i];
      var j := 0;
      while j < |s| && j < |w| && s[j] == w[j]
        invariant 0 <= j <= |s| && j <= |w| && forall n :: 0 <= n < j ==> s[n] == w[n]
      {
        j := j + 1;
      }
      if j == |s| && j == |w| {
        assert s == w;
        assert STOPWORDS[i] in STOPWORDS;
        return true;
      }
      i := i + 1;
    }
    yes := false;
  }

  /** sig_fold_word: every position keeps the least hash seen. */
  method FoldWord(sig: array<U64>, word: Word, ghost ws: set<Word>)
    requires sig.Length == SIG_K && IsSignature(sig[..], ws)
    modifies sig
    ensures IsSignature(sig[..], ws + {word})
  {
    hide HashK, Hash, IsSignature, IsLeast;
    var h1, h2 := BASIS, PRIME;
    var i := 0;
    HashStart(word, BASIS, PRIME);
    HashStart(word, PRIME, BASIS);
    ghost var was := sig[..];
    while i < |word|
      invariant sig[..] == was
      invariant 0 <= i <= |word| && h1 == Hash(word[..i], BASIS, PRIME) && h2 == Hash(word[..i], PRIME, BASIS)
    {
      HashNext(word, i, BASIS, PRIME);
      HashNext(word, i, PRIME, BASIS);
      h1 := Mul(Xor(h1, word[i]), PRIME);
      h2 := Mul(Xor(h2, word[i]), BASIS);
      i := i + 1;
    }
    assert word[..i] == word;
    Positions(sig[..], ws);
    var k := 0;
    while k < SIG_K
      invariant 0 <= k <= SIG_K
      invariant forall n :: 0 <= n < k ==> IsLeast(sig[n], ws + {word}, n)
      invariant forall n :: k <= n < SIG_K ==> IsLeast(sig[n], ws, n)
    {
      var hk := Combine(h1, h2, k);
      HashIs(word, k);
      LeastWith(sig[k], ws, word, k);
      if hk < sig[k] {
        sig[k] := hk;
      }
      k := k + 1;
    }
    FromPositions(sig[..], ws + {word});
  }

  lemma HashStart(w: Word, h: U64, m: U64)
    ensures Hash(w[..0], h, m) == h
  {
  }

  lemma HashNext(w: Word, i: nat, h: U64, m: U64)
    requires i < |w|
    ensures Hash(w[..i + 1], h, m) == Mul(Xor(Hash(w[..i], h, m), w[i]), m)
  {
    hide Mul, Xor;
    assert w[..i + 1][..i] == w[..i];
  }

  lemma HashIs(w: Word, k: nat)
    requires k < SIG_K
    ensures HashK(w, k) == Combine(Hash(w, BASIS, PRIME), Hash(w, PRIME, BASIS), k)
  {
    hide Combine, Hash;
  }

  lemma LeastWith(x: U64, ws: set<Word>, w: Word, k: nat)
    requires k < SIG_K && IsLeast(x, ws, k)
    ensures IsLeast(if HashK(w, k) < x then HashK(w, k) else x, ws + {w}, k)
  {
    hide HashK;
    if HashK(w, k) < x {
      assert w in ws + {w};
    } else if x != TOP {
      var u :| u in ws && x == HashK(u, k);
      assert u in ws + {w};
    }
  }

  lemma Positions(sig: seq<U64>, ws: set<Word>)
    requires IsSignature(sig, ws)
    ensures |sig| == SIG_K && forall k :: 0 <= k < SIG_K ==> IsLeast(sig[k], ws, k)
  {
  }

  lemma FromPositions(sig: seq<U64>, ws: set<Word>)
    requires |sig| == SIG_K && forall k :: 0 <= k < SIG_K ==> IsLeast(sig[k], ws, k)
    ensures IsSignature(sig, ws)
  {
  }

  lemma NoWords(sig: seq<U64>)
    requires |sig| == SIG_K && forall k :: 0 <= k < SIG_K ==> sig[k] == TOP
    ensures IsSignature(sig, {})
  {
  }

  // ---- which runs end where -----------------------------------------------------------------

  lemma NoRunEndsHere(p: seq<Byte>, q: nat)
    requires q <= |p| && ((q < |p| && Alnum(p[q])) || q == 0 || !Alnum(p[q - 1]))
    ensures WordsBefore(p, q + 1) == WordsBefore(p, q)
  {
    forall i, j | 0 <= i < |p| && 0 < j <= |p| && IsRun(p, i, j) && j < q + 1 ensures j < q {
      var last := j - 1;
      assert Alnum(p[last]);
    }
  }

  lemma RunEndsHere(p: seq<Byte>, st: nat, q: nat)
    requires IsRun(p, st, q)
    ensures WordsBefore(p, q + 1) == WordsBefore(p, q) + (if Norm(p[st..q]) in STOPWORDS then {} else {Norm(p[st..q])})
  {
    hide Norm;
    forall i, j | 0 <= i < |p| && 0 < j <= |p| && IsRun(p, i, j) && j < q + 1 ensures j < q || i == st {
      var before := if i < st then st - 1 else if st < i then i - 1 else i;
      assert j == q ==> Alnum(p[before]);
    }
    var w := Norm(p[st..q]);
    assert w !in STOPWORDS ==> w in WordsBefore(p, q + 1);
  }

  lemma NormNext(s: seq<Byte>, c: Byte)
    ensures Norm(s + [c]) == if |Norm(s)| < WORD_MAX then Norm(s) + [Lower(c)] else Norm(s)
  {
  }

  /** cache_sig: the signature of the prompt's set of content words. */
  method CacheSig(p: Text) returns (sig: array<U64>)
    ensures fresh(sig) && sig.Length == SIG_K && IsSignature(sig[..], ContentWords(p))
  {
    hide IsSignature, WordsBefore, Norm;
    sig := new U64[SIG_K](_ => TOP);
    NoWords(sig[..]);
    NoWordsYet(p);
    var word: Word := [];
    var q := 0;
    ghost var st := 0;
    NormEmpty();
    while q <= |p|
      invariant 0 <= q <= |p| + 1 && fresh(sig) && sig.Length == SIG_K
      invariant IsSignature(sig[..], WordsBefore(p, q))
      invariant q <= |p| ==> 0 <= st <= q && (forall k :: st <= k < q ==> Alnum(p[k]))
                             && (st > 0 ==> !Alnum(p[st - 1])) && word == Norm(p[st..q])
      invariant q <= |p| && st == q ==> word == []
    {
      if q < |p| && Alnum(p[q]) {
        NoRunEndsHere(p, q);
        assert p[st..q + 1] == p[st..q] + [p[q]];
        NormNext(p[st..q], p[q]);
        if |word| < WORD_MAX {
          word := word + [Lower(p[q])];
        }
      } else {
        NormSize(p[st..q]);
        if |word| > 0 {
          RunEndsHere(p, st, q);
          var stop := IsStopword(word);
          if !stop {
            FoldWord(sig, word, WordsBefore(p, q));
          } else {
            assert WordsBefore(p, q) + {} == WordsBefore(p, q);
          }
          word := [];
        } else {
          NoRunEndsHere(p, q);
        }
        st := q + 1;
        if q < |p| { assert p[st..q + 1] == []; }
      }
      q := q + 1;
    }
  }

  lemma NormEmpty()
    ensures Norm([]) == []
  {
  }

  lemma NormSize(s: seq<Byte>)
    ensures |Norm(s)| == 0 <==> |s| == 0
  {
  }

  lemma NoWordsYet(p: seq<Byte>)
    ensures WordsBefore(p, 0) == {}
  {
  }

  // ---- comparing signatures --------------------------------------------------------------------

  /** Positions below n where two signatures agree. */
  function Agreements(a: seq<U64>, b: seq<U64>, n: nat): (m: nat)
    requires n <= |a| && n <= |b|
    ensures m <= n
  {
    if n == 0 then 0 else Agreements(a, b, n - 1) + if a[n - 1] == b[n - 1] then 1 else 0
  }

  /** The positions below n where two signatures agree. */
  ghost function AgreeAt(a: seq<U64>, b: seq<U64>, n: nat): (r: set<nat>)
    requires n <= |a| && n <= |b|
  {
    set k: nat | k < n && a[k] == b[k]
  }

  lemma {:induction false} AgreementsCount(a: seq<U64>, b: seq<U64>, n: nat)
    requires n <= |a| && n <= |b|
    ensures Agreements(a, b, n) == |AgreeAt(a, b, n)|
  {
    if n > 0 {
      AgreementsCount(a, b, n - 1);
      var k: nat := n - 1;
      assert AgreeAt(a, b, n) == AgreeAt(a, b, k) + if a[k] == b[k] then {k} else {};
    }
  }

  lemma {:induction false} SameAgrees(a: seq<U64>, n: nat)
    requires n <= |a|
    ensures Agreements(a, a, n) == n
  {
    if n > 0 { SameAgrees(a, n - 1); }
  }

  /** sig_match */
  method SigMatch(a: seq<U64>, b: seq<U64>) returns (m: nat)
    requires |a| == |b| == SIG_K
    ensures m == Agreements(a, b, SIG_K) <= SIG_K
  {
    m := 0;
    var k := 0;
    while k < SIG_K
      invariant 0 <= k <= SIG_K && m == Agreements(a, b, k)
    {
      if a[k] == b[k] {
        m := m + 1;
      }
      k := k + 1;
    }
  }

  /** sig_over_threshold: 2/5 of 16, in integers. */
  predicate OverThreshold(m: nat) {
    m * 5 >= 2 * SIG_K
  }

  /** The least number of agreeing positions that counts as a hit is exactly 7. */
  lemma ThresholdIsSeven(m: nat)
    ensures OverThreshold(m) <==> m >= 7
  {
  }
}
