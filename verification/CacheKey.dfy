/** The key of a cached response: an FNV-1a hash of the role, a bar and the prompt. */
module CacheKey {
  import opened Blocks
  import opened MinHash

  const BAR: Byte := 124

  /** cache_fnv1a's value: never 0, which marks an empty slot. The basis is the code's own. */
  function Key(role: Text, prompt: Text): (k: U64)
    ensures k != 0
  {
    NonZero(Hash(role + [BAR] + prompt, BASIS, PRIME))
  }

  function NonZero(h: U64): (k: U64)
    ensures k != 0
  {
    if h == 0 then 1 else h
  }

  /** cache_fnv1a: the role, the bar and the prompt, byte by byte. */
  method CacheFnv1a(role: Text, prompt: Text) returns (h: U64)
    ensures h == Key(role, prompt)
  {
    hide Hash, Mul, Xor;
    h := BASIS;
    HashStart(role, BASIS, PRIME);
    var i := 0;
    while i < |role|
      invariant 0 <= i <= |role| && h == Hash(role[..i], BASIS, PRIME)
    {
      HashNext(role, i, BASIS, PRIME);
      h := Mul(Xor(h, role[i]), PRIME);
      i := i + 1;
    }
    assert role[..i] == role;
    HashMore(role, BAR, BASIS, PRIME);
    h := Mul(Xor(h, BAR), PRIME);
    ghost var front := role + [BAR];
    assert prompt[..0] == [] && front + [] == front;
    var j := 0;
    while j < |prompt|
      invariant 0 <= j <= |prompt| && h == Hash(front + prompt[..j], BASIS, PRIME)
    {
      HashMore(front + prompt[..j], prompt[j], BASIS, PRIME);
      assert front + prompt[..j + 1] == front + prompt[..j] + [prompt[j]];
      h := Mul(Xor(h, prompt[j]), PRIME);
      j := j + 1;
    }
    assert prompt[..j] == prompt;
    if h == 0 {
      h := 1;
    }
  }

  lemma HashMore(w: Word, c: Byte, h: U64, m: U64)
    ensures Hash(w + [c], h, m) == Mul(Xor(Hash(w, h, m), c), m)
  {
    hide Mul, Xor;
    assert (w + [c])[..|w|] == w;
  }

  // ---- one step of the hash is one to one -----------------------------------------------------

  /** PRIME * INVERSE is 1 modulo 2^64. */
  const INVERSE: U64 := 14886173955864302971

  lemma {:induction false} XorBitsSame(a: nat, b: nat, n: nat)
    requires a < Pow2(n) && b < Pow2(n)
    ensures XorBits(a, b, n) == XorBits(b, a, n)
  {
    if n > 0 { XorBitsSame(a / 2, b / 2, n - 1); }
  }

  lemma {:induction false} XorBitsTwice(a: nat, b: nat, n: nat)
    requires a < Pow2(n) && b < Pow2(n)
    ensures XorBits(XorBits(a, b, n), b, n) == a
  {
    hide XorBits;
    Halves(a, n);
    Halves(b, n);
    XorBitsIs(a, b, n);
    if n > 0 {
      XorBitsTwice(a / 2, b / 2, n - 1);
      var x, y := XorBits(a / 2, b / 2, n - 1), XorBits(a, b, n);
      LastBit(x, (a + b) % 2);
      XorBitsIs(y, b, n);
      Parity(a, b, y);
    }
  }

  lemma Halves(a: nat, n: nat)
    requires a < Pow2(n)
    ensures n > 0 ==> a / 2 < Pow2(n - 1)
  {
  }

  lemma XorBitsIs(a: nat, b: nat, n: nat)
    requires a < Pow2(n) && b < Pow2(n) && (n > 0 ==> a / 2 < Pow2(n - 1) && b / 2 < Pow2(n - 1))
    ensures XorBits(a, b, n) == if n == 0 then 0 else 2 * XorBits(a / 2, b / 2, n - 1) + (a + b) % 2
  {
  }

  lemma LastBit(x: nat, bit: nat)
    requires bit < 2
    ensures (2 * x + bit) / 2 == x && (2 * x + bit) % 2 == bit
  {
  }

  lemma Parity(a: nat, b: nat, y: nat)
    requires y % 2 == (a + b) % 2
    ensures 2 * (a / 2) + (y + b) % 2 == a
  {
  }

  lemma XorByteTwice(a: Byte, b: Byte)
    ensures XorByte(XorByte(a, b), b) == a && XorByte(a, b) == XorByte(b, a)
  {
    hide XorBits;
    assert Pow2(8) == 256;
    XorBitsTwice(a, b, 8);
    XorBitsSame(a, b, 8);
  }

  lemma XorSplits(h: U64, c: Byte)
    ensures Xor(h, c) - Xor(h, c) % 256 == h - h % 256 && Xor(h, c) % 256 == XorByte(h % 256, c)
    ensures Xor(Xor(h, c), c) == h
  {
    hide XorByte;
    XorByteTwice(h % 256, c);
  }

  lemma XorInjective(g: U64, h: U64, c: Byte)
    requires Xor(g, c) == Xor(h, c)
    ensures g == h
  {
    hide Xor;
    XorSplits(g, c);
    XorSplits(h, c);
  }

  lemma SameXorByte(h: U64, b: Byte, c: Byte)
    requires Xor(h, b) == Xor(h, c)
    ensures b == c
  {
    hide Xor, XorByte;
    XorSplits(h, b);
    XorSplits(h, c);
    XorByteTwice(h % 256, b);
    XorByteTwice(h % 256, c);
    XorByteTwice(b, h % 256);
    XorByteTwice(c, h % 256);
  }

  lemma ModWrap(x: int, q: int)
    ensures (x + q * WRAP) % WRAP == x % WRAP
  {
  }

  /** Multiplying by PRIME can be undone. */
  lemma MulUndone(h: U64)
    ensures Mul(Mul(h, PRIME), INVERSE) == h
  {
    var x := h * PRIME;
    var q := x / WRAP;
    assert Mul(h, PRIME) == x - q * WRAP;
    assert PRIME * INVERSE == 1 + ONES * WRAP;
    var y := Mul(h, PRIME) * INVERSE;
    assert y == h + (h * ONES - q * INVERSE) * WRAP by {
      assert x * INVERSE == h * (PRIME * INVERSE);
      assert h * (1 + ONES * WRAP) == h + h * ONES * WRAP;
      assert (q * WRAP) * INVERSE == q * INVERSE * WRAP;
    }
    ModWrap(h, h * ONES - q * INVERSE);
  }

  const ONES := PRIME * INVERSE / WRAP

  lemma MulInjective(g: U64, h: U64)
    requires Mul(g, PRIME) == Mul(h, PRIME)
    ensures g == h
  {
    hide Mul;
    MulUndone(g);
    MulUndone(h);
  }

  /** Different hashes so far stay different, whatever follows. */
  lemma {:induction false} HashInjective(g: U64, h: U64, w: Word)
    requires Hash(w, g, PRIME) == Hash(w, h, PRIME)
    ensures g == h
  {
    hide Mul, Xor;
    if |w| > 0 {
      var v, c := w[..|w| - 1], w[|w| - 1];
      MulInjective(Xor(Hash(v, g, PRIME), c), Xor(Hash(v, h, PRIME), c));
      XorInjective(Hash(v, g, PRIME), Hash(v, h, PRIME), c);
      HashInjective(g, h, v);
    }
  }

  lemma {:induction false} HashConcat(v: Word, w: Word, h: U64)
    ensures Hash(v + w, h, PRIME) == Hash(w, Hash(v, h, PRIME), PRIME)
  {
    hide Mul, Xor;
    if |w| == 0 {
      assert v + w == v;
    } else {
      assert (v + w)[..|v + w| - 1] == v + w[..|w| - 1];
      HashConcat(v, w[..|w| - 1], h);
    }
  }

  // ---- what the key tells apart ---------------------------------------------------------------------

  /** Two texts of one length that differ in exactly one byte. */
  ghost predicate OneByteApart(a: seq<Byte>, b: seq<Byte>) {
    |a| == |b| && exists k :: 0 <= k < |a| && a[k] != b[k] && a == b[k := a[k]]
  }

  lemma HashesApart(a: seq<Byte>, b: seq<Byte>)
    requires OneByteApart(a, b)
    ensures Hash(a, BASIS, PRIME) != Hash(b, BASIS, PRIME)
  {
    hide Hash, Mul, Xor;
    var k :| 0 <= k < |a| && a[k] != b[k] && a == b[k := a[k]];
    var front, back := a[..k], a[k + 1..];
    assert a == (front + [a[k]]) + back && b == (front + [b[k]]) + back;
    HashConcat(front + [a[k]], back, BASIS);
    HashConcat(front + [b[k]], back, BASIS);
    HashMore(front, a[k], BASIS, PRIME);
    HashMore(front, b[k], BASIS, PRIME);
    var h := Hash(front, BASIS, PRIME);
    if Hash(a, BASIS, PRIME) == Hash(b, BASIS, PRIME) {
      HashInjective(Mul(Xor(h, a[k]), PRIME), Mul(Xor(h, b[k]), PRIME), back);
      MulInjective(Xor(h, a[k]), Xor(h, b[k]));
      SameXorByte(h, a[k], b[k]);
    }
  }

  /** Different hashes make different keys, but for 0 and 1, which both make key 1. */
  lemma KeyIsOne(g: U64, h: U64)
    requires g != h && NonZero(g) == NonZero(h)
    ensures NonZero(g) == 1
  {
  }

  /** Two roles that differ in one byte have different keys for the same prompt, unless both keys are 1. */
  lemma RolesApart(role: Text, other: Text, prompt: Text)
    requires OneByteApart(role, other)
    ensures Key(role, prompt) == Key(other, prompt) ==> Key(role, prompt) == 1
  {
    hide Hash;
    var k :| 0 <= k < |role| && role[k] != other[k] && role == other[k := role[k]];
    var a, b := role + [BAR] + prompt, other + [BAR] + prompt;
    assert a[k] != b[k] && a == b[k := a[k]];
    HashesApart(a, b);
    if Key(role, prompt) == Key(other, prompt) {
      KeyIsOne(Hash(a, BASIS, PRIME), Hash(b, BASIS, PRIME));
    }
  }

  /** So have two prompts for the same role. */
  lemma PromptsApart(role: Text, prompt: Text, other: Text)
    requires OneByteApart(prompt, other)
    ensures Key(role, prompt) == Key(role, other) ==> Key(role, prompt) == 1
  {
    hide Hash;
    var k :| 0 <= k < |prompt| && prompt[k] != other[k] && prompt == other[k := prompt[k]];
    var a, b := role + [BAR] + prompt, role + [BAR] + other;
    var n := |role| + 1 + k;
    assert a[n] != b[n] && a == b[n := a[n]];
    HashesApart(a, b);
    if Key(role, prompt) == Key(role, other) {
      KeyIsOne(Hash(a, BASIS, PRIME), Hash(b, BASIS, PRIME));
    }
  }

  /** Where the role ends counts: a byte moved from the role to the prompt changes the key. */
  lemma BarCounts(role: Text, c: Byte, prompt: Text)
    requires c != BAR && c != 0
    ensures Key(role + [c], prompt) == Key(role, [c] + prompt) ==> Key(role + [c], prompt) == 1
  {
    hide Hash, Mul, Xor;
    var a, b := role + [c] + [BAR] + prompt, role + [BAR] + ([c] + prompt);
    assert b == role + [BAR] + [c] + prompt;
    HashConcat(role + [c] + [BAR], prompt, BASIS);
    HashConcat(role + [BAR] + [c], prompt, BASIS);
    HashMore(role + [c], BAR, BASIS, PRIME);
    HashMore(role, c, BASIS, PRIME);
    HashMore(role + [BAR], c, BASIS, PRIME);
    HashMore(role, BAR, BASIS, PRIME);
    var h := Hash(role, BASIS, PRIME);
    var x, y := Mul(Xor(h, c), PRIME), Mul(Xor(h, BAR), PRIME);
    if Hash(a, BASIS, PRIME) == Hash(b, BASIS, PRIME) {
      HashInjective(Mul(Xor(x, BAR), PRIME), Mul(Xor(y, c), PRIME), prompt);
      MulInjective(Xor(x, BAR), Xor(y, c));
      XorSplits(x, BAR);
      XorSplits(y, c);
      Near(x, y);
      XorSplits(h, c);
      XorSplits(h, BAR);
      Near(Xor(h, c), Xor(h, BAR));
      FarApart(Xor(h, c), Xor(h, BAR));
      SameXorByte(h, c, BAR);
    }
    if Key(role + [c], prompt) == Key(role, [c] + prompt) {
      KeyIsOne(Hash(a, BASIS, PRIME), Hash(b, BASIS, PRIME));
    }
  }

  lemma Near(x: U64, y: U64)
    requires x - x % 256 == y - y % 256
    ensures -256 < x - y < 256
  {
  }

  /** Close numbers are not close any more after the multiplication. */
  lemma FarApart(x: U64, y: U64)
    requires -256 < x - y < 256 && -256 < Mul(x, PRIME) - Mul(y, PRIME) < 256
    ensures x == y
  {
    var q, r := x * PRIME / WRAP, y * PRIME / WRAP;
    var d := x - y;
    assert Mul(x, PRIME) - Mul(y, PRIME) == d * PRIME - (q - r) * WRAP;
  }

  /** But the bar is a byte like any other: a role with a bar in it is taken apart at either bar. */
  lemma BarIsAByte(role: Text, middle: Text, prompt: Text)
    ensures Key(role + [BAR] + middle, prompt) == Key(role, middle + [BAR] + prompt)
  {
    assert (role + [BAR] + middle) + [BAR] + prompt == role + [BAR] + (middle + [BAR] + prompt);
  }

  /** The value the constants give for an empty role and an empty prompt. */
  lemma EmptyKey()
    ensures Key([], []) == 4953299696095185485
  {
    var w: Word := [] + [BAR] + [];
    assert w == [BAR] && w[..0] == [];
    assert XorBits(1, 0, 1) == 1 && XorBits(2, 1, 2) == 3 && XorBits(4, 3, 3) == 7 && XorBits(8, 7, 4) == 15;
    assert XorBits(16, 15, 5) == 31 && XorBits(32, 31, 6) == 63 && XorBits(65, 62, 7) == 127;
    assert XorByte(BASIS % 256, BAR) == 255;
    assert Hash(w, BASIS, PRIME) == Mul(Xor(Hash(w[..0], BASIS, PRIME), BAR), PRIME);
  }

  // ---- what a signature tells apart -------------------------------------------------------------------

  /** Two words that differ in one byte have different first hashes, so prompts of one word each do not agree at
      the first position. */
  lemma WordsApart(u: Word, v: Word, a: seq<U64>, b: seq<U64>)
    requires OneByteApart(u, v) && IsSignature(a, {u}) && IsSignature(b, {v})
    requires HashK(u, 0) != TOP && HashK(v, 0) != TOP
    ensures a[0] != b[0]
  {
    hide Hash;
    HashesApart(u, v);
    assert IsLeast(a[0], {u}, 0) && IsLeast(b[0], {v}, 0);
    assert HashK(u, 0) == Hash(u, BASIS, PRIME) && HashK(v, 0) == Hash(v, BASIS, PRIME);
  }

  /** The hashes of one word at different positions are different. */
  lemma PositionsApart(w: Word, j: nat, k: nat)
    requires j < k < SIG_K
    ensures HashK(w, j) != HashK(w, k)
  {
    hide Hash;
    var h1, h2 := Hash(w, BASIS, PRIME), Hash(w, PRIME, BASIS);
    SumsApart(h1, if h2 % 2 == 0 then h2 + 1 else h2, j, k);
  }

  lemma SumsApart(h: nat, o: nat, j: nat, k: nat)
    requires j < k < 16 && o % 2 == 1
    ensures (h + j * o) % WRAP != (h + k * o) % WRAP
  {
    assert k * o - j * o == (k - j) * o;
    MultipleApart(h + j * o, h + k * o, k - j, o);
  }

  lemma MultipleApart(x: nat, y: nat, d: nat, o: nat)
    requires y - x == d * o && 0 < d < 16 && o % 2 == 1
    ensures x % WRAP != y % WRAP
  {
    if x % WRAP == y % WRAP {
      SameRemainder(x, y);
      var m := (y / WRAP - x / WRAP) * (WRAP / 16);
      assert Pow2(4) == 16;
      var e := OddFactor(d, o, m, 4);
    }
  }

  lemma SameRemainder(x: nat, y: nat)
    requires x % WRAP == y % WRAP
    ensures y - x == (y / WRAP - x / WRAP) * (WRAP / 16) * 16
  {
  }

  lemma EvenFactor(d: nat, o: nat)
    requires o % 2 == 1 && (d * o) % 2 == 0
    ensures d % 2 == 0
  {
    var a, b, r := d / 2, o / 2, d % 2;
    assert d * o == 2 * (2 * a * b + a + r * b) + r;
  }

  /** An odd factor does not help to reach a multiple of a power of two. */
  lemma {:induction false} OddFactor(d: nat, o: nat, m: int, n: nat) returns (e: int)
    requires o % 2 == 1 && d * o == m * Pow2(n)
    ensures d == e * Pow2(n)
  {
    e := d;
    if n > 0 {
      var a := d / 2;
      assert m * Pow2(n) == 2 * (m * Pow2(n - 1));
      EvenFactor(d, o);
      assert d * o == 2 * (a * o);
      e := OddFactor(a, o, m, n - 1);
      assert e * Pow2(n) == 2 * (e * Pow2(n - 1));
    }
  }
}
