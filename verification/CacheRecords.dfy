/** Records of the response cache: their 344 bytes in /cache.bin, and which one answers a query. */
module CacheRecords {
  import opened Blocks
  import opened MinHash

  const ROLELEN := 16
  const VALLEN := 192
  const RECORD := 344    // 8 bytes of key, ROLELEN, SIG_K words of 8 bytes, VALLEN

  /** A slot or a record: key 0 is an empty slot. Role and value are the C strings in their fields. */
  datatype Rec = Rec(key: U64, role: Text, sig: seq<U64>, val: Text)

  predicate RecOk(r: Rec) {
    r.key != 0 && |r.sig| == SIG_K && |r.role| < ROLELEN && |r.val| < VALLEN
  }

  // ---- records as bytes --------------------------------------------------------------------

  ghost function Pow256(n: nat): (r: nat) {
    if n == 0 then 1 else 256 * Pow256(n - 1)
  }

  /** The n low bytes of x, least significant first. */
  function LowBytes(x: nat, n: nat): (b: seq<Byte>)
    ensures |b| == n
  {
    if n == 0 then [] else [x % 256] + LowBytes(x / 256, n - 1)
  }

  function Number(b: seq<Byte>): (x: nat)
    ensures x < Pow256(|b|)
  {
    if b == [] then 0 else var b0: int := b[0]; b0 + 256 * Number(b[1..])
  }

  lemma {:induction false} NumberRoundTrip(x: nat, n: nat)
    requires x < Pow256(n)
    ensures Number(LowBytes(x, n)) == x
  {
    if n > 0 {
      NumberRoundTrip(x / 256, n - 1);
      assert LowBytes(x, n)[1..] == LowBytes(x / 256, n - 1);
    }
  }

  lemma Pow256Is8()
    ensures Pow256(8) == 0x1_0000_0000_0000_0000
  {
    assert Pow256(4) == 0x1_0000_0000;
  }

  function Word64(b: seq<Byte>): (x: U64)
    requires |b| == 8
  {
    Pow256Is8();
    Number(b)
  }

  function WordBytes(ws: seq<U64>): (b: seq<Byte>)
    ensures |b| == 8 * |ws|
  {
    if ws == [] then [] else LowBytes(ws[0], 8) + WordBytes(ws[1..])
  }

  function Words(b: seq<Byte>): (ws: seq<U64>)
    ensures |ws| == |b| / 8
  {
    if |b| < 8 then [] else [Word64(b[..8])] + Words(b[8..])
  }

  lemma {:induction false} WordsRoundTrip(ws: seq<U64>)
    ensures Words(WordBytes(ws)) == ws
  {
    if ws != [] {
      hide LowBytes, Number, Pow256;
      var b := WordBytes(ws);
      assert b[..8] == LowBytes(ws[0], 8) && b[8..] == WordBytes(ws[1..]);
      Pow256Is8();
      NumberRoundTrip(ws[0], 8);
      WordsRoundTrip(ws[1..]);
    }
  }

  /** The C string at the start of b, or all of b if it has no NUL. */
  function CString(b: seq<Byte>): (t: Text)
    ensures |t| <= |b|
  {
    if b == [] || b[0] == 0 then [] else [b[0]] + CString(b[1..])
  }

  lemma {:induction false} CStringBack(t: Text, rest: seq<Byte>)
    requires rest == [] || rest[0] == 0
    ensures CString(t + rest) == t
  {
    if t == [] {
      assert t + rest == rest;
    } else {
      assert (t + rest)[1..] == t[1..] + rest;
      CStringBack(t[1..], rest);
    }
  }

  /** safestrcpy into a field of an uninitialised struct: what lies after the NUL stays. */
  function Field(t: Text, junk: seq<Byte>): (b: seq<Byte>)
    requires |t| < |junk|
    ensures |b| == |junk|
  {
    t + [0] + junk[|t| + 1..]
  }

  function Encode(r: Rec, junk: seq<Byte>): (b: seq<Byte>)
    requires RecOk(r) && |junk| == RECORD
    ensures |b| == RECORD
  {
    LowBytes(r.key, 8) + Field(r.role, junk[8..24]) + WordBytes(r.sig) + Field(r.val, junk[152..])
  }

  /** A record as the scan reads it; `val` is terminated at its last byte whatever the file holds. */
  function Decode(b: seq<Byte>): (r: Rec)
    requires |b| == RECORD
    ensures |r.sig| == SIG_K
  {
    Rec(Word64(b[..8]), CString(b[8..24]), Words(b[24..152]), CString(b[152..RECORD - 1]))
  }

  lemma FieldBack(t: Text, junk: seq<Byte>)
    requires |t| < |junk|
    ensures CString(Field(t, junk)) == t && CString(Field(t, junk)[..|junk| - 1]) == t
  {
    var rest := [0] + junk[|t| + 1..];
    assert Field(t, junk) == t + rest;
    assert Field(t, junk)[..|junk| - 1] == t + rest[..|rest| - 1];
    CStringBack(t, rest);
    CStringBack(t, rest[..|rest| - 1]);
  }

  /** A record written by the cache is read back, whatever the padding. */
  lemma RecordRoundTrip(r: Rec, junk: seq<Byte>)
    requires RecOk(r) && |junk| == RECORD
    ensures Decode(Encode(r, junk)) == r
  {
    hide Field, CString, Words, WordBytes, LowBytes, Number;
    var b := Encode(r, junk);
    var k, f, w, v := LowBytes(r.key, 8), Field(r.role, junk[8..24]), WordBytes(r.sig), Field(r.val, junk[152..]);
    assert b[..8] == k;
    assert b[8..24] == f;
    assert b[24..152] == w;
    assert b[152..RECORD - 1] == v[..191];
    Pow256Is8();
    NumberRoundTrip(r.key, 8);
    FieldBack(r.role, junk[8..24]);
    WordsRoundTrip(r.sig);
    FieldBack(r.val, junk[152..]);
  }

  /** The whole records of a file. */
  function Records(file: seq<Byte>): (t: seq<Rec>)
    ensures |t| == |file| / RECORD
    ensures forall n :: 0 <= n < |t| ==> |t[n].sig| == SIG_K
  {
    seq(|file| / RECORD, n requires 0 <= n < |file| / RECORD => Decode(file[RECORD * n..RECORD * (n + 1)]))
  }

  lemma RecordsAppend(file: seq<Byte>, r: Rec, junk: seq<Byte>)
    requires RecOk(r) && |junk| == RECORD && |file| % RECORD == 0
    ensures Records(file + Encode(r, junk)) == Records(file) + [r]
  {
    hide Encode, Decode;
    var more := file + Encode(r, junk);
    var n := |file| / RECORD;
    assert |more| / RECORD == n + 1;
    forall k | 0 <= k < n ensures Records(more)[k] == Records(file)[k] {
      assert more[RECORD * k..RECORD * (k + 1)] == file[RECORD * k..RECORD * (k + 1)];
    }
    assert more[RECORD * n..RECORD * (n + 1)] == Encode(r, junk);
    RecordRoundTrip(r, junk);
  }

  // ---- which record answers ----------------------------------------------------------------

  /** Positions where a record's signature agrees with the query's. */
  function Match(sig: seq<U64>, r: Rec): (m: nat) {
    if |sig| == |r.sig| == SIG_K then Agreements(sig, r.sig, SIG_K) else 0
  }

  /** A record answers a query: the same key, or the same role and enough agreement. */
  predicate Answers(r: Rec, key: U64, role: Text, sig: seq<U64>) {
    r.key == key || (r.role == role && OverThreshold(Match(sig, r)))
  }

  /** What the similarity scans look at: a record with the query's role, in RAM one in use. */
  predicate Candidate(r: Rec, ram: bool, key: U64, role: Text) {
    (ram ==> r.key != 0) && r.key != key && r.role == role
  }

  /** The first record with a key, or the table's length. */
  ghost function FirstWith(table: seq<Rec>, key: U64): (t: nat)
    ensures t <= |table|
    ensures t < |table| ==> table[t].key == key
    ensures forall i :: 0 <= i < t ==> table[i].key != key
  {
    if table == [] then 0
    else
      var f := FirstWith(table[..|table| - 1], key);
      if f < |table| - 1 || table[|table| - 1].key == key then f else |table|
  }

  /** The last record with a key, or -1. */
  ghost function LastWith(table: seq<Rec>, key: U64): (t: int)
    ensures -1 <= t < |table|
    ensures t >= 0 ==> table[t].key == key
    ensures forall i :: t < i < |table| ==> table[i].key != key
  {
    if table == [] then -1
    else if table[|table| - 1].key == key then |table| - 1
    else LastWith(table[..|table| - 1], key)
  }

  /** The candidate that agrees most, the first of equals, or -1. */
  ghost function BestIndex(table: seq<Rec>, ram: bool, key: U64, role: Text, sig: seq<U64>): (t: int)
    ensures -1 <= t < |table|
  {
    if table == [] then -1
    else
      var n := |table| - 1;
      var b := BestIndex(table[..n], ram, key, role, sig);
      if Candidate(table[n], ram, key, role) && (b < 0 || Match(sig, table[n]) > Match(sig, table[b])) then n else b
  }

  lemma {:induction false} BestIs(table: seq<Rec>, ram: bool, key: U64, role: Text, sig: seq<U64>)
    ensures var b := BestIndex(table, ram, key, role, sig);
            && (b >= 0 ==> Candidate(table[b], ram, key, role))
            && (forall i :: 0 <= i < |table| && Candidate(table[i], ram, key, role) ==>
                  b >= 0 && Match(sig, table[i]) <= Match(sig, table[b]))
            && (forall i :: 0 <= i < b && Candidate(table[i], ram, key, role) ==>
                Match(sig, table[i]) < Match(sig, table[b]))
  {
    if table != [] {
      BestIs(table[..|table| - 1], ram, key, role, sig);
    }
  }

  datatype Found = Ram(t: nat) | OnDisk(n: nat) | Miss

  /** The order of cache_get: RAM before disk, in each the same key before similarity; the last
      record with the key on disk, the first of the most similar ones in either. */
  ghost function Lookup(slots: seq<Rec>, disk: seq<Rec>, key: U64, role: Text, sig: seq<U64>): (f: Found) {
    var e := FirstWith(slots, key);
    var b := BestIndex(slots, true, key, role, sig);
    var x := LastWith(disk, key);
    var d := BestIndex(disk, false, key, role, sig);
    if e < |slots| then Ram(e)
    else if b >= 0 && OverThreshold(Match(sig, slots[b])) then Ram(b)
    else if x >= 0 then OnDisk(x)
    else if d >= 0 && OverThreshold(Match(sig, disk[d])) then OnDisk(d)
    else Miss
  }

  /** A lookup finds a record that answers; it looks on disk only if no slot in use answers, and
      misses only if no record anywhere does. */
  lemma LookupIs(slots: seq<Rec>, disk: seq<Rec>, key: U64, role: Text, sig: seq<U64>)
    requires key != 0
    ensures var f := Lookup(slots, disk, key, role, sig);
            && (f.Ram? ==> f.t < |slots| && slots[f.t].key != 0 && Answers(slots[f.t], key, role, sig))
            && (f.OnDisk? ==> f.n < |disk| && Answers(disk[f.n], key, role, sig))
            && (f.Ram? <==> exists i :: 0 <= i < |slots| && slots[i].key != 0 && Answers(slots[i], key, role, sig))
            && (f.Miss? <==> && (forall i :: 0 <= i < |slots| && slots[i].key != 0 ==>
                                 !Answers(slots[i], key, role, sig))
                             && (forall n :: 0 <= n < |disk| ==> !Answers(disk[n], key, role, sig)))
  {
    hide Match;
    BestIs(slots, true, key, role, sig);
    BestIs(disk, false, key, role, sig);
    forall i | 0 <= i < |slots| && slots[i].key != 0 && slots[i].key != key && Answers(slots[i], key, role, sig)
      ensures Candidate(slots[i], true, key, role) {}
    forall n | 0 <= n < |disk| && disk[n].key != key && Answers(disk[n], key, role, sig)
      ensures Candidate(disk[n], false, key, role) {}
  }

  /** Which record it is: in RAM one with the key, if there is one, and otherwise the first of those of the role
      that agree most; on disk the last one with the key, if there is one, and otherwise as in RAM. */
  lemma LookupOrder(slots: seq<Rec>, disk: seq<Rec>, key: U64, role: Text, sig: seq<U64>)
    ensures var f := Lookup(slots, disk, key, role, sig);
            && (f.Ram? ==> && f.t < |slots|
                           && (slots[f.t].key == key || ((forall i :: 0 <= i < |slots| ==> slots[i].key != key)
                                                         && MostAlike(slots, f.t, true, key, role, sig))))
            && (f.OnDisk? ==> && f.n < |disk|
                              && (if disk[f.n].key == key then forall i :: f.n < i < |disk| ==> disk[i].key != key
                                  else (forall i :: 0 <= i < |disk| ==> disk[i].key != key)
                                       && MostAlike(disk, f.n, false, key, role, sig)))
            && ((exists i :: 0 <= i < |slots| && slots[i].key == key) ==> f.Ram?)
  {
    hide Match;
    BestIs(slots, true, key, role, sig);
    BestIs(disk, false, key, role, sig);
  }

  /** Record t is the first of those of the role that agree most with the signature. */
  ghost predicate MostAlike(table: seq<Rec>, t: nat, ram: bool, key: U64, role: Text, sig: seq<U64>) {
    && t < |table| && table[t].role == role
    && (forall i :: 0 <= i < |table| && Candidate(table[i], ram, key, role) ==>
          Match(sig, table[i]) <= Match(sig, table[t]))
    && (forall i :: 0 <= i < t && Candidate(table[i], ram, key, role) ==> Match(sig, table[i]) < Match(sig, table[t]))
  }

  /** A record that has just been put in RAM is what a lookup of its key finds; one that has just been appended is
      what the disk has for its key. */
  lemma StoredIsFound(slots: seq<Rec>, disk: seq<Rec>, r: Rec, role: Text, sig: seq<U64>)
    requires HasRoom(slots, r.key) && r.key != 0
    ensures var f := Lookup(Placed(slots, r), disk, r.key, role, sig);
            f.Ram? && f.t < |slots| && Placed(slots, r)[f.t] == r
    ensures LastWith(disk + [r], r.key) == |disk|
  {
    var t, e := FirstWith(slots, r.key), FirstWith(slots, 0);
    var now := Placed(slots, r);
    assert t < |slots| || e < |slots|;
    var f := FirstWith(now, r.key);
    assert now[if t < |slots| then t else e] == r;
    assert f == if t < |slots| then t else e;
  }

  /** Some slot has the key or is empty. */
  ghost predicate HasRoom(slots: seq<Rec>, key: U64) {
    exists i :: 0 <= i < |slots| && (slots[i].key == key || slots[i].key == 0)
  }

  /** What cache_set leaves of the two tiers. With room in RAM the record goes there and to the end of the file,
      unless the file cannot take it; without room nothing changes. */
  ghost predicate Remembered(slots0: seq<Rec>, bytes0: seq<Byte>, slots: seq<Rec>, bytes: seq<Byte>, r: Rec,
                             cannotAppend: bool) {
    && slots == Placed(slots0, r)
    && if HasRoom(slots0, r.key) then Appended(bytes0, bytes, r) || (cannotAppend && bytes == bytes0)
       else bytes == bytes0
  }

  ghost predicate Appended(bytes0: seq<Byte>, bytes: seq<Byte>, r: Rec) {
    |bytes| == |bytes0| + RECORD && bytes[..|bytes0|] == bytes0 && Decode(bytes[|bytes0|..]) == r
  }

  /** A prompt with the content words of one whose record of the same role is in either tier is
      always answered, whatever the order, case, punctuation and filler of its words. */
  lemma ParaphraseIsAnswered(slots: seq<Rec>, disk: seq<Rec>, r: Rec, other: seq<Byte>, prompt: seq<Byte>, key: U64,
                             sig: seq<U64>)
    requires key != 0 && ((r in slots && r.key != 0) || r in disk)
    requires IsSignature(r.sig, ContentWords(other)) && IsSignature(sig, ContentWords(prompt))
    requires ContentWords(prompt) == ContentWords(other)
    ensures !Lookup(slots, disk, key, r.role, sig).Miss?
  {
    hide ContentWords, IsSignature;
    SameWordsSameSignature(prompt, sig, other, r.sig);
    SignatureSize(sig, ContentWords(prompt));
    SameAgrees(sig, SIG_K);
    ThresholdIsSeven(SIG_K);
    assert Answers(r, key, r.role, sig);
    LookupIs(slots, disk, key, r.role, sig);
  }

  lemma SignatureSize(sig: seq<U64>, ws: set<Word>)
    requires IsSignature(sig, ws)
    ensures |sig| == SIG_K
  {
  }

  // ---- the slots ---------------------------------------------------------------------------

  /** ram_put: over the first slot with the record's key, else into the first empty one, else nowhere. */
  ghost function Placed(slots: seq<Rec>, r: Rec): (s: seq<Rec>)
    ensures |s| == |slots|
  {
    var t := FirstWith(slots, r.key);
    var e := FirstWith(slots, 0);
    if t < |slots| then slots[t := r] else if e < |slots| then slots[e := r] else slots
  }

  /** Slots in use have different keys and whole signatures. */
  ghost predicate SlotsOk(slots: seq<Rec>) {
    && (forall i :: 0 <= i < |slots| ==> slots[i].key == 0 || |slots[i].sig| == SIG_K)
    && (forall i, j :: 0 <= i < j < |slots| && slots[i].key != 0 ==> slots[i].key != slots[j].key)
  }

  lemma PlacedOk(slots: seq<Rec>, r: Rec)
    requires SlotsOk(slots) && |r.sig| == SIG_K
    ensures SlotsOk(Placed(slots, r))
    ensures HasRoom(slots, r.key) <==> r in Placed(slots, r)
    ensures forall i :: 0 <= i < |slots| && slots[i].key != 0 && slots[i].key != r.key ==>
              Placed(slots, r)[i] == slots[i]
  {
    hide FirstWith;
    var t, e := FirstWith(slots, r.key), FirstWith(slots, 0);
    if t < |slots| {
      assert Placed(slots, r)[t] == r;
    } else if e < |slots| {
      assert Placed(slots, r)[e] == r;
    }
  }

  /** Each key is at most once on disk, and in both tiers with the same record. */
  ghost predicate Coherent(slots: seq<Rec>, disk: seq<Rec>) {
    && (forall i, j :: 0 <= i < j < |disk| ==> disk[i].key != disk[j].key)
    && (forall n :: 0 <= n < |disk| ==> disk[n].key != 0)
    && (forall i, j {:trigger slots[i], disk[j]} :: 0 <= i < |slots| && 0 <= j < |disk|
                                                    && slots[i].key == disk[j].key ==>
          slots[i] == disk[j])
  }

  /** Every slot in use has its record on disk. */
  ghost predicate Synced(slots: seq<Rec>, disk: seq<Rec>) {
    forall i {:trigger slots[i]} :: 0 <= i < |slots| && slots[i].key != 0 ==> slots[i] in disk
  }

  /** Promoting a disk hit keeps the tiers coherent and synced, and overwrites no slot in use: if
      the record had a slot, RAM would have answered. */
  lemma PromotionKeeps(slots: seq<Rec>, disk: seq<Rec>, n: nat, key: U64, role: Text, sig: seq<U64>)
    requires SlotsOk(slots) && n < |disk| && Lookup(slots, disk, key, role, sig) == OnDisk(n) && key != 0
    ensures Synced(slots, disk) ==> Synced(Placed(slots, disk[n]), disk)
    ensures Coherent(slots, disk) ==>
              && Coherent(Placed(slots, disk[n]), disk)
              && forall i :: 0 <= i < |slots| && slots[i].key != 0 ==> Placed(slots, disk[n])[i] == slots[i]
  {
    hide FirstWith, LastWith, BestIndex, Match;
    LookupIs(slots, disk, key, role, sig);
    var r := disk[n];
    if Coherent(slots, disk) {
      assert forall i :: 0 <= i < |slots| ==> slots[i].key != r.key by {
        assert forall i :: 0 <= i < |slots| ==> slots[i].key != disk[n].key || slots[i] == disk[n];
      }
    }
  }

  /** A record that is new to both tiers, put in RAM and appended or not. */
  lemma AdditionKeeps(slots: seq<Rec>, disk: seq<Rec>, r: Rec)
    requires SlotsOk(slots) && r.key != 0
    ensures Synced(slots, disk) ==> Synced(Placed(slots, r), disk + [r])
    ensures Coherent(slots, disk) && (forall i :: 0 <= i < |slots| ==> slots[i].key != r.key)
            && (forall n :: 0 <= n < |disk| ==> disk[n].key != r.key) ==>
              Coherent(Placed(slots, r), disk) && Coherent(Placed(slots, r), disk + [r])
  {
    hide FirstWith;
    forall i | 0 <= i < |slots| && Synced(slots, disk) && Placed(slots, r)[i].key != 0
      ensures Placed(slots, r)[i] in disk + [r]
    {
    }
  }
}
