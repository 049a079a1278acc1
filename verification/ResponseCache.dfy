/** The response cache: 64 RAM slots over /cache.bin, a file of fixed-size records that any process
    may also write. Nothing is assumed about the file's bytes. */
module ResponseCache {
  import opened Blocks
  import opened MinHash
  import opened CacheKey
  import opened CacheRecords
  import FileBlocks
  import Files = FileSystem

  const CACHE_NSLOT := 64
  const PROMPTMAX := 256
  const EMPTY := Rec(0, [], [], [])

  /** safestrcpy into a field of n bytes. */
  function Cut(s: Text, n: nat): (r: Text)
    requires n > 0
    ensures |r| < n && (|s| < n ==> r == s)
  {
    if |s| < n then s else s[..n - 1]
  }

  /** What proxy_recv brings: an answer, or an error. */
  datatype Reply = Answer(text: Text) | NoAnswer

  /** The role and the prompt fit the buffers of sys_cacheget and sys_cacheset. */
  predicate Fits(role: Text, prompt: Text) {
    |role| < ROLELEN && |prompt| < PROMPTMAX
  }

  /** The value in the caller's buffer: sys_cacheget copies at most outmax bytes of it. */
  function CopiedOut(val: Text, outmax: nat): (r: Text) {
    if |val| <= outmax then val else val[..outmax]
  }

  class Cache {
    var slots: seq<Rec>
    const fs: Files.FileSystem
    const inum: int            // the inode of /cache.bin, or -1 if there is no such file

    ghost predicate Valid()
      reads this, fs
    {
      && fs.Valid() && fs.loan == 0 && -1 <= inum < |fs.inode|
      && |slots| == CACHE_NSLOT && SlotsOk(slots)
    }

    /** The bytes of /cache.bin. */
    ghost function Bytes(): (b: seq<Byte>)
      reads this, fs
    {
      if 0 <= inum < |fs.inode| && inum < |fs.refs| then fs.File(inum) else []
    }

    /** Its whole records. */
    ghost function Disk(): (t: seq<Rec>)
      reads this, fs
    {
      Records(Bytes())
    }

    constructor (fs0: Files.FileSystem, inum0: int)
      requires fs0.Valid() && fs0.loan == 0 && -1 <= inum0 < |fs0.inode|
      ensures Valid() && fs == fs0 && inum == inum0 && forall i :: 0 <= i < CACHE_NSLOT ==> slots[i].key == 0
    {
      fs, inum := fs0, inum0;
      slots := seq(CACHE_NSLOT, _ => EMPTY);
    }

    /** The first slot with a key, or CACHE_NSLOT. */
    method FindKey(key: U64) returns (t: nat)
      requires |slots| == CACHE_NSLOT
      ensures t == FirstWith(slots, key)
    {
      t := 0;
      while t < CACHE_NSLOT && slots[t].key != key
        invariant 0 <= t <= CACHE_NSLOT && forall i :: 0 <= i < t ==> slots[i].key != key
      {
        t := t + 1;
      }
    }

    /** ram_put */
    method RamPut(rec: Rec)
      requires |slots| == CACHE_NSLOT && SlotsOk(slots) && |rec.sig| == SIG_K
      modifies this`slots
      ensures slots == Placed(old(slots), rec) && |slots| == CACHE_NSLOT && SlotsOk(slots)
    {
      PlacedOk(slots, rec);
      var t := FindKey(rec.key);
      if t == CACHE_NSLOT {
        t := FindKey(0);
      }
      if t < CACHE_NSLOT {
        slots := slots[t := rec];
      }
    }

    /** The similarity loop of cache_get over the slots. */
    method Best(key: U64, role: Text, sig: seq<U64>) returns (best: int, match_: int)
      requires |sig| == SIG_K && |slots| == CACHE_NSLOT && SlotsOk(slots)
      ensures best == BestIndex(slots, true, key, role, sig)
      ensures match_ == if best >= 0 then Match(sig, slots[best]) else -1
    {
      best, match_ := -1, -1;
      var i := 0;
      while i < CACHE_NSLOT
        invariant 0 <= i <= CACHE_NSLOT
        invariant best == BestIndex(slots[..i], true, key, role, sig)
        invariant match_ == if best >= 0 then Match(sig, slots[best]) else -1
      {
        assert slots[..i + 1][..i] == slots[..i];
        if Candidate(slots[i], true, key, role) {
          var m := SigMatch(sig, slots[i].sig);
          if m > match_ {
            best, match_ := i, m;
          }
        }
        i := i + 1;
      }
      assert slots[..CACHE_NSLOT] == slots;
    }

    /** Without a file there are no records; with one, its size is the inode's. */
    lemma FileIs()
      requires Valid()
      ensures Disk() == Records(Bytes())
      ensures if inum < 0 then Disk() == [] else inum < |fs.inode| && |Bytes()| == fs.inode[inum].size
    {
      hide Records;
      if inum >= 0 {
        fs.FileLength(inum);
      } else {
        Whole(Bytes(), 0);
      }
    }

    /** readi of record n of the file. */
    method ReadRecord(n: nat) returns (rec: Rec)
      requires fs.Valid() && fs.loan == 0 && 0 <= inum < |fs.inode| && RECORD * (n + 1) <= fs.inode[inum].size
      modifies fs`bits, fs`data, fs`loan, fs`logged, fs`inode, fs`refs, fs`owner
      ensures unchanged(fs) && n < |Disk()| && rec == Disk()[n]
    {
      hide fs.Valid, Decode;
      fs.FileLength(inum);
      fs.InodeBound(inum);
      var r, bytes := fs.Readi(inum, RECORD * n, RECORD, _ => false);
      assert bytes == Bytes()[RECORD * n..RECORD * (n + 1)];
      rec := Decode(bytes);
    }

    /** cache_disk_scan: the last record with the key, else the best same-role record if it is good enough. */
    method DiskScan(key: U64, role: Text, sig: seq<U64>) returns (found: int, rec: Rec)
      requires Valid() && |sig| == SIG_K
      modifies fs`bits, fs`data, fs`loan, fs`logged, fs`inode, fs`refs, fs`owner
      ensures unchanged(fs)
      ensures var x, d := LastWith(Disk(), key), BestIndex(Disk(), false, key, role, sig);
              found == if x >= 0 then x else if d >= 0 && OverThreshold(Match(sig, Disk()[d])) then d else -1
      ensures found >= 0 ==> rec == Disk()[found]
    {
      hide fs.Valid, Records, Decode, SlotsOk, LastWith, BestIndex, Match, Bytes, Disk;
      found, rec := -1, EMPTY;
      NothingFound(key, role, sig);
      FileIs();
      if inum < 0 {
        return;
      }
      ghost var disk := Disk();
      assert disk[..0] == [];
      Whole(Bytes(), 0);
      var sz := fs.inode[inum].size;
      var exact, sem, m := -1, -1, -1;
      var exactRec, semRec := EMPTY, EMPTY;
      var n: nat := 0;
      while RECORD * n + RECORD <= sz
        invariant unchanged(fs) && n <= |disk| && (RECORD * n + RECORD <= sz <==> n < |disk|)
        invariant exact == LastWith(disk[..n], key) && (exact >= 0 ==> exactRec == disk[exact])
        invariant sem == BestIndex(disk[..n], false, key, role, sig)
        invariant if sem >= 0 then semRec == disk[sem] && m == Match(sig, semRec) else m == -1
      {
        var r := ReadRecord(n);
        exact, exactRec, sem, semRec, m := ScanStep(disk, n, key, role, sig, r, exact, exactRec, sem, semRec, m);
        n := n + 1;
        Whole(Bytes(), n);
      }
      assert disk[..n] == disk;
      if exact >= 0 {
        found, rec := exact, exactRec;
      } else if sem >= 0 && OverThreshold(m) {
        found, rec := sem, semRec;
      }
    }

    /** cache_get. Nothing but the slots changes, and those only by promoting a disk hit. */
    method Get(role: Text, prompt: Text) returns (hit: bool, out: Text, ghost sig: seq<U64>)
      requires Valid()
      modifies this`slots, fs`bits, fs`data, fs`loan, fs`logged, fs`inode, fs`refs, fs`owner
      ensures Valid() && unchanged(fs) && IsSignature(sig, ContentWords(prompt))
      ensures var f := Lookup(old(slots), Disk(), Key(role, prompt), role, sig);
              match f
              case Miss => !hit && slots == old(slots)
              case Ram(t) => hit && t < CACHE_NSLOT && out == old(slots)[t].val && slots == old(slots)
              case OnDisk(n) => hit && n < |Disk()| && out == Disk()[n].val && slots == Placed(old(slots), Disk()[n])
      ensures Synced(old(slots), Disk()) ==> Synced(slots, Disk())
      ensures Coherent(old(slots), Disk()) ==>
                && Coherent(slots, Disk())
                && forall i :: 0 <= i < CACHE_NSLOT && old(slots)[i].key != 0 ==> slots[i] == old(slots)[i]
    {
      hide IsSignature, ContentWords, Key, Hash, fs.Valid, Records, SlotsOk, Coherent, Synced, Placed, Match,
           BestIndex, LastWith, FirstWith;
      var key := CacheFnv1a(role, prompt);
      var s := CacheSig(prompt);
      var q := s[..];
      SignatureSize(q, ContentWords(prompt));
      sig := q;
      hit, out := true, [];
      var e := FindKey(key);
      if e < CACHE_NSLOT {
        out := slots[e].val;
        return;
      }
      var b, m := Best(key, role, q);
      if b >= 0 && OverThreshold(m) {
        out := slots[b].val;
        return;
      }
      var n, rec := DiskScan(key, role, q);
      if n >= 0 {
        PromotionKeeps(slots, Disk(), n, key, role, sig);
        Sizes(Bytes());
        RamPut(rec);
        out := rec.val;
      } else {
        hit := false;
      }
    }

    /** Why a file of n bytes cannot take a record. */
    ghost predicate CannotAppend(n: nat)
      reads this, fs
    {
      inum < 0 || n + RECORD > FileBlocks.MAXFILE * BSIZE || fs.DiskFull()
    }

    /** cache_disk_append. The file gains exactly the record's bytes, or is as it was: a short write
        is undone by setting the size back. The append fails only without the file, at the largest
        file size, or on a full disk. No other file changes. */
    method DiskAppend(rec: Rec) returns (appended: bool, ghost bytes: seq<Byte>)
      requires Valid() && RecOk(rec)
      modifies fs`bits, fs`data, fs`loan, fs`logged, fs`inode, fs`refs, fs`owner, fs`dinode
      ensures Valid() && |bytes| == RECORD && Decode(bytes) == rec && |fs.inode| == old(|fs.inode|)
      ensures Bytes() == if appended then old(Bytes()) + bytes else old(Bytes())
      ensures old(|Bytes()| % RECORD) == 0 ==>
                |Bytes()| % RECORD == 0 && Disk() == if appended then old(Disk()) + [rec] else old(Disk())
      ensures !appended ==> CannotAppend(old(|Bytes()|))
      ensures forall j :: 0 <= j < |fs.inode| && j != inum ==>
                fs.inode[j] == old(fs.inode[j]) && fs.File(j) == old(fs.File(j))
      ensures inum >= 0 ==> fs.dinode == old(fs.dinode)[inum := fs.inode[inum]]
    {
      hide fs.Valid, Encode, Decode, Records, FileBlocks.Content;
      var junk: seq<Byte> := *;
      if |junk| != RECORD {
        junk := seq(RECORD, _ => 0);
      }
      var b := Encode(rec, junk);
      bytes := b;
      RecordRoundTrip(rec, junk);
      if inum < 0 {
        return false, bytes;
      }
      fs.FileLength(inum);
      fs.InodeBound(inum);
      ghost var was := Bytes();
      var oldsz := fs.inode[inum].size;
      var r := fs.Writei(inum, oldsz, b, _ => false);
      appended := r == RECORD;
      if !appended {
        fs.FileLength(inum);
        fs.CutBack(inum, oldsz);
      }
      if appended && |was| % RECORD == 0 {
        RecordsAppend(was, rec, junk);
      }
    }

    /** cache_set: the record goes to RAM if a slot has its key or is empty, and then to disk. */
    method Set(role: Text, prompt: Text, val: Text) returns (stored: bool, appended: bool, ghost rec: Rec)
      requires Valid() && |role| < ROLELEN
      modifies this`slots, fs`bits, fs`data, fs`loan, fs`logged, fs`inode, fs`refs, fs`owner, fs`dinode
      ensures Valid() && |fs.inode| == old(|fs.inode|)
      ensures && rec.key == Key(role, prompt) && rec.role == role && rec.val == Cut(val, VALLEN)
              && IsSignature(rec.sig, ContentWords(prompt))
      ensures stored <==> HasRoom(old(slots), rec.key)
      ensures Remembered(old(slots), old(Bytes()), slots, Bytes(), rec, CannotAppend(old(|Bytes()|)))
      ensures slots == Placed(old(slots), rec) && (stored ==> rec in slots) && (appended ==> stored)
              && (!appended ==> Bytes() == old(Bytes()))
      ensures stored && !appended ==> CannotAppend(old(|Bytes()|))
      ensures old(|Bytes()| % RECORD) == 0 ==>
                |Bytes()| % RECORD == 0 && Disk() == if appended then old(Disk()) + [rec] else old(Disk())
      ensures forall j :: 0 <= j < |fs.inode| && j != inum ==>
                fs.inode[j] == old(fs.inode[j]) && fs.File(j) == old(fs.File(j))
    {
      hide IsSignature, ContentWords, Key, Hash, fs.Valid, Records, SlotsOk, FirstWith;
      var s := CacheSig(prompt);
      var sig := s[..];
      SignatureSize(sig, ContentWords(prompt));
      var key := CacheFnv1a(role, prompt);
      var r := Rec(key, role, sig, Cut(val, VALLEN));
      rec := r;
      var t := FindKey(r.key);
      var e := FindKey(0);
      stored, appended := t < CACHE_NSLOT || e < CACHE_NSLOT, false;
      PlacedOk(slots, r);
      if stored {
        RamPut(r);
        ghost var was, bytes := Bytes(), [];
        appended, bytes := DiskAppend(r);
        if appended { AppendedIs(was, bytes, r); }
      }
    }

    /** What proxy_call does with the cache, as one step. `was` is what the caller's buffer of outmax
        bytes holds; `reply` is what the host answers, if it does. cacheget answers -1 to a role or
        prompt that does not fit the kernel's buffers, and proxy_call takes that for a hit. */
    method Call(role: Text, prompt: Text, was: Text, outmax: nat, reply: Reply)
      returns (hit: bool, out: Text, ghost lost: bool, ghost sig: seq<U64>)
      requires Valid()
      modifies this`slots, fs`bits, fs`data, fs`loan, fs`logged, fs`inode, fs`refs, fs`owner, fs`dinode
      ensures Valid() && |fs.inode| == old(|fs.inode|) && IsSignature(sig, ContentWords(prompt))
      ensures !Fits(role, prompt) ==> hit && out == was && slots == old(slots) && Bytes() == old(Bytes())
      ensures Fits(role, prompt) ==>
                match Lookup(old(slots), old(Disk()), Key(role, prompt), role, sig)
                case Miss =>
                  && !hit && out == (if reply.Answer? then reply.text else was)
                  && if reply.Answer? && |reply.text| < VALLEN
                     then Remembered(old(slots), old(Bytes()), slots, Bytes(),
                                     Rec(Key(role, prompt), role, sig, reply.text), CannotAppend(old(|Bytes()|)))
                     else slots == old(slots) && Bytes() == old(Bytes())
                case Ram(t) =>
                  && hit && t < CACHE_NSLOT && out == CopiedOut(old(slots)[t].val, outmax)
                  && slots == old(slots) && Bytes() == old(Bytes())
                case OnDisk(n) =>
                  && hit && n < |old(Disk())| && out == CopiedOut(old(Disk())[n].val, outmax)
                  && slots == Placed(old(slots), old(Disk())[n]) && Bytes() == old(Bytes())
      ensures old(|Bytes()| % RECORD) == 0 ==>
                && |Bytes()| % RECORD == 0
                && |Disk()| >= |old(Disk())| && Disk()[..|old(Disk())|] == old(Disk())
                && (Coherent(old(slots), old(Disk())) ==> Coherent(slots, Disk()))
                && (Synced(old(slots), old(Disk())) && !lost ==> Synced(slots, Disk()))
      ensures forall j :: 0 <= j < |fs.inode| && j != inum ==>
                fs.inode[j] == old(fs.inode[j]) && fs.File(j) == old(fs.File(j))
    {
      hide IsSignature, ContentWords, Key, Hash, fs.Valid, Records, SlotsOk, Coherent, Synced, Placed, Lookup,
           CopiedOut, Remembered, CannotAppend;
      hit, out, lost := true, was, false;
      if |role| < ROLELEN && |prompt| < PROMPTMAX {
        var val;
        hit, val, sig := Get(role, prompt);
        if hit {
          out := CopiedOut(val, outmax);
        } else if reply.Answer? {
          out := reply.text;
          lost := Remember(role, prompt, reply.text, sig);
        }
      } else {
        var s := CacheSig(prompt);
        sig := s[..];
      }
    }

    /** cacheset after a miss; a reply that does not fit the value field is refused. */
    method Remember(role: Text, prompt: Text, text: Text, ghost sig: seq<U64>) returns (ghost lost: bool)
      requires Valid() && Fits(role, prompt) && Lookup(slots, Disk(), Key(role, prompt), role, sig).Miss?
      requires IsSignature(sig, ContentWords(prompt))
      modifies this`slots, fs`bits, fs`data, fs`loan, fs`logged, fs`inode, fs`refs, fs`owner, fs`dinode
      ensures Valid() && |fs.inode| == old(|fs.inode|)
      ensures if |text| < VALLEN
              then Remembered(old(slots), old(Bytes()), slots, Bytes(), Rec(Key(role, prompt), role, sig, text),
                              CannotAppend(old(|Bytes()|)))
              else slots == old(slots) && Bytes() == old(Bytes())
      ensures old(|Bytes()| % RECORD) == 0 ==>
                && |Bytes()| % RECORD == 0
                && |Disk()| >= |old(Disk())| && Disk()[..|old(Disk())|] == old(Disk())
                && (Coherent(old(slots), old(Disk())) ==> Coherent(slots, Disk()))
                && (Synced(old(slots), old(Disk())) && !lost ==> Synced(slots, Disk()))
      ensures forall j :: 0 <= j < |fs.inode| && j != inum ==>
                fs.inode[j] == old(fs.inode[j]) && fs.File(j) == old(fs.File(j))
    {
      hide IsSignature, ContentWords, Key, Hash, fs.Valid, Records, SlotsOk, Coherent, Synced, Placed, Lookup,
           Remembered,
           CannotAppend, HasRoom, Bytes, Disk, Cut;
      ghost var slots0, disk0, key := slots, Disk(), Key(role, prompt);
      lost := false;
      if |text| < VALLEN {
        MissMeansNew(slots, disk0, key, role, sig);
        var stored, appended;
        ghost var rec;
        stored, appended, rec := Set(role, prompt, text);
        SignatureIsUnique(rec.sig, sig, ContentWords(prompt));
        assert rec == Rec(key, role, sig, text);
        lost := stored && !appended;
        TiersKept(slots0, disk0, rec, slots, Disk(), stored, appended, old(|Bytes()|) % RECORD == 0);
      }
    }

    /** cache_clear */
    method Clear(both: bool)
      requires Valid()
      modifies this`slots, fs`bits, fs`logged, fs`inode, fs`refs, fs`owner, fs`dinode
      ensures Valid() && Bytes() == (if both then [] else old(Bytes()))
      ensures forall i :: 0 <= i < CACHE_NSLOT ==> slots[i].key == 0
      ensures Synced(slots, Disk()) && |fs.inode| == old(|fs.inode|)
      ensures forall j :: 0 <= j < |fs.inode| && j != inum ==>
                fs.inode[j] == old(fs.inode[j]) && fs.File(j) == old(fs.File(j))
    {
      hide fs.Valid, FileBlocks.Content;
      var i := 0;
      while i < CACHE_NSLOT
        modifies this`slots
        invariant 0 <= i <= CACHE_NSLOT == |slots| && SlotsOk(slots)
        invariant forall k :: 0 <= k < i ==> slots[k].key == 0
      {
        slots := slots[i := slots[i].(key := 0)];
        i := i + 1;
      }
      if both && inum >= 0 {
        var ok := fs.Itrunc(inum);
      }
    }
  }

  /** One turn of the scan: the record at n against the best so far. */
  method ScanStep(ghost disk: seq<Rec>, n: nat, key: U64, role: Text, sig: seq<U64>, r: Rec,
                  exact: int, exactRec: Rec, sem: int, semRec: Rec, m: int)
    returns (exact': int, exactRec': Rec, sem': int, semRec': Rec, m': int)
    requires |sig| == SIG_K && n < |disk| && r == disk[n] && |r.sig| == SIG_K
    requires exact == LastWith(disk[..n], key) && (exact >= 0 ==> exactRec == disk[exact])
    requires sem == BestIndex(disk[..n], false, key, role, sig)
    requires if sem >= 0 then semRec == disk[sem] && m == Match(sig, semRec) else m == -1
    ensures exact' == LastWith(disk[..n + 1], key) && (exact' >= 0 ==> exactRec' == disk[exact'])
    ensures sem' == BestIndex(disk[..n + 1], false, key, role, sig)
    ensures if sem' >= 0 then semRec' == disk[sem'] && m' == Match(sig, semRec') else m' == -1
  {
    exact', exactRec', sem', semRec', m' := exact, exactRec, sem, semRec, m;
    assert disk[..n + 1][..n] == disk[..n];
    if r.key == key {
      exact', exactRec' := n, r;
    } else if r.role == role {
      var a := SigMatch(sig, r.sig);
      if a > m {
        sem', semRec', m' := n, r, a;
      }
    }
  }

  /** A record new to both tiers keeps them coherent, and synced if it is in both or in none. */
  lemma TiersKept(slots0: seq<Rec>, disk0: seq<Rec>, r: Rec, slots: seq<Rec>, disk: seq<Rec>, stored: bool,
                  appended: bool, whole: bool)
    requires SlotsOk(slots0) && r.key != 0 && slots == Placed(slots0, r) && (stored <==> HasRoom(slots0, r.key))
    requires forall i :: 0 <= i < |slots0| ==> slots0[i].key != r.key
    requires forall n :: 0 <= n < |disk0| ==> disk0[n].key != r.key
    requires (appended ==> stored) && (whole ==> disk == if appended then disk0 + [r] else disk0)
    ensures whole ==> && |disk| >= |disk0| && disk[..|disk0|] == disk0
                      && (Coherent(slots0, disk0) ==> Coherent(slots, disk))
                      && (Synced(slots0, disk0) && !(stored && !appended) ==> Synced(slots, disk))
  {
    hide Placed, SlotsOk, Coherent, Synced;
    AdditionKeeps(slots0, disk0, r);
    if !stored { Unstored(slots0, r); }
  }

  lemma AppendedIs(was: seq<Byte>, bytes: seq<Byte>, r: Rec)
    requires |bytes| == RECORD && Decode(bytes) == r
    ensures Appended(was, was + bytes, r)
  {
    hide Decode;
    assert (was + bytes)[|was|..] == bytes && (was + bytes)[..|was|] == was;
  }

  lemma Unstored(slots: seq<Rec>, r: Rec)
    requires !HasRoom(slots, r.key)
    ensures Placed(slots, r) == slots
  {
  }

  lemma MissMeansNew(slots: seq<Rec>, disk: seq<Rec>, key: U64, role: Text, sig: seq<U64>)
    requires key != 0 && Lookup(slots, disk, key, role, sig).Miss?
    ensures forall i :: 0 <= i < |slots| ==> slots[i].key != key
    ensures forall n :: 0 <= n < |disk| ==> disk[n].key != key
  {
  }

  /** The scan's test for another whole record. */
  lemma Whole(file: seq<Byte>, n: nat)
    ensures RECORD * n + RECORD <= |file| <==> n < |Records(file)|
  {
  }

  lemma NothingFound(key: U64, role: Text, sig: seq<U64>)
    ensures Records([]) == [] && LastWith([], key) == -1 && BestIndex([], false, key, role, sig) == -1
  {
  }

  lemma Sizes(file: seq<Byte>)
    ensures forall n :: 0 <= n < |Records(file)| ==> |Records(file)[n].sig| == SIG_K
  {
  }
}
