/** The Kernighan and Ritchie allocator: one address-ordered ring of free blocks.

    A block is a header address h and a size in 16-byte units, header included; it covers the
    bytes [h, h + 16 * size). The caller of malloc gets h + 16. */
module UserMalloc {
  const UNIT := 16
  /** Units malloc asks sbrk for at least. */
  const CHUNK := 4096

  // ---- the shape of the heap, as values -----------------------------------------

  /** The free headers form one ring in address order: ptr leads to the next higher free
      header, and from the highest back to the lowest, which is `base`. */
  ghost predicate RingOk(base: nat, free: set<nat>, ptr: map<nat, nat>) {
    && base in free
    && (forall f :: f in free ==> base <= f)
    && (forall f {:trigger Linked(base, free, ptr, f)} :: f in free ==> Linked(base, free, ptr, f))
  }

  ghost predicate Linked(base: nat, free: set<nat>, ptr: map<nat, nat>, f: nat) {
    f in ptr && ptr[f] in free && Next(base, free, f, ptr[f])
  }

  ghost predicate Next(base: nat, free: set<nat>, f: nat, n: nat) {
    || (f < n && forall g :: g in free ==> g <= f || n <= g)
    || (n == base && forall g :: g in free ==> g <= f)
  }

  /** The address just past a block of so many units. */
  function End(h: nat, units: nat): (r: nat) {
    h + 16 * units
  }

  ghost predicate Head(base: nat, free: set<nat>, live: set<nat>, h: nat) {
    h != base && (h in free || h in live)
  }

  ghost predicate Covers(size: map<nat, nat>, h: nat, a: nat) {
    h in size && h <= a < End(h, size[h])
  }

  /** `cell` maps each byte got from sbrk to the header of the one block it lies in. */
  ghost predicate BlocksOk(base: nat, free: set<nat>, live: set<nat>, size: map<nat, nat>, cell: map<nat, nat>) {
    && free !! live && base in free && base in size && size[base] == 0
    && (forall h {:trigger Head(base, free, live, h)} :: Head(base, free, live, h) ==> h in size && size[h] >= 1)
    && (forall h, a {:trigger Covers(size, h, a)} ::
          Head(base, free, live, h) && Covers(size, h, a) ==> a in cell && cell[a] == h)
    && (forall a {:trigger cell[a]} :: a in cell ==>
          base + UNIT <= a && Head(base, free, live, cell[a]) && Covers(size, cell[a], a))
  }

  /** No free block ends where another begins. */
  ghost predicate Coalesced(free: set<nat>, size: map<nat, nat>) {
    forall f {:trigger size[f]} :: f in free && f in size && size[f] > 0 ==> End(f, size[f]) !in free
  }

  ghost function FreeBytes(free: set<nat>, cell: map<nat, nat>): (r: set<nat>) {
    set a | a in cell && cell[a] in free
  }

  ghost predicate Within(h: nat, units: nat, a: nat) {
    h <= a < End(h, units)
  }

  ghost function Bytes(h: nat, units: nat): (r: set<nat>) {
    set a | h <= a < End(h, units) && Within(h, units, a)
  }

  ghost function Grant(h: nat, units: nat): (r: map<nat, nat>) {
    map a | a in Bytes(h, units) :: h
  }

  // ---- the free list is determined by which bytes are free -----------------------

  lemma HeaderIsAStart(base: nat, free: set<nat>, live: set<nat>, size: map<nat, nat>, cell: map<nat, nat>, f: nat)
    requires BlocksOk(base, free, live, size, cell) && Coalesced(free, size) && f in free && f != base
    ensures f in FreeBytes(free, cell) && f > 0 && f - 1 !in FreeBytes(free, cell)
    ensures f in size && size[f] > 0 && End(f, size[f]) !in FreeBytes(free, cell)
    ensures forall a :: f <= a < End(f, size[f]) ==> a in FreeBytes(free, cell)
  {
    assert Head(base, free, live, f);
    var e := End(f, size[f]);
    var last: nat := e - 1;
    assert Covers(size, f, f) && Covers(size, f, last);
    forall a | f <= a < e ensures a in FreeBytes(free, cell) {
      assert Covers(size, f, a);
    }
    if e in cell {
      var g: nat := cell[e];
      assert Covers(size, g, last) || g == e;
    }
    if f - 1 in cell {
      var g: nat := cell[f - 1];
      assert Covers(size, g, f) || End(g, size[g]) == f;
    }
  }

  lemma StartIsAHeader(base: nat, free: set<nat>, live: set<nat>, size: map<nat, nat>, cell: map<nat, nat>, f: nat)
    requires BlocksOk(base, free, live, size, cell)
    requires f in FreeBytes(free, cell) && f > 0 && f - 1 !in FreeBytes(free, cell)
    ensures f in free
  {
    var before: nat := f - 1;
    assert Covers(size, cell[f], before) || cell[f] == f;
  }

  /** Two heaps with the same free bytes have the same free headers, sizes and ring. */
  lemma Canonical(base: nat, free: set<nat>, live: set<nat>, size: map<nat, nat>, cell: map<nat, nat>,
                  free': set<nat>, live': set<nat>, size': map<nat, nat>, cell': map<nat, nat>)
    requires BlocksOk(base, free, live, size, cell) && Coalesced(free, size)
    requires BlocksOk(base, free', live', size', cell') && Coalesced(free', size')
    requires FreeBytes(free, cell) == FreeBytes(free', cell')
    ensures free == free' && forall f :: f in free ==> f in size && f in size' && size[f] == size'[f]
  {
    forall f | f in free ensures f in free' && f in size && f in size' && size[f] == size'[f] {
      if f != base {
        HeaderIsAStart(base, free, live, size, cell, f);
        StartIsAHeader(base, free', live', size', cell', f);
        HeaderIsAStart(base, free', live', size', cell', f);
        var e, e' := End(f, size[f]), End(f, size'[f]);
        assert e < e' ==> e in FreeBytes(free', cell');
        assert e' < e ==> e' in FreeBytes(free, cell);
      }
    }
    forall f | f in free' ensures f in free {
      if f != base {
        HeaderIsAStart(base, free', live', size', cell', f);
        StartIsAHeader(base, free, live, size, cell, f);
      }
    }
  }

  lemma SameRing(base: nat, free: set<nat>, ptr: map<nat, nat>, ptr': map<nat, nat>)
    requires RingOk(base, free, ptr) && RingOk(base, free, ptr')
    ensures forall f :: f in free ==> f in ptr && f in ptr' && ptr[f] == ptr'[f]
  {
    forall f | f in free ensures f in ptr && f in ptr' && ptr[f] == ptr'[f] {
      assert Linked(base, free, ptr, f) && Linked(base, free, ptr', f);
    }
  }

  // ---- the ring read as a list ---------------------------------------------------

  ghost function Above(free: set<nat>, f: nat): (r: set<nat>) {
    set g | g in free && g > f
  }

  lemma StepUp(base: nat, free: set<nat>, ptr: map<nat, nat>, f: nat)
    requires RingOk(base, free, ptr) && f in free
    ensures Linked(base, free, ptr, f)
    ensures ptr[f] > f ==> Above(free, f) == Above(free, ptr[f]) + {ptr[f]} && |Above(free, ptr[f])| < |Above(free, f)|
    ensures ptr[f] <= f ==> ptr[f] == base && Above(free, f) == {}
  {
    assert Linked(base, free, ptr, f);
    if ptr[f] > f {
      assert Above(free, f) == Above(free, ptr[f]) + {ptr[f]};
    }
  }

  /** The headers met from f upwards to the top of the ring. */
  ghost function Upward(base: nat, free: set<nat>, ptr: map<nat, nat>, f: nat): (r: seq<nat>)
    requires RingOk(base, free, ptr) && f in free
    decreases |Above(free, f)|
  {
    StepUp(base, free, ptr, f);
    if ptr[f] <= f then [f] else [f] + Upward(base, free, ptr, ptr[f])
  }

  /** Following ptr from any header lists exactly the free headers at or above it, in strictly
      ascending order; the last one leads back to base. From base this is the whole ring. */
  lemma {:induction false} UpwardListsFree(base: nat, free: set<nat>, ptr: map<nat, nat>, f: nat)
    requires RingOk(base, free, ptr) && f in free
    ensures Lists(base, free, ptr, f, Upward(base, free, ptr, f))
    decreases |Above(free, f)|
  {
    hide RingOk, Next;
    StepUp(base, free, ptr, f);
    if ptr[f] > f {
      UpwardListsFree(base, free, ptr, ptr[f]);
      Prepend(base, free, ptr, f, Upward(base, free, ptr, ptr[f]));
    } else {
      forall g ensures g in [f] <==> g in free && g >= f {
        assert g in free && g > f <==> g in Above(free, f);
      }
    }
  }

  /** r lists the free headers from f up. */
  ghost predicate Lists(base: nat, free: set<nat>, ptr: map<nat, nat>, f: nat, r: seq<nat>) {
    && |r| > 0 && r[0] == f
    && (forall j, k :: 0 <= j < k < |r| ==> r[j] < r[k])
    && (forall g :: g in r <==> g in free && g >= f)
    && r[|r| - 1] in ptr && ptr[r[|r| - 1]] == base
    && forall k {:trigger ptr[r[k]]} {:trigger r[k] in ptr} :: 0 <= k < |r| - 1 ==> r[k] in ptr && ptr[r[k]] == r[k + 1]
  }

  lemma Prepend(base: nat, free: set<nat>, ptr: map<nat, nat>, f: nat, s: seq<nat>)
    requires f in free && f in ptr && ptr[f] > f && Above(free, f) == Above(free, ptr[f]) + {ptr[f]}
    requires Lists(base, free, ptr, ptr[f], s)
    ensures Lists(base, free, ptr, f, [f] + s)
  {
    var r := [f] + s;
    forall g ensures g in r <==> g in free && g >= f {
      assert g in free && g > f <==> g in Above(free, f);
      assert g in free && g > ptr[f] <==> g in Above(free, ptr[f]);
      assert g in r <==> g == f || g in s;
    }
    forall k | 0 <= k < |r| - 1 ensures r[k] in ptr && ptr[r[k]] == r[k + 1] {
      if k > 0 { assert r[k] == s[k - 1] && s[k - 1] in ptr && ptr[s[k - 1]] == s[k]; }
    }
  }

  // ---- changes to the heap -------------------------------------------------------

  lemma InsertRing(base: nat, free: set<nat>, ptr: map<nat, nat>, p: nat, bp: nat)
    requires RingOk(base, free, ptr) && p in free && bp !in free && p < bp
    requires forall g :: g in free ==> g <= p || bp < g
    ensures p in ptr && RingOk(base, free + {bp}, ptr[bp := ptr[p]][p := bp])
  {
    assert Linked(base, free, ptr, p);
    var free', ptr' := free + {bp}, ptr[bp := ptr[p]][p := bp];
    forall f | f in free' ensures Linked(base, free', ptr', f) {
      if f != bp { assert Linked(base, free, ptr, f); }
    }
  }

  lemma RemoveRing(base: nat, free: set<nat>, ptr: map<nat, nat>, p: nat)
    requires RingOk(base, free, ptr) && p in free && p in ptr && ptr[p] != base
    ensures ptr[p] in ptr && RingOk(base, free - {ptr[p]}, ptr[p := ptr[ptr[p]]])
  {
    assert Linked(base, free, ptr, p);
    var n: nat := ptr[p];
    assert Linked(base, free, ptr, n);
    var free', ptr' := free - {n}, ptr[p := ptr[n]];
    forall f | f in free' ensures Linked(base, free', ptr', f) {
      assert Linked(base, free, ptr, f);
    }
  }

  /** A free block takes over the free block that begins where it ends. */
  lemma MergeBlocks(base: nat, free: set<nat>, live: set<nat>, size: map<nat, nat>, cell: map<nat, nat>, f: nat, n: nat)
    requires BlocksOk(base, free, live, size, cell) && f in free && n in free && f != base && n != base
    requires f in size && n in size && End(f, size[f]) == n
    ensures BlocksOk(base, free - {n}, live, size[f := size[f] + size[n]], Moved(cell, n, f))
    ensures FreeBytes(free - {n}, Moved(cell, n, f)) == FreeBytes(free, cell)
  {
    var free', size', cell' := free - {n}, size[f := size[f] + size[n]], Moved(cell, n, f);
    assert Head(base, free, live, f) && Head(base, free, live, n);
    forall h | Head(base, free', live, h) ensures h in size' && size'[h] >= 1 {
      assert Head(base, free, live, h);
    }
    forall h, a | Head(base, free', live, h) && Covers(size', h, a) ensures a in cell' && cell'[a] == h {
      assert Head(base, free, live, h);
      assert Covers(size, h, a) || (h == f && Covers(size, n, a));
    }
    forall a | a in cell' ensures base + UNIT <= a && Head(base, free', live, cell'[a]) && Covers(size', cell'[a], a) {
      assert Covers(size, cell[a], a);
    }
  }

  /** The bytes of block n handed to block f. */
  ghost function Moved(cell: map<nat, nat>, n: nat, f: nat): (r: map<nat, nat>)
    ensures r.Keys == cell.Keys
  {
    map a | a in cell :: if cell[a] == n then f else cell[a]
  }

  /** The bytes of block p from h on made into a block of their own. */
  ghost function Cut(cell: map<nat, nat>, p: nat, h: nat): (r: map<nat, nat>)
    ensures r.Keys == cell.Keys
  {
    map a | a in cell :: if cell[a] == p && a >= h then h else cell[a]
  }

  lemma CutStart(base: nat, free: set<nat>, live: set<nat>, size: map<nat, nat>, cell: map<nat, nat>, p: nat,
                 units: nat)
    requires BlocksOk(base, free, live, size, cell) && p in free && p in size && 0 < units < size[p]
    ensures var h := End(p, size[p] - units);
            && Head(base, free, live, p) && !Head(base, free, live, h) && h != base && h !in free && h !in live
  {
    var h := End(p, size[p] - units);
    assert Head(base, free, live, p) && Covers(size, p, h);
    assert !Head(base, free, live, h) by {
      assert Head(base, free, live, h) ==> Covers(size, h, h);
    }
  }

  lemma CutCovers(base: nat, free: set<nat>, live: set<nat>, size: map<nat, nat>, cell: map<nat, nat>, p: nat,
                  units: nat)
    requires BlocksOk(base, free, live, size, cell) && p in free && p in size && 0 < units < size[p]
    ensures var h := End(p, size[p] - units);
            var live', size' := live + {h}, size[p := size[p] - units][h := units];
            && (forall g :: Head(base, free, live', g) ==> g in size' && size'[g] >= 1)
            && (forall g, a :: Head(base, free, live', g) && Covers(size', g, a) ==>
                  a in Cut(cell, p, h) && Cut(cell, p, h)[a] == g)
  {
    CutStart(base, free, live, size, cell, p, units);
    var h := End(p, size[p] - units);
    var live', size', cell' := live + {h}, size[p := size[p] - units][h := units], Cut(cell, p, h);
    forall g | Head(base, free, live', g) ensures g in size' && size'[g] >= 1 {
      assert g == h || Head(base, free, live, g);
    }
    forall g, a | Head(base, free, live', g) && Covers(size', g, a) ensures a in cell' && cell'[a] == g {
      assert g == h || Head(base, free, live, g);
      assert if g == h then Covers(size, p, a) else Covers(size, g, a);
    }
  }

  lemma CutCovered(base: nat, free: set<nat>, live: set<nat>, size: map<nat, nat>, cell: map<nat, nat>, p: nat,
                   units: nat)
    requires BlocksOk(base, free, live, size, cell) && p in free && p in size && 0 < units < size[p]
    ensures var h := End(p, size[p] - units);
            var live', size', cell' := live + {h}, size[p := size[p] - units][h := units], Cut(cell, p, h);
            forall a :: a in cell' ==>
              base + UNIT <= a && Head(base, free, live', cell'[a]) && Covers(size', cell'[a], a)
  {
    CutStart(base, free, live, size, cell, p, units);
    var h := End(p, size[p] - units);
    var live', size', cell' := live + {h}, size[p := size[p] - units][h := units], Cut(cell, p, h);
    forall a | a in cell' ensures base + UNIT <= a && Head(base, free, live', cell'[a]) && Covers(size', cell'[a], a) {
      assert Covers(size, cell[a], a);
    }
  }

  lemma CutBytes(base: nat, free: set<nat>, live: set<nat>, size: map<nat, nat>, cell: map<nat, nat>, p: nat,
                 units: nat)
    requires BlocksOk(base, free, live, size, cell) && p in free && p in size && 0 < units < size[p]
    ensures var h := End(p, size[p] - units);
            FreeBytes(free, Cut(cell, p, h)) == FreeBytes(free, cell) - Bytes(h, units)
  {
    CutStart(base, free, live, size, cell, p, units);
    var h := End(p, size[p] - units);
    forall a | a in cell ensures a in Bytes(h, units) <==> cell[a] == p && a >= h {
      assert Covers(size, cell[a], a);
      assert a in Bytes(h, units) <==> Within(h, units, a);
      assert Within(h, units, a) ==> Covers(size, p, a);
    }
  }

  /** The upper units of a free block made into a live block. */
  lemma CutBlocks(base: nat, free: set<nat>, live: set<nat>, size: map<nat, nat>, cell: map<nat, nat>, p: nat,
                  units: nat)
    requires BlocksOk(base, free, live, size, cell) && Coalesced(free, size)
    requires p in free && p in size && 0 < units < size[p]
    ensures var h := End(p, size[p] - units);
            && BlocksOk(base, free, live + {h}, size[p := size[p] - units][h := units], Cut(cell, p, h))
            && Coalesced(free, size[p := size[p] - units][h := units])
            && h !in free && h !in live
            && FreeBytes(free, Cut(cell, p, h)) == FreeBytes(free, cell) - Bytes(h, units)
  {
    hide Cut, FreeBytes, Bytes, Covers;
    CutStart(base, free, live, size, cell, p, units);
    CutCovers(base, free, live, size, cell, p, units);
    CutCovered(base, free, live, size, cell, p, units);
    CutBytes(base, free, live, size, cell, p, units);
  }

  /** A whole free block handed out. */
  lemma TakeBlocks(base: nat, free: set<nat>, live: set<nat>, size: map<nat, nat>, cell: map<nat, nat>, p: nat)
    requires BlocksOk(base, free, live, size, cell) && Coalesced(free, size) && p in free && p != base
    ensures BlocksOk(base, free - {p}, live + {p}, size, cell) && Coalesced(free - {p}, size)
    ensures p in size && FreeBytes(free - {p}, cell) == FreeBytes(free, cell) - Bytes(p, size[p])
  {
    assert Head(base, free, live, p);
    forall h ensures Head(base, free - {p}, live + {p}, h) <==> Head(base, free, live, h) {
    }
    forall a | a in cell ensures a in Bytes(p, size[p]) <==> cell[a] == p {
      assert a in Bytes(p, size[p]) <==> Within(p, size[p], a);
      assert Within(p, size[p], a) ==> Covers(size, p, a);
    }
  }

  /** A live block made free, before it is joined to its neighbours. */
  lemma GiveBlocks(base: nat, free: set<nat>, live: set<nat>, size: map<nat, nat>, cell: map<nat, nat>, p: nat)
    requires BlocksOk(base, free, live, size, cell) && p in live
    ensures BlocksOk(base, free + {p}, live - {p}, size, cell)
    ensures p in size && FreeBytes(free + {p}, cell) == FreeBytes(free, cell) + Bytes(p, size[p])
  {
    assert Head(base, free, live, p);
    forall h ensures Head(base, free + {p}, live - {p}, h) <==> Head(base, free, live, h) {
    }
    forall a ensures a in Bytes(p, size[p]) <==> a in cell && cell[a] == p {
      assert a in Bytes(p, size[p]) <==> Within(p, size[p], a);
      assert Within(p, size[p], a) ==> Covers(size, p, a);
    }
  }

  /** Morecore's new bytes: a live block until it is given to free. */
  lemma GrowBlocks(base: nat, free: set<nat>, live: set<nat>, size: map<nat, nat>, cell: map<nat, nat>, h: nat,
                   units: nat)
    requires BlocksOk(base, free, live, size, cell) && Coalesced(free, size) && units > 0 && h >= base + UNIT
    requires forall a :: a in cell ==> a < h
    ensures h !in free && h !in live
    ensures BlocksOk(base, free, live + {h}, size[h := units], cell + Grant(h, units))
            && Coalesced(free, size[h := units])
    ensures FreeBytes(free, cell + Grant(h, units)) == FreeBytes(free, cell)
  {
    hide Grant, FreeBytes, Covers;
    GrowStart(base, free, live, size, cell, h);
    GrowCovers(base, free, live, size, cell, h, units);
    GrowCovered(base, free, live, size, cell, h, units);
    forall g | Head(base, free, live + {h}, g) ensures g in size[h := units] && size[h := units][g] >= 1 {
      assert g == h || Head(base, free, live, g);
    }
    GrowBytes(base, free, live, size, cell, h, units);
  }

  lemma GrowStart(base: nat, free: set<nat>, live: set<nat>, size: map<nat, nat>, cell: map<nat, nat>, h: nat)
    requires BlocksOk(base, free, live, size, cell) && forall a :: a in cell ==> a < h
    ensures !Head(base, free, live, h)
  {
    assert Head(base, free, live, h) ==> Covers(size, h, h);
  }

  lemma GrowCovers(base: nat, free: set<nat>, live: set<nat>, size: map<nat, nat>, cell: map<nat, nat>, h: nat,
                   units: nat)
    requires BlocksOk(base, free, live, size, cell) && forall a :: a in cell ==> a < h
    ensures var size', cell' := size[h := units], cell + Grant(h, units);
            forall g, a :: Head(base, free, live + {h}, g) && Covers(size', g, a) ==> a in cell' && cell'[a] == g
  {
    var size', cell' := size[h := units], cell + Grant(h, units);
    forall g, a | Head(base, free, live + {h}, g) && Covers(size', g, a) ensures a in cell' && cell'[a] == g {
      if g == h {
        assert Within(h, units, a);
      } else {
        assert Head(base, free, live, g) && Covers(size, g, a);
      }
    }
  }

  lemma GrowCovered(base: nat, free: set<nat>, live: set<nat>, size: map<nat, nat>, cell: map<nat, nat>, h: nat,
                    units: nat)
    requires BlocksOk(base, free, live, size, cell) && !Head(base, free, live, h) && h >= base + UNIT
    ensures var size', cell' := size[h := units], cell + Grant(h, units);
            forall a :: a in cell' ==>
              base + UNIT <= a && Head(base, free, live + {h}, cell'[a]) && Covers(size', cell'[a], a)
  {
    var size', cell' := size[h := units], cell + Grant(h, units);
    forall a | a in cell'
      ensures base + UNIT <= a && Head(base, free, live + {h}, cell'[a]) && Covers(size', cell'[a], a)
    {
      if a !in cell { assert Within(h, units, a); } else { assert Covers(size, cell[a], a); }
    }
  }

  lemma GrowBytes(base: nat, free: set<nat>, live: set<nat>, size: map<nat, nat>, cell: map<nat, nat>, h: nat,
                  units: nat)
    requires BlocksOk(base, free, live, size, cell) && h !in free && forall a :: a in cell ==> a < h
    ensures FreeBytes(free, cell + Grant(h, units)) == FreeBytes(free, cell)
  {
  }

  // ---- the int that sbrk takes -----------------------------------------------------

  /** The value of an unsigned long passed as an int. */
  function AsInt(x: nat): (r: int) {
    var low := x % 0x1_0000_0000;
    if low < 0x8000_0000 then low else low - 0x1_0000_0000
  }

  /** The units malloc takes for a request, header included. */
  function Units(nbytes: nat): (r: nat)
    requires nbytes < 0x1_0000_0000
    ensures 0 < r <= 0x1000_0001
    ensures UNIT * (r - 1) >= nbytes > UNIT * (r - 2) || (nbytes == 0 && r == 1)
  {
    (nbytes + UNIT - 1) / UNIT + 1
  }

  function Request(nu: nat): (r: nat) {
    if nu < CHUNK then CHUNK else nu
  }

  /** morecore gets as many bytes as it will hand to free exactly for requests of at most
      2^31 - 32 bytes; for larger ones sbrk is asked for less than that: for a negative amount,
      or for none or one unit. */
  lemma SbrkArgumentFits(nbytes: nat)
    requires nbytes < 0x1_0000_0000
    ensures AsInt(UNIT * Request(Units(nbytes))) == UNIT * Request(Units(nbytes)) <==> nbytes <= 0x7fff_ffe0
    ensures nbytes > 0x7fff_ffe0 ==> AsInt(UNIT * Request(Units(nbytes))) <= UNIT
    ensures nbytes == 0xffff_ffff ==> AsInt(UNIT * Request(Units(nbytes))) == UNIT
  {
    var x := UNIT * Request(Units(nbytes));
    assert x >= 0x8000_0000 <==> nbytes > 0x7fff_ffe0;
    assert x < 0x1_0000_0000 || x == 0x1_0000_0000 || x == 0x1_0000_0010;
  }

  // ---- joining a freed block to its neighbours ---------------------------------------

  lemma NoOverlap(base: nat, free: set<nat>, live: set<nat>, size: map<nat, nat>, cell: map<nat, nat>, f: nat, g: nat)
    requires BlocksOk(base, free, live, size, cell) && (f == base || Head(base, free, live, f))
             && Head(base, free, live, g) && f < g
    ensures f in size && End(f, size[f]) <= g
  {
    assert Covers(size, g, g);
    assert f == base || Covers(size, f, g) || End(f, size[f]) <= g;
  }

  lemma Headers(base: nat, free: set<nat>, live: set<nat>, size: map<nat, nat>, cell: map<nat, nat>)
    requires BlocksOk(base, free, live, size, cell)
    ensures free !! live && base in free && base in size && size[base] == 0
    ensures forall h :: h in free || h in live ==> h in size && (h == base || size[h] >= 1)
  {
    forall h | h in free || h in live ensures h in size && (h == base || size[h] >= 1) {
      assert h == base || Head(base, free, live, h);
    }
  }

  lemma RingBase(base: nat, free: set<nat>, ptr: map<nat, nat>)
    requires RingOk(base, free, ptr)
    ensures base in free && forall f :: f in free ==> base <= f && f in ptr
  {
    forall f | f in free ensures f in ptr { assert Linked(base, free, ptr, f); }
  }

  lemma BlockIsFree(base: nat, free: set<nat>, live: set<nat>, size: map<nat, nat>, cell: map<nat, nat>, p: nat,
                    units: nat)
    requires BlocksOk(base, free, live, size, cell) && p in free && p in size && size[p] >= units > 0
    ensures p != base && Bytes(End(p, size[p] - units), units) <= FreeBytes(free, cell)
  {
    assert Head(base, free, live, p);
    forall a | a in Bytes(End(p, size[p] - units), units) ensures a in FreeBytes(free, cell) {
      assert Within(End(p, size[p] - units), units, a);
      assert Covers(size, p, a);
    }
  }

  lemma NotItsOwnNext(base: nat, free: set<nat>, ptr: map<nat, nat>, p: nat)
    requires RingOk(base, free, ptr) && p in free && p in ptr && ptr[p] != base
    ensures ptr[p] != p
  {
    assert Linked(base, free, ptr, p);
  }

  lemma LowerHeader(base: nat, free: set<nat>, ptr: map<nat, nat>, p: nat, bp: nat)
    requires RingOk(base, free, ptr) && base > 0 && Below(free, p, bp)
    ensures 0 < p < bp
  {
  }

  lemma GrantBounds(cell: map<nat, nat>, h: nat, units: nat)
    requires forall a :: a in cell ==> a < h
    ensures forall a :: a in cell + Grant(h, units) ==> a < End(h, units) || a < h
    ensures (cell + Grant(h, units)).Keys == cell.Keys + Bytes(h, units) && cell.Keys !! Bytes(h, units)
  {
    forall a | a in Bytes(h, units) ensures h <= a < End(h, units) { assert Within(h, units, a); }
  }

  /** Coalesced, but for p and bp. */
  ghost predicate CoalescedBut(free: set<nat>, size: map<nat, nat>, p: nat, bp: nat) {
    forall f {:trigger size[f]} :: f in free && f in size && size[f] > 0 && End(f, size[f]) in free ==>
        f == p && End(f, size[f]) == bp
  }

  /** p is the free header just below bp. */
  ghost predicate Below(free: set<nat>, p: nat, bp: nat) {
    p in free && p < bp && forall g :: g in free ==> g <= p || bp < g
  }

  lemma GivenIsCoalesced(base: nat, free: set<nat>, live: set<nat>, ptr: map<nat, nat>, size: map<nat, nat>,
                         cell: map<nat, nat>, p: nat, bp: nat)
    requires RingOk(base, free, ptr) && BlocksOk(base, free, live, size, cell) && Coalesced(free, size) && bp in live
             && Below(free, p, bp)
    ensures p in ptr && bp in size && ptr[p] in free && (ptr[p] == base || bp < ptr[p])
    ensures End(bp, size[bp]) != ptr[p] ==> CoalescedBut(free + {bp}, size, p, bp)
    ensures End(bp, size[bp]) == ptr[p] ==>
              && ptr[p] != base && ptr[p] in size
              && CoalescedBut(free + {bp} - {ptr[p]}, size[bp := size[bp] + size[ptr[p]]], p, bp)
  {
    assert Linked(base, free, ptr, p);
    assert Head(base, free, live, bp);
    var n: nat := ptr[p];
    forall f | f in free && f in size && size[f] > 0 ensures End(f, size[f]) == bp ==> f == p {
      assert Head(base, free, live, f) by { assert f != base; }
      if f < p { NoOverlap(base, free, live, size, cell, f, p); }
    }
    if n != base {
      assert Head(base, free, live, n);
      NoOverlap(base, free, live, size, cell, bp, n);
      forall g | g in free && g > bp ensures n <= g { }
    }
  }

  /** Everything the two joins of free can end in. */
  lemma JoinedIsCoalesced(base: nat, free: set<nat>, live: set<nat>, size: map<nat, nat>, cell: map<nat, nat>, p: nat,
                          bp: nat)
    requires BlocksOk(base, free, live, size, cell) && CoalescedBut(free, size, p, bp)
    requires p in free && bp in free && p < bp && bp != base && p in size && bp in size
    ensures End(p, size[p]) != bp ==> Coalesced(free, size)
    ensures End(p, size[p]) == bp ==> p != base && Coalesced(free - {bp}, size[p := size[p] + size[bp]])
  {
    assert Head(base, free, live, bp);
    assert Covers(size, bp, bp);
  }

  // ---- the walk round the ring ---------------------------------------------------------

  /** The headers met walking from p up to and including f. */
  ghost function Remaining(free: set<nat>, p: nat, f: nat): (r: set<nat>) {
    set g | g in free && if p <= f then p <= g <= f else g >= p || g <= f
  }

  lemma RemainingStep(base: nat, free: set<nat>, ptr: map<nat, nat>, p: nat, f: nat)
    requires RingOk(base, free, ptr) && p in free && f in free
    ensures p in ptr && ptr[p] in free
    ensures p == f ==> Remaining(free, p, f) == {f} && Remaining(free, ptr[p], f) == free
    ensures p != f ==> Remaining(free, ptr[p], f) == Remaining(free, p, f) - {p} && p in Remaining(free, p, f)
    ensures p != f ==> |Remaining(free, ptr[p], f)| < |Remaining(free, p, f)|
  {
    assert Linked(base, free, ptr, p);
    if p != f {
      assert Remaining(free, ptr[p], f) == Remaining(free, p, f) - {p};
    }
  }

  /** Far above the memory that eager sbrk can back with frames; keeps sizes within 32 bits. */
  const HEAP_MAX := 0x10_0000_0000

  class Allocator {
    const base: nat
    var ptr: map<nat, nat>
    var size: map<nat, nat>
    var freep: nat
    var brk: nat
    ghost var free: set<nat>
    ghost var live: set<nat>
    ghost var cell: map<nat, nat>

    ghost predicate Valid()
      reads this
    {
      && 0 < base && base + UNIT <= brk
      && (forall a :: a in cell ==> a < brk && a < HEAP_MAX)
      && if freep == 0 then free == {} && live == {} && cell == map[]
         else freep in free && RingOk(base, free, ptr) && BlocksOk(base, free, live, size, cell)
              && Coalesced(free, size)
    }

    constructor (base_: nat, brk_: nat)
      requires 0 < base_ && base_ + UNIT <= brk_
      ensures Valid() && base == base_ && brk == brk_ && live == {} && cell == map[]
    {
      base, brk, freep := base_, brk_, 0;
      ptr, size, free, live, cell := map[], map[], {}, {}, map[];
    }

    /** Blocks handed out overlap neither each other nor a free block, and sizes fit 32 bits. */
    lemma LiveBlocksApart(h: nat, g: nat)
      requires Valid() && h in live && (g in live || g in free) && h != g && g != base
      ensures h in size && g in size && (End(h, size[h]) <= g || End(g, size[g]) <= h)
      ensures size[h] < 0x1_0000_0000
    {
      assert Head(base, free, live, h) && Head(base, free, live, g);
      if h < g { NoOverlap(base, free, live, size, cell, h, g); }
      else { NoOverlap(base, free, live, size, cell, g, h); }
      var last: nat := End(h, size[h]) - 1;
      assert Covers(size, h, last) && Covers(size, h, h);
    }

    /** The search in free: from freep round to the free header just below bp. */
    method FindPlace(bp: nat) returns (p: nat)
      requires RingOk(base, free, ptr) && freep in free && bp !in free && bp > base
      ensures Below(free, p, bp)
    {
      p := freep;
      StepUp(base, free, ptr, p);
      while !(bp > p && bp < ptr[p]) && !(p >= ptr[p] && (bp > p || bp < ptr[p]))
        invariant p in free && Linked(base, free, ptr, p)
        decreases if p > bp then 1 else 0, |Above(free, p)|
      {
        StepUp(base, free, ptr, p);
        p := ptr[p];
        StepUp(base, free, ptr, p);
      }
    }

    /** free: the block's bytes become free and are joined to free neighbours on either side. */
    method Free(ap: nat)
      requires Valid() && ap >= UNIT && ap - UNIT in live
      modifies this`ptr, this`size, this`freep, this`free, this`live, this`cell
      ensures Valid() && freep != 0
      ensures var bp := ap - UNIT;
              && bp in old(size) && live == old(live) - {bp} && cell.Keys == old(cell).Keys
              && FreeBytes(free, cell) == FreeBytes(old(free), old(cell)) + Bytes(bp, old(size)[bp])
              && (forall h :: h in live ==> h in size && h in old(size) && size[h] == old(size)[h])
      ensures var bp := ap - UNIT; exists g :: g in free && g in size && size[g] >= old(size)[bp]
      ensures Below(old(free), freep, ap - UNIT)
    {
      hide RingOk, BlocksOk, Coalesced, CoalescedBut, FreeBytes, Bytes, Below;
      var bp := ap - UNIT;
      LiveHeader(bp);
      var p := FindPlace(bp);
      LowerHeader(base, free, ptr, p, bp);
      JoinUpper(p, bp);
      JoinLower(p, bp);
      freep := p;
    }

    lemma LiveHeader(bp: nat)
      requires Valid() && bp in live
      ensures bp !in free && bp > base && freep != 0
      ensures forall h :: h in free || h in live ==> h in size
    {
      Headers(base, free, live, size, cell);
      assert Head(base, free, live, bp);
      assert Covers(size, bp, bp);
    }

    /** The first half of free: bp takes over the block above it, or points to it. Until the
        second half, p still points past bp. */
    method JoinUpper(p: nat, bp: nat)
      requires RingOk(base, free, ptr) && BlocksOk(base, free, live, size, cell) && Coalesced(free, size)
      requires bp in live && Below(free, p, bp)
      modifies this`ptr, this`size, this`free, this`live, this`cell
      ensures p in free && bp in free && RingOk(base, free, ptr[p := bp]) && BlocksOk(base, free, live, size, cell)
      ensures CoalescedBut(free, size, p, bp) && bp in ptr
      ensures bp in old(size) && live == old(live) - {bp} && cell.Keys == old(cell).Keys
      ensures FreeBytes(free, cell) == FreeBytes(old(free), old(cell)) + Bytes(bp, old(size)[bp])
      ensures bp in size && size[bp] >= old(size)[bp]
      ensures forall h :: h in live && h in old(size) ==> h in size && size[h] == old(size)[h]
    {
      hide RingOk, BlocksOk, Coalesced, CoalescedBut, FreeBytes, Bytes;
      Headers(base, free, live, size, cell);
      GivenIsCoalesced(base, free, live, ptr, size, cell, p, bp);
      GiveBlocks(base, free, live, size, cell, bp);
      InsertRing(base, free, ptr, p, bp);
      free, live := free + {bp}, live - {bp};
      var n: nat := ptr[p];
      if End(bp, size[bp]) == n {
        MergeBlocks(base, free, live, size, cell, bp, n);
        RemoveRing(base, free, ptr[bp := n][p := bp], bp);
        size := size[bp := size[bp] + size[n]];
        assert ptr[bp := n][p := bp][bp := ptr[n]] == ptr[bp := ptr[n]][p := bp];
        ptr := ptr[bp := ptr[n]];
        free, cell := free - {n}, Moved(cell, n, bp);
      } else {
        ptr := ptr[bp := n];
      }
    }

    /** The second half of free: p takes over bp if it ends where bp begins, else points to it. */
    method JoinLower(p: nat, bp: nat)
      requires p in free && bp in free && p < bp && bp in ptr && bp in size
      requires RingOk(base, free, ptr[p := bp]) && BlocksOk(base, free, live, size, cell)
               && CoalescedBut(free, size, p, bp)
      modifies this`ptr, this`size, this`free, this`cell
      ensures p in free && RingOk(base, free, ptr) && BlocksOk(base, free, live, size, cell) && Coalesced(free, size)
      ensures cell.Keys == old(cell).Keys && FreeBytes(free, cell) == FreeBytes(old(free), old(cell))
      ensures exists g :: g in free && g in size && size[g] >= old(size)[bp]
      ensures forall h :: h in live && h in old(size) ==> h in size && size[h] == old(size)[h]
    {
      hide RingOk, BlocksOk, Coalesced, CoalescedBut, FreeBytes;
      Headers(base, free, live, size, cell);
      RingBase(base, free, ptr[p := bp]);
      JoinedIsCoalesced(base, free, live, size, cell, p, bp);
      if End(p, size[p]) == bp {
        MergeBlocks(base, free, live, size, cell, p, bp);
        RemoveRing(base, free, ptr[p := bp], p);
        assert ptr[p := bp][p := ptr[bp]] == ptr[p := ptr[bp]];
        size := size[p := size[p] + size[bp]];
        ptr := ptr[p := ptr[bp]];
        free, cell := free - {bp}, Moved(cell, bp, p);
        assert p in free && size[p] >= old(size)[bp];
      } else {
        ptr := ptr[p := bp];
      }
    }

    /** morecore: at least CHUNK units from sbrk, given to free; 0 if sbrk refuses. `skip` is what
        other code took from sbrk since, `refuse` whether sbrk is out of memory. */
    method Morecore(nunits: nat, refuse: bool, skip: nat) returns (p: nat)
      requires Valid() && freep != 0 && 0 < nunits && 16 * nunits < 0x8000_0000
      modifies this
      ensures Valid() && live == old(live) && freep != 0
      ensures forall h :: h in live ==> h in size && h in old(size) && size[h] == old(size)[h]
      ensures p == 0 ==> && free == old(free) && cell == old(cell) && size == old(size) && ptr == old(ptr)
                         && freep == old(freep)
                         && (refuse || old(brk) + skip + 16 * Request(nunits) > HEAP_MAX)
      ensures p != 0 ==>
                && p == freep && (exists g :: g in free && g in size && size[g] >= nunits)
                && old(cell).Keys !! Bytes(old(brk) + skip, Request(nunits))
                && cell.Keys == old(cell).Keys + Bytes(old(brk) + skip, Request(nunits))
                && FreeBytes(free, cell) == FreeBytes(old(free), old(cell)) + Bytes(old(brk) + skip, Request(nunits))
    {
      hide RingOk, BlocksOk, Coalesced, FreeBytes, Bytes, Grant;
      Headers(base, free, live, size, cell);
      var nu := Request(nunits);
      var hp := brk + skip;
      if refuse || hp + 16 * nu > HEAP_MAX {
        return 0;
      }
      brk := hp + AsInt(16 * nu);
      GrowBlocks(base, free, live, size, cell, hp, nu);
      size := size[hp := nu];
      live, cell := live + {hp}, cell + Grant(hp, nu);
      GrantBounds(old(cell), hp, nu);
      Free(hp + UNIT);
      p := freep;
    }

    /** Take `nunits` units out of the free block p, which follows prevp: all of it, or its upper end. */
    method Take(prevp: nat, p0: nat, nunits: nat) returns (p: nat)
      requires Valid() && freep != 0 && 0 < nunits
      requires prevp in free && prevp in ptr && p0 == ptr[prevp] && p0 in free && p0 in size && size[p0] >= nunits
      modifies this`ptr, this`size, this`freep, this`free, this`live, this`cell
      ensures Valid() && freep == prevp != 0
      ensures p !in old(live) && live == old(live) + {p} && p in size && size[p] == nunits
      ensures p == End(p0, old(size)[p0] - nunits)
      ensures forall h :: h in old(live) ==> h in size && h in old(size) && size[h] == old(size)[h]
      ensures cell.Keys == old(cell).Keys && FreeBytes(free, cell) == FreeBytes(old(free), old(cell)) - Bytes(p, nunits)
      ensures Bytes(p, nunits) <= FreeBytes(old(free), old(cell))
    {
      hide RingOk, BlocksOk, Coalesced;
      Headers(base, free, live, size, cell);
      RingBase(base, free, ptr);
      p := p0;
      BlockIsFree(base, free, live, size, cell, p, nunits);
      if size[p] == nunits {
        TakeBlocks(base, free, live, size, cell, p);
        RemoveRing(base, free, ptr, prevp);
        NotItsOwnNext(base, free, ptr, prevp);
        ptr := ptr[prevp := ptr[p]];
        free, live := free - {p}, live + {p};
      } else {
        CutBlocks(base, free, live, size, cell, p, nunits);
        ghost var h := End(p, size[p] - nunits);
        size := size[p := size[p] - nunits];
        p := End(p, size[p]);
        size := size[p := nunits];
        live, cell := live + {h}, Cut(cell, p0, h);
      }
      freep := prevp;
      RingBase(base, free, ptr);
    }

    /** malloc: the upper end of the first free block after freep that is large enough, asking sbrk for
        more only when there is none. 0 only if no free block is large enough and sbrk refuses. */
    method Malloc(nbytes: nat, refuse: bool, skip: nat) returns (r: nat, ghost grown: bool, ghost from: nat)
      requires Valid() && nbytes <= 0x7fff_ffe0
      modifies this
      ensures Valid() && freep != 0 && (grown ==> r != 0)
      ensures r == 0 ==>
                && live == old(live) && FreeBytes(free, cell) == FreeBytes(old(free), old(cell)) && cell == old(cell)
                && (forall f :: f in free ==> f in size && size[f] < Units(nbytes))
                && (refuse || old(brk) + skip + 16 * Request(Units(nbytes)) > HEAP_MAX)
      ensures r != 0 ==>
                && r >= UNIT && var h := r - UNIT;
                && h !in old(live) && live == old(live) + {h} && h in size && size[h] == Units(nbytes)
                && var got := if grown then Bytes(old(brk) + skip, Request(Units(nbytes))) else {};
                && cell.Keys == old(cell).Keys + got && old(cell).Keys !! got
                && Bytes(h, Units(nbytes)) <= FreeBytes(old(free), old(cell)) + got
                && FreeBytes(free, cell) == FreeBytes(old(free), old(cell)) + got - Bytes(h, Units(nbytes))
      ensures forall h :: h in old(live) ==> h in size && h in old(size) && size[h] == old(size)[h]
      ensures grown ==> NoneFits(old(free), old(size), Units(nbytes))
      ensures r != 0 && !grown ==>
                && FirstFit(old(free), old(size), old(freep), from, Units(nbytes))
                && r - UNIT == End(from, old(size)[from] - Units(nbytes))
                && freep in old(ptr) && old(ptr)[freep] == from
    {
      hide Valid, FreeBytes, Bytes, NoneFits, FirstFit, End;
      var nunits := Units(nbytes);
      SetUp();
      ghost var free0, size0 := free, size;
      var prevp, p;
      prevp, p, grown := Search(nunits, refuse, skip);
      from := p;
      if p == 0 {
        return 0, false, 0;
      }
      if old(freep) == 0 {
        BaseIsEmpty(old(free), old(size), free0, size0, p, freep, nunits, grown);
      }
      var h := Take(prevp, p, nunits);
      r := h + UNIT;
    }

    lemma BaseIsEmpty(free: set<nat>, size: map<nat, nat>, free0: set<nat>, size0: map<nat, nat>, p: nat, start: nat,
                      nunits: nat, grown: bool)
      requires free == {} && free0 == {base} && base in size0 && size0[base] == 0 && nunits > 0
      requires !grown ==> FirstFit(free0, size0, start, p, nunits)
      ensures grown && NoneFits(free, size, nunits)
    {
    }

    /** No free block is large enough. */
    ghost static predicate NoneFits(free: set<nat>, size: map<nat, nat>, nunits: nat) {
      forall f :: f in free ==> f in size && size[f] < nunits
    }

    /** Free block p is the first one after `start`, in the order of the ring, that is large enough. */
    ghost static predicate FirstFit(free: set<nat>, size: map<nat, nat>, start: nat, p: nat, nunits: nat) {
      && p in free && p in size && size[p] >= nunits
      && forall g :: g in free && g !in Remaining(free, p, start) ==> g in size && size[g] < nunits
    }

    /** The loop of malloc: once round the ring, then once more if sbrk gave memory. */
    method Search(nunits: nat, refuse: bool, skip: nat) returns (prevp: nat, p: nat, ghost grown: bool)
      requires Valid() && freep != 0 && 0 < nunits && 16 * nunits < 0x8000_0000
      modifies this
      ensures Valid() && freep != 0 && live == old(live) && (grown ==> p != 0)
      ensures p == 0 ==>
                && FreeBytes(free, cell) == FreeBytes(old(free), old(cell)) && cell == old(cell)
                && (forall f :: f in free ==> f in size && size[f] < nunits)
                && (refuse || old(brk) + skip + 16 * Request(nunits) > HEAP_MAX)
      ensures p != 0 ==>
                && prevp in free && prevp in ptr && p == ptr[prevp] && p in free && p in size && size[p] >= nunits
                && var got := if grown then Bytes(old(brk) + skip, Request(nunits)) else {};
                && cell.Keys == old(cell).Keys + got && old(cell).Keys !! got
                && FreeBytes(free, cell) == FreeBytes(old(free), old(cell)) + got
      ensures forall h :: h in old(live) ==> h in size && h in old(size) && size[h] == old(size)[h]
      ensures p != 0 && grown ==> NoneFits(old(free), old(size), nunits)
      ensures p != 0 && !grown ==> && free == old(free) && size == old(size) && ptr == old(ptr) && freep == old(freep)
                                   && FirstFit(free, size, freep, p, nunits)
    {
      hide Valid, FreeBytes, Bytes, RingOk, BlocksOk, Remaining;
      grown := false;
      prevp := freep;
      Walk(freep);
      p := ptr[prevp];
      while size[p] < nunits
        invariant Valid() && freep != 0 && live == old(live)
        invariant prevp in free && prevp in ptr && p == ptr[prevp] && p in free
        invariant forall h :: h in free || h in live ==> h in size
        invariant forall h :: h in old(live) ==> h in size && h in old(size) && size[h] == old(size)[h]
        invariant forall g :: g in free && g !in Remaining(free, p, freep) ==> size[g] < nunits
        invariant grown ==> exists g :: g in free && size[g] >= nunits
        invariant !grown ==> cell == old(cell) && brk == old(brk) && free == old(free)
        invariant !grown ==> size == old(size) && ptr == old(ptr) && freep == old(freep)
        invariant grown ==> NoneFits(old(free), old(size), nunits)
        invariant grown ==> cell.Keys == old(cell).Keys + Bytes(old(brk) + skip, Request(nunits))
        invariant grown ==> old(cell).Keys !! Bytes(old(brk) + skip, Request(nunits))
        invariant grown ==>
                    FreeBytes(free, cell) == FreeBytes(old(free), old(cell)) + Bytes(old(brk) + skip, Request(nunits))
        decreases if grown then 0 else 1, |Remaining(free, p, freep)|
      {
        Walk(p);
        if p == freep {
          p := Morecore(nunits, refuse, skip);
          if p == 0 {
            return freep, 0, false;
          }
          grown := true;
          Walk(freep);
        }
        prevp, p := p, ptr[p];
      }
      PositiveHeader(p);
    }

    /** One step of the walk, and what it leaves to visit. */
    lemma Walk(p: nat)
      requires Valid() && freep != 0 && (p in free || p == freep)
      ensures freep in free && p in ptr && ptr[p] in free
      ensures p == freep ==> Remaining(free, p, freep) == {freep} && Remaining(free, ptr[p], freep) == free
      ensures p != freep ==> Remaining(free, ptr[p], freep) == Remaining(free, p, freep) - {p}
      ensures p != freep ==> |Remaining(free, ptr[p], freep)| < |Remaining(free, p, freep)|
      ensures forall h :: h in free || h in live ==> h in size
    {
      RemainingStep(base, free, ptr, p, freep);
      Headers(base, free, live, size, cell);
    }

    lemma PositiveHeader(p: nat)
      requires Valid() && p in free
      ensures p > 0
    {
    }

    /** The first call of malloc makes the ring of base alone. */
    method SetUp()
      requires Valid()
      modifies this`ptr, this`size, this`freep, this`free
      ensures Valid() && freep != 0 && FreeBytes(free, cell) == FreeBytes(old(free), cell)
      ensures forall h :: h in live ==> h in size && h in old(size) && size[h] == old(size)[h]
      ensures if old(freep) == 0 then free == {base} && base in size && size[base] == 0
              else free == old(free) && size == old(size) && ptr == old(ptr) && freep == old(freep)
      ensures old(freep) == 0 ==> old(free) == {}
    {
      if freep == 0 {
        ptr, freep, size, free := ptr[base := base], base, size[base := 0], {base};
        assert Linked(base, free, ptr, base);
      } else {
        Headers(base, free, live, size, cell);
      }
    }

    /** Giving back at once what malloc returned restores the free list: the same headers, the same
        sizes, the same links; only freep may differ. */
    method MallocThenFree(nbytes: nat, refuse: bool, skip: nat) returns (r: nat, ghost grown: bool)
      requires Valid() && freep != 0 && nbytes <= 0x7fff_ffe0
      modifies this
      ensures Valid() && live == old(live)
      ensures !grown ==> free == old(free) && forall f :: f in free ==>
                && f in size && f in old(size) && size[f] == old(size)[f]
                && f in ptr && f in old(ptr) && ptr[f] == old(ptr)[f]
    {
      hide RingOk, BlocksOk, Coalesced, FreeBytes, Bytes;
      ghost var from;
      r, grown, from := Malloc(nbytes, refuse, skip);
      if r != 0 {
        Free(r);
      }
      if !grown {
        Canonical(base, old(free), old(live), old(size), old(cell), free, live, size, cell);
        SameRing(base, free, old(ptr), ptr);
      }
    }
  }
}
