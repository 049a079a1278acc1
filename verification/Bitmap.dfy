/** The free-block bitmap: one bit per block, BPB bits per bitmap block, low bit first. */
module Bitmap {
  import opened Blocks

  const BPB := 8192

  type BitBlock = b: seq<bv8> | |b| == BSIZE witness seq(BSIZE, _ => 0)

  /** 1 << k */
  function Mask(k: nat): (m: bv8)
    requires k < 8
  {
    if k == 0 then 1 else if k == 1 then 2 else if k == 2 then 4 else if k == 3 then 8
    else if k == 4 then 16 else if k == 5 then 32 else if k == 6 then 64 else 128
  }

  /** Bit k of a byte is set; the byte with it set; the byte with it cleared. */
  predicate Has(x: bv8, k: nat)
    requires k < 8
  {
    x & Mask(k) != 0
  }

  function With(x: bv8, k: nat): (r: bv8)
    requires k < 8
  {
    x | Mask(k)
  }

  function Less(x: bv8, k: nat): (r: bv8)
    requires k < 8
  {
    x & !Mask(k)
  }

  predicate Test(b: BitBlock, bi: nat)
    requires bi < BPB
  {
    Has(b[bi / 8], bi % 8)
  }

  function Set(b: BitBlock, bi: nat): (r: BitBlock)
    requires bi < BPB
  {
    b[bi / 8 := With(b[bi / 8], bi % 8)]
  }

  function Clear(b: BitBlock, bi: nat): (r: BitBlock)
    requires bi < BPB
  {
    b[bi / 8 := Less(b[bi / 8], bi % 8)]
  }

  lemma MaskBits(x: bv8, k: nat, j: nat)
    requires k < 8 && j < 8
    ensures ((x | Mask(k)) & Mask(j) != 0) == (j == k || x & Mask(j) != 0)
    ensures ((x & !Mask(k)) & Mask(j) != 0) == (j != k && x & Mask(j) != 0)
  {
  }

  lemma ByteBits(x: bv8, k: nat, j: nat)
    requires k < 8 && j < 8
    ensures Has(With(x, k), j) == (j == k || Has(x, j))
    ensures Has(Less(x, k), j) == (j != k && Has(x, j))
  {
    hide Mask;
    MaskBits(x, k, j);
  }

  /** Setting or clearing one bit changes that bit and no other. */
  lemma OneBitChanges(b: BitBlock, bi: nat, bj: nat)
    requires bi < BPB && bj < BPB
    ensures Test(Set(b, bi), bj) == (bj == bi || Test(b, bj))
    ensures Test(Clear(b, bi), bj) == (bj != bi && Test(b, bj))
  {
    hide Has, With, Less, Mask;
    if bj / 8 == bi / 8 {
      ByteBits(b[bi / 8], bi % 8, bj % 8);
    }
  }

  // ---- a bitmap of several blocks ----------------------------------------------

  predicate Bit(bits: seq<BitBlock>, b: nat)
    requires b < BPB * |bits|
  {
    Test(bits[b / BPB], b % BPB)
  }

  lemma BitAt(bits: seq<BitBlock>, k: nat, bi: nat)
    requires k * BPB + bi < BPB * |bits| && bi < BPB
    ensures k < |bits| && Bit(bits, k * BPB + bi) == Test(bits[k], bi)
  {
    assert (k * BPB + bi) / BPB == k && (k * BPB + bi) % BPB == bi;
  }

  function SetBit(bits: seq<BitBlock>, b: nat): (r: seq<BitBlock>)
    requires b < BPB * |bits|
    ensures |r| == |bits|
    ensures forall c :: 0 <= c < BPB * |bits| ==> Bit(r, c) == (c == b || Bit(bits, c))
  {
    var r := bits[b / BPB := Set(bits[b / BPB], b % BPB)];
    assert forall c :: 0 <= c < BPB * |bits| ==> Bit(r, c) == (c == b || Bit(bits, c)) by {
      forall c | 0 <= c < BPB * |bits| ensures Bit(r, c) == (c == b || Bit(bits, c)) {
        OneBitChanges(bits[b / BPB], b % BPB, c % BPB);
      }
    }
    r
  }

  function ClearBit(bits: seq<BitBlock>, b: nat): (r: seq<BitBlock>)
    requires b < BPB * |bits|
    ensures |r| == |bits|
    ensures forall c :: 0 <= c < BPB * |bits| ==> Bit(r, c) == (c != b && Bit(bits, c))
  {
    var r := bits[b / BPB := Clear(bits[b / BPB], b % BPB)];
    assert forall c :: 0 <= c < BPB * |bits| ==> Bit(r, c) == (c != b && Bit(bits, c)) by {
      forall c | 0 <= c < BPB * |bits| ensures Bit(r, c) == (c != b && Bit(bits, c)) {
        OneBitChanges(bits[b / BPB], b % BPB, c % BPB);
      }
    }
    r
  }
}
