/** The scan's output: a bitmap of pattern ids, eight to a byte, least significant first. */
module Bitmap {
  /** The bit a C program writes as `1u << (pid & 7)`. */
  function Mask(k: nat): bv8
    requires k < 8
  {
    (1 as bv8) << k
  }

  predicate TestBit(bitmap: seq<bv8>, pid: nat)
    requires pid / 8 < |bitmap|
  {
    bitmap[pid / 8] & Mask(pid % 8) != 0
  }

  lemma MaskBits(b: bv8, k: nat, j: nat)
    requires k < 8 && j < 8
    ensures (b | Mask(k)) & Mask(j) != 0 <==> j == k || b & Mask(j) != 0
  {
    MaskValue(k);
    MaskValue(j);
  }

  lemma MaskValue(k: nat)
    requires k < 8
    ensures Mask(k) == [1 as bv8, 2, 4, 8, 16, 32, 64, 128][k]
  {
    if k == 0 { assert Mask(0) == 1; }
    else if k == 1 { assert Mask(1) == 2; }
    else if k == 2 { assert Mask(2) == 4; }
    else if k == 3 { assert Mask(3) == 8; }
    else if k == 4 { assert Mask(4) == 16; }
    else if k == 5 { assert Mask(5) == 32; }
    else if k == 6 { assert Mask(6) == 64; }
    else { assert Mask(7) == 128; }
  }

  /** Sets bit `pid` and no other. */
  method SetBit(bitmap: array<bv8>, pid: nat)
    requires pid / 8 < bitmap.Length
    modifies bitmap
    ensures forall p: nat :: p / 8 < bitmap.Length ==>
      (TestBit(bitmap[..], p) <==> p == pid || old(TestBit(bitmap[..], p)))
  {
    ghost var before := bitmap[..];
    bitmap[pid / 8] := bitmap[pid / 8] | Mask(pid % 8);
    forall p: nat | p / 8 < bitmap.Length
      ensures TestBit(bitmap[..], p) <==> p == pid || TestBit(before, p)
    {
      if p / 8 == pid / 8 {
        MaskBits(before[p / 8], pid % 8, p % 8);
      }
    }
  }
}
