/** Slot bitmaps: one bit per hash slot, eight to a byte. */
module ClusterBitmap {

  const CLUSTER_SLOTS := 16384
  const BITMAP_BYTES := 2048

  type Bitmap = s: seq<bv8> | |s| == BITMAP_BYTES witness seq(BITMAP_BYTES, _ => 0)

  type Slot = j: int | 0 <= j < CLUSTER_SLOTS

  /** 1 << bit */
  function Mask(bit: nat): bv8
    requires bit < 8
  {
    if bit < 4 then (if bit < 2 then (if bit == 0 then 1 else 2) else (if bit == 2 then 4 else 8))
    else if bit < 6 then (if bit == 4 then 16 else 32) else (if bit == 6 then 64 else 128)
  }

  predicate TestIn(b: bv8, bit: nat)
    requires bit < 8
  {
    b & Mask(bit) != 0
  }

  function SetIn(b: bv8, bit: nat): (r: bv8)
    requires bit < 8
    ensures forall k: nat | k < 8 :: TestIn(r, k) <==> k == bit || TestIn(b, k)
  {
    b | Mask(bit)
  }

  function ClearIn(b: bv8, bit: nat): (r: bv8)
    requires bit < 8
    ensures forall k: nat | k < 8 :: TestIn(r, k) <==> k != bit && TestIn(b, k)
  {
    b & !Mask(bit)
  }

  predicate Bit(bitmap: seq<bv8>, pos: Slot)
    requires |bitmap| == BITMAP_BYTES
  {
    TestIn(bitmap[pos / 8], pos % 8)
  }

  function WithBit(bitmap: seq<bv8>, pos: Slot): (r: seq<bv8>)
    requires |bitmap| == BITMAP_BYTES
    ensures |r| == BITMAP_BYTES
  {
    bitmap[pos / 8 := SetIn(bitmap[pos / 8], pos % 8)]
  }

  function WithoutBit(bitmap: seq<bv8>, pos: Slot): (r: seq<bv8>)
    requires |bitmap| == BITMAP_BYTES
    ensures |r| == BITMAP_BYTES
  {
    bitmap[pos / 8 := ClearIn(bitmap[pos / 8], pos % 8)]
  }

  /** Setting and clearing a bit change that bit and no other. */
  lemma OneBitChanges(bitmap: seq<bv8>, pos: Slot, j: Slot)
    requires |bitmap| == BITMAP_BYTES
    ensures Bit(WithBit(bitmap, pos), j) <==> j == pos || Bit(bitmap, j)
    ensures Bit(WithoutBit(bitmap, pos), j) <==> j != pos && Bit(bitmap, j)
  {
    assert pos == j <==> pos / 8 == j / 8 && pos % 8 == j % 8;
  }

  method BitmapTestBit(bitmap: array<bv8>, pos: Slot) returns (r: bool)
    requires bitmap.Length == BITMAP_BYTES
    ensures r == Bit(bitmap[..], pos)
  {
    var byte := pos / 8;
    var bit := pos % 8;
    r := TestIn(bitmap[byte], bit);
  }

  method BitmapSetBit(bitmap: array<bv8>, pos: Slot)
    requires bitmap.Length == BITMAP_BYTES
    modifies bitmap
    ensures bitmap[..] == WithBit(old(bitmap[..]), pos)
  {
    var byte := pos / 8;
    var bit := pos % 8;
    bitmap[byte] := SetIn(bitmap[byte], bit);
  }

  method BitmapClearBit(bitmap: array<bv8>, pos: Slot)
    requires bitmap.Length == BITMAP_BYTES
    modifies bitmap
    ensures bitmap[..] == WithoutBit(old(bitmap[..]), pos)
  {
    var byte := pos / 8;
    var bit := pos % 8;
    bitmap[byte] := ClearIn(bitmap[byte], bit);
  }
}
