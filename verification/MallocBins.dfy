/** Size classes of the allocator. Sizes are in units of SIZE_ALIGN, 32 bytes. */
module MallocBins {

  const ROW0: seq<nat> := [            32,33,34,35,36,36,37,37,38,38,39,39]
  const ROW1: seq<nat> := [40,40,40,40,41,41,41,41,42,42,42,42,43,43,43,43]
  const ROW2: seq<nat> := [44,44,44,44,44,44,44,44,45,45,45,45,45,45,45,45]
  const ROW3: seq<nat> := [46,46,46,46,46,46,46,46,47,47,47,47,47,47,47,47]

  /** The table bin_tab, row by row. */
  const BIN_TAB := ROW0 + ROW1 + ROW2 + ROW3

  /** The table in closed form: steps of one, two, four and eight entries a bin. */
  function BinTab(k: nat): (i: nat)
    requires k < 60
    ensures 32 <= i <= 47
  {
    if k < 4 then 32 + k
    else if k < 12 then 36 + (k - 4) / 2
    else if k < 28 then 40 + (k - 12) / 4
    else 44 + (k - 28) / 8
  }

  lemma Rows()
    ensures forall k: nat | k < 12 :: ROW0[k] == BinTab(k)
    ensures forall k: nat | k < 16 :: ROW1[k] == BinTab(12 + k)
    ensures forall k: nat | k < 16 :: ROW2[k] == BinTab(28 + k)
    ensures forall k: nat | k < 16 :: ROW3[k] == BinTab(44 + k)
  {
  }

  lemma TableIsBinTab()
    ensures |BIN_TAB| == 60
    ensures forall k: nat | k < 60 :: BIN_TAB[k] == BinTab(k)
  {
    Rows();
  }

  const BINS := 64
  const MMAP_THRESHOLD := 0x1c00

  /** The bin a chunk of this size belongs to. Size 0 wraps around and counts as huge. */
  function BinIndex(size: nat): (i: nat)
    ensures i < BINS
  {
    if size == 0 then 63
    else
      var x := size - 1;
      if x <= 32 then x
      else if x < 512 then BinTab(x / 8 - 4)
      else if x > 0x1c00 then 63
      else BinTab(x / 128 - 4) + 16
  }

  /** The first bin all of whose chunks are large enough for a request of this size. */
  function BinIndexUp(size: nat): (i: nat)
    requires 1 <= size <= MMAP_THRESHOLD
    ensures i < BINS
  {
    var x := size - 1;
    if x <= 32 then x
    else if x - 1 < 512 then BinTab((x - 1) / 8 - 4) + 1
    else BinTab((x - 1) / 128 - 4) + 17
  }

  lemma BinIndexAscends(a: nat, b: nat)
    requires 1 <= a <= b
    ensures BinIndex(a) <= BinIndex(b)
  {
  }

  /**
   Any chunk filed at or above the request's bin is large enough, and no lower bin would do: a
   chunk one unit short of the request can be filed directly below.
   */
  lemma BinIndexUpIsSafe(request: nat, size: nat)
    requires 1 <= request <= MMAP_THRESHOLD && 1 <= size
    ensures BinIndex(size) >= BinIndexUp(request) ==> size >= request
    ensures request > 1 ==> BinIndex(request - 1) == BinIndexUp(request) - 1
  {
    if size < request {
      BinIndexAscends(size, request - 1);
    }
  }
}
