/** The changes the allocator makes to its heap, one at a time; each keeps the heap good. */
module MallocSteps {
  import opened MallocBins
  import opened MallocHeap

  /** An initialized ring: its head is linked, to itself when the list is empty. */
  ghost predicate Live(next: map<int, int>, prev: map<int, int>, b: int, list: seq<int>)
  {
    NoDuplicates(list) && b !in list && Chain(next, prev, [b] + list + [b])
  }

  lemma RingAppend(next: map<int, int>, prev: map<int, int>, b: int, list: seq<int>, c: int)
    requires Live(next, prev, b, list) && c != b && c !in list
    ensures b in prev && prev[b] == if list == [] then b else list[|list| - 1]
    ensures Live(next[c := b][prev[b] := c], prev[c := prev[b]][b := c], b, list + [c])
  {
    var r, r' := [b] + list + [b], [b] + (list + [c]) + [b];
    var m := |list|;
    assert r[m + 1] == b && Linked(next, prev, r[m], r[m + 1]);
    var n', p' := next[c := b][prev[b] := c], prev[c := prev[b]][b := c];
    forall j | 0 <= j < |r'| - 1
      ensures Linked(n', p', r'[j], r'[j + 1])
    {
      if j < m {
        assert r'[j] == r[j] && r'[j + 1] == r[j + 1] && Linked(next, prev, r[j], r[j + 1]);
        assert r[j + 1] == list[j];
        assert j > 0 ==> r[j] == list[j - 1];
      } else if j == m {
        assert r'[j] == r[j] && r'[j + 1] == c;
      } else {
        assert r'[j] == c && r'[j + 1] == b;
      }
    }
  }

  /** Put d in the place of the k-th chunk of a ring. */
  lemma RingReplace(next: map<int, int>, prev: map<int, int>, b: int, list: seq<int>, k: nat, d: int)
    requires Ring(next, prev, b, list) && k < |list| && d != b && d !in list
    ensures list[k] in next && list[k] in prev
    ensures var n, p := next[list[k]], prev[list[k]];
            && Ring(next[d := n][p := d], prev[d := p][n := d], b, list[k := d])
            && (p == b || p in list) && (n == b || n in list)
  {
    RingAt(next, prev, b, list, k);
    var c := list[k];
    var n, p := next[c], prev[c];
    var n', p' := next[d := n][p := d], prev[d := p][n := d];
    var list' := list[k := d];
    var r, r' := [b] + list + [b], [b] + list' + [b];
    forall j | 0 <= j < |r'| - 1
      ensures Linked(n', p', r'[j], r'[j + 1])
    {
      assert Linked(next, prev, r[j], r[j + 1]);
      if j == k {
        assert r'[j] == r[j] && r'[j + 1] == d;
      } else if j == k + 1 {
        assert r'[j] == d && r'[j + 1] == r[j + 1];
      } else {
        assert r'[j] == r[j] && r'[j + 1] == r[j + 1];
        assert j > 0 ==> r[j] == list[j - 1];
        assert j < |list| ==> r[j + 1] == list[j];
      }
    }
    assert NoDuplicates(list');
  }

  /* ---------- effects of header writes ---------- */

  /** The in-use flag of a chunk changes in both of its size words. */
  ghost predicate Retag(h: Heap, h': Heap, c: int, used: bool)
    requires Tiled(h)
  {
    && c in h.chunks && h'.chunks == h.chunks && h'.sentinels == h.sentinels
    && h'.csize == h.csize[c := Tag(h.csize[c].size, used)]
    && h'.psize == h.psize[After(h, c) := Tag(h.csize[c].size, used)]
  }

  lemma RetagPresent(h: Heap, h': Heap, c: int, used: bool)
    requires Tiled(h) && Retag(h, h', c, used)
    ensures Present(h') && ChunkFits(h, c) && forall s | s in h'.sentinels :: h'.csize[s] == START
  {
    assert ChunkFits(h, c);
  }

  lemma RetagChunk(h: Heap, h': Heap, c: int, used: bool, d: int)
    requires Tiled(h) && Retag(h, h', c, used) && Present(h') && d in h'.chunks
    ensures ChunkFits(h', d)
  {
    assert ChunkFits(h, c) && ChunkFits(h, d);
    if After(h, d) == After(h, c) { AfterInjective(h, c, d); }
  }

  lemma RetagPlace(h: Heap, h': Heap, c: int, used: bool, x: int)
    requires Tiled(h) && Retag(h, h', c, used) && Present(h') && x in Places(h')
    ensures PlaceFits(h', x)
  {
    assert PlaceFits(h, x) && ChunkFits(h, c);
  }

  lemma RetagApart(h: Heap, h': Heap, c: int, used: bool, d: int, x: int)
    requires Tiled(h) && Retag(h, h', c, used) && Present(h') && d in h'.chunks && x in Places(h')
    ensures Apart(h', d, x)
  {
    assert Apart(h, d, x);
  }

  lemma RetagTiled(h: Heap, h': Heap, c: int, used: bool)
    requires Tiled(h) && Retag(h, h', c, used)
    ensures Tiled(h')
  {
    RetagPresent(h, h', c, used);
    forall d | d in h'.chunks ensures ChunkFits(h', d) { RetagChunk(h, h', c, used, d); }
    forall x | x in Places(h') ensures PlaceFits(h', x) { RetagPlace(h, h', c, used, x); }
    forall d, x | d in h'.chunks && x in Places(h') ensures Apart(h', d, x) { RetagApart(h, h', c, used, d, x); }
  }

  lemma RetagUsed(h: Heap, h': Heap, c: int, used: bool)
    requires Tiled(h) && Retag(h, h', c, used) && Present(h')
    ensures Used(h') == if used then Used(h) + {c} else Used(h) - {c}
    ensures SameSegments(h, h')
  {
    assert ChunkFits(h, c);
    assert PlaceFits(h, After(h, c));
    assert h'.psize[After(h, c)] != START && h.psize[After(h, c)] != START;
  }

  lemma HeaderWritesKeep(h: Heap, h': Heap, touched: set<int>, except: set<int>)
    requires Present(h) && Present(h')
    requires forall a | a !in touched :: WordsSame(h, h', a)
    requires forall c | c in Used(h) && c !in except ::
               && c in Used(h') && h'.csize[c] == h.csize[c] && Same(h.next, h'.next, c) && Same(h.prev, h'.prev, c)
               && forall a | a in touched :: !Inside(h, a, c)
    ensures Keeps(h, h', except)
  {
  }

  /* ---------- unbin ---------- */

  lemma UnbinTiled(h: Heap, c: int)
    requires Good(h) && IsFree(h, c)
    ensures Tiled(Unbin(h, c)) && Coalesced(Unbin(h, c)) && SameSegments(h, Unbin(h, c))
    ensures Used(Unbin(h, c)) == Used(h) + {c}
  {
    var h' := Unbin(h, c);
    RetagTiled(h, h', c, true);
    RetagUsed(h, h', c, true);
    forall d | d in h'.chunks && !h'.csize[d].used
      ensures ChunkFits(h', d) && h'.psize[d].used && h'.csize[After(h', d)].used
    {
      assert ChunkFits(h', d) && ChunkFits(h, d);
      assert IsFree(h, d);
    }
  }

  lemma UnbinKeeps(h: Heap, c: int)
    requires Good(h) && IsFree(h, c)
    requires Tiled(Unbin(h, c)) && Used(Unbin(h, c)) == Used(h) + {c}
    ensures Keeps(h, Unbin(h, c), {})
  {
    var h' := Unbin(h, c);
    var i := BinIndex(h.csize[c].size);
    RingLinks(h, c);
    RingRemove(h.next, h.prev, Bin(i), h.bins[i], Position(h.bins[i], c));
    var p, n := h.prev[c], h.next[c];
    assert ChunkFits(h, c);
    forall d | d in Used(h)
      ensures !Inside(h, p, d) && !Inside(h, n, d) && !Inside(h, c, d) && !Inside(h, After(h, c), d)
    {
      if p in h.bins[i] { NotInside(h, p, d); }
      if n in h.bins[i] { NotInside(h, n, d); }
      NotInside(h, c, d);
      NotInside(h, After(h, c), d);
    }
    HeaderWritesKeep(h, h', {p, n, c, After(h, c)}, {});
  }

  lemma UnbinRings(h: Heap, c: int)
    requires Good(h) && IsFree(h, c)
    ensures forall j: nat | j < BINS :: Ring(Unbin(h, c).next, Unbin(h, c).prev, Bin(j), Unbin(h, c).bins[j])
    ensures && c in h.prev && c in h.next
            && (h.prev[c] == h.next[c] <==> Without(h.bins[BinIndex(h.csize[c].size)], c) == [])
  {
    var h' := Unbin(h, c);
    var i := BinIndex(h.csize[c].size);
    RingLinks(h, c);
    RingRemove(h.next, h.prev, Bin(i), h.bins[i], Position(h.bins[i], c));
    forall j: nat | j < BINS
      ensures Ring(h'.next, h'.prev, Bin(j), h'.bins[j])
    {
      if j != i {
        OtherBins(h, i, j);
        RingFrame(h.next, h.prev, h'.next, h'.prev, Bin(j), h.bins[j]);
      }
    }
  }

  lemma UnbinBinned(h: Heap, c: int)
    requires Good(h) && IsFree(h, c) && Tiled(Unbin(h, c))
    ensures Binned(Unbin(h, c)) && Mapped(Unbin(h, c))
  {
    var h' := Unbin(h, c);
    UnbinRings(h, c);
    WithoutHolds(h.bins[BinIndex(h.csize[c].size)], c);
    forall d | IsFree(h', d)
      ensures d in h'.bins[BinIndex(h'.csize[d].size)]
    {
      assert IsFree(h, d);
    }
  }

  lemma OtherBins(h: Heap, i: nat, j: nat)
    requires Tiled(h) && Binned(h) && i < BINS && j < BINS && i != j
    ensures forall x | x == Bin(i) || x in h.bins[i] :: x != Bin(j) && x !in h.bins[j]
  {
    forall x | x == Bin(i) || x in h.bins[i]
      ensures x != Bin(j) && x !in h.bins[j]
    {
      if x in h.bins[i] { assert IsFree(h, x); }
    }
  }

  lemma NotBinned(h: Heap, c: int)
    requires Tiled(h) && Binned(h) && !IsFree(h, c)
    ensures forall j: nat | j < BINS :: c !in h.bins[j]
  {
  }

  lemma WithoutHolds(list: seq<int>, c: int)
    requires NoDuplicates(list) && c in list
    ensures forall x :: x in Without(list, c) <==> x in list && x != c
  {
    var k := Position(list, c);
    assert list == list[..k] + [c] + list[k + 1..];
  }

  /** A free chunk has come into use; no chunk in use before is touched. */
  ghost predicate Took(h: Heap, h': Heap, c: int)
    requires Good(h)
  {
    && IsFree(h, c)
    && Good(h') && SameSegments(h, h') && Used(h') == Used(h) + {c} && Keeps(h, h', {})
    && Retag(h, h', c, true)
  }

  /** Taking a free chunk out of its bin keeps the heap good and touches no chunk in use. */
  lemma UnbinIsGood(h: Heap, c: int)
    requires Good(h) && IsFree(h, c)
    ensures Took(h, Unbin(h, c), c)
  {
    UnbinTiled(h, c);
    UnbinKeeps(h, c);
    UnbinBinned(h, c);
  }

  /* ---------- changes that leave the free lists alone ---------- */

  ghost predicate SameLists(h: Heap, h': Heap)
  {
    h'.next == h.next && h'.prev == h.prev && h'.bins == h.bins && h'.binmap == h.binmap
  }

  ghost predicate SameFree(h: Heap, h': Heap)
    requires Present(h) && Present(h')
  {
    && (forall c | IsFree(h, c) :: IsFree(h', c))
    && (forall c | IsFree(h', c) :: IsFree(h, c) && h.csize[c] == h'.csize[c])
  }

  lemma SameFreeIsBinned(h: Heap, h': Heap)
    requires Good(h) && Tiled(h') && SameLists(h, h') && SameFree(h, h')
    ensures Binned(h') && Mapped(h')
  {
    forall i: nat | i < BINS
      ensures forall c | c in h'.bins[i] :: IsFree(h', c) && BinIndex(h'.csize[c].size) == i
    {
      forall c | c in h'.bins[i]
        ensures IsFree(h', c) && BinIndex(h'.csize[c].size) == i
      {
        assert IsFree(h, c);
      }
    }
    forall c | IsFree(h', c)
      ensures c in h'.bins[BinIndex(h'.csize[c].size)]
    {
      assert IsFree(h, c);
    }
  }

  /* ---------- merge ---------- */

  ghost function Between(h: Heap, c: int, total: nat): set<int>
  {
    set d | d in h.chunks && c < d < c + total
  }

  /** `total` units from c on are a run of whole chunks in use. */
  ghost predicate Run(h: Heap, c: int, total: nat)
    requires Present(h)
  {
    && c in h.chunks && total >= 1 && c + total in Places(h) && h.psize[c + total] != START && h.csize[c].used
    && (forall x | x in Places(h) && c < x < c + total :: x in h.chunks && h.csize[x].used && h.psize[x] != START)
  }

  lemma RunOfOne(h: Heap, c: int)
    requires Tiled(h) && c in h.chunks && h.csize[c].used
    ensures Run(h, c, h.csize[c].size)
  {
    assert ChunkFits(h, c);
    forall x | x in Places(h) { NotInside(h, x, c); }
  }

  lemma RunGrowsRight(h: Heap, c: int, total: nat)
    requires Tiled(h) && Run(h, c, total) && c + total in h.chunks && h.csize[c + total].used
    ensures Run(h, c, total + h.csize[c + total].size)
  {
    assert ChunkFits(h, c + total);
    forall x | x in Places(h) { NotInside(h, x, c + total); }
  }

  lemma RunGrowsLeft(h: Heap, p: int, c: int, total: nat)
    requires Tiled(h) && Run(h, c, total) && p in h.chunks && h.csize[p].used && After(h, p) == c
    ensures Run(h, p, h.csize[p].size + total)
  {
    assert ChunkFits(h, p);
    forall x | x in Places(h) { NotInside(h, x, p); }
  }

  lemma RunSurvives(h: Heap, h': Heap, c: int, total: nat)
    requires Tiled(h) && Tiled(h') && Run(h, c, total)
    requires h'.chunks == h.chunks && SameSegments(h, h') && Used(h) <= Used(h')
    ensures Run(h', c, total)
  {
    forall x | x in Places(h') && c < x < c + total
      ensures x in h'.chunks && h'.csize[x].used && h'.psize[x] != START
    {
      assert x in Used(h);
    }
    assert c in Used(h);
  }

  /** One header for the whole run; the headers inside it become payload. */
  ghost predicate Merges(h: Heap, h': Heap, c: int, total: nat)
    requires Present(h)
  {
    && Run(h, c, total) && SameLists(h, h')
    && h'.chunks == h.chunks - Between(h, c, total) && h'.sentinels == h.sentinels
    && h'.csize == h.csize[c := Tag(total, true)]
    && h'.psize == h.psize[c + total := Tag(total, true)]
  }

  lemma BeforeRun(h: Heap, a: int, c: int, total: nat)
    requires Tiled(h) && Run(h, c, total) && a in h.chunks
    ensures a < c ==> After(h, a) <= c
    ensures c <= a < c + total ==> After(h, a) <= c + total
  {
    assert Apart(h, a, c) && Apart(h, a, c + total);
  }

  lemma MergeChunk(h: Heap, h': Heap, c: int, total: nat, d: int)
    requires Tiled(h) && Merges(h, h', c, total) && Present(h') && d in h'.chunks
    ensures ChunkFits(h', d)
  {
    assert ChunkFits(h, d);
    BeforeRun(h, d, c, total);
    BeforeRun(h, c, c, total);
  }

  lemma MergePlace(h: Heap, h': Heap, c: int, total: nat, x: int)
    requires Tiled(h) && Merges(h, h', c, total) && Present(h') && x in Places(h')
    ensures PlaceFits(h', x)
  {
    assert PlaceFits(h, x);
    var t := h.psize[x];
    if x != c + total && t != START {
      BeforeRun(h, x - t.size, c, total);
      assert ChunkFits(h, x - t.size);
    }
  }

  lemma MergeApart(h: Heap, h': Heap, c: int, total: nat, d: int, x: int)
    requires Tiled(h) && Merges(h, h', c, total) && Present(h') && d in h'.chunks && x in Places(h')
    ensures Apart(h', d, x)
  {
    assert Apart(h, d, x);
  }

  lemma MergePresent(h: Heap, h': Heap, c: int, total: nat)
    requires Tiled(h) && Merges(h, h', c, total)
    ensures Present(h') && forall s | s in h'.sentinels :: h'.csize[s] == START
  {
  }

  lemma MergeTiled(h: Heap, h': Heap, c: int, total: nat)
    requires Tiled(h) && Merges(h, h', c, total)
    ensures Tiled(h')
  {
    MergePresent(h, h', c, total);
    forall d | d in h'.chunks ensures ChunkFits(h', d) { MergeChunk(h, h', c, total, d); }
    forall x | x in Places(h') ensures PlaceFits(h', x) { MergePlace(h, h', c, total, x); }
    forall d, x | d in h'.chunks && x in Places(h') ensures Apart(h', d, x) { MergeApart(h, h', c, total, d, x); }
  }

  lemma MergeIsGood(h: Heap, h': Heap, c: int, total: nat)
    requires Good(h) && Merges(h, h', c, total)
    ensures Good(h') && SameSegments(h, h')
    ensures Used(h') == Used(h) - Between(h, c, total)
    ensures Keeps(h, h', {c} + Between(h, c, total))
  {
    MergeTiled(h, h', c, total);
    SameFreeIsBinned(h, h');
    MergeSeparates(h, h', c, total);
    MergeKeeps(h, h', c, total);
  }

  /** Free chunks still have chunks in use on both sides. */
  lemma MergeSeparates(h: Heap, h': Heap, c: int, total: nat)
    requires Good(h) && Merges(h, h', c, total) && Tiled(h')
    ensures forall d | d in h'.chunks && !h'.csize[d].used ::
              ChunkFits(h', d) && h'.psize[d].used && h'.csize[After(h', d)].used
  {
    forall d | d in h'.chunks && !h'.csize[d].used
      ensures ChunkFits(h', d) && h'.psize[d].used && h'.csize[After(h', d)].used
    {
      assert ChunkFits(h', d) && ChunkFits(h, d);
      assert IsFree(h, d);
    }
    assert PlaceFits(h, c + total);
  }

  lemma MergeKeeps(h: Heap, h': Heap, c: int, total: nat)
    requires Tiled(h) && Tiled(h') && Merges(h, h', c, total)
    ensures Keeps(h, h', {c} + Between(h, c, total))
  {
    forall d | d in Used(h) && d !in {c} + Between(h, c, total)
      ensures !Inside(h, c, d) && !Inside(h, c + total, d)
    {
      NotInside(h, c, d);
      NotInside(h, c + total, d);
    }
    HeaderWritesKeep(h, h', {c, c + total}, {c} + Between(h, c, total));
  }

  /* ---------- split ---------- */

  /** The chunk keeps n units, used; the rest becomes a chunk of its own. */
  ghost predicate Splits(h: Heap, h': Heap, c: int, n: nat, restUsed: bool)
    requires Present(h)
  {
    && c in h.chunks && 1 <= n < h.csize[c].size
    && var rest := h.csize[c].size - n;
       && h'.chunks == h.chunks + {c + n} && h'.sentinels == h.sentinels
       && h'.csize == h.csize[c := Tag(n, true)][c + n := Tag(rest, restUsed)]
       && h'.psize == h.psize[c + n := Tag(n, true)][After(h, c) := Tag(rest, restUsed)]
  }

  lemma SplitChunk(h: Heap, h': Heap, c: int, n: nat, restUsed: bool, a: int)
    requires Tiled(h) && Splits(h, h', c, n, restUsed) && Present(h') && a in h'.chunks
    ensures ChunkFits(h', a)
  {
    NotNewPlace(h, c, c + n);
    assert ChunkFits(h, c);
    if a != c + n {
      assert ChunkFits(h, a);
      if After(h, a) == After(h, c) { AfterInjective(h, a, c); }
    }
  }

  lemma SplitPlace(h: Heap, h': Heap, c: int, n: nat, restUsed: bool, x: int)
    requires Tiled(h) && Splits(h, h', c, n, restUsed) && Present(h') && x in Places(h')
    ensures PlaceFits(h', x)
  {
    NotNewPlace(h, c, c + n);
    assert ChunkFits(h, c);
    if x != c + n && x != After(h, c) {
      assert PlaceFits(h, x);
      var t := h.psize[x];
      if t != START { assert ChunkFits(h, x - t.size); }
    }
  }

  lemma SplitPresent(h: Heap, h': Heap, c: int, n: nat, restUsed: bool)
    requires Tiled(h) && Splits(h, h', c, n, restUsed)
    ensures Present(h') && c + n !in Places(h) && forall s | s in h'.sentinels :: h'.csize[s] == START
  {
    NotNewPlace(h, c, c + n);
  }

  lemma SplitTiled(h: Heap, h': Heap, c: int, n: nat, restUsed: bool)
    requires Tiled(h) && Splits(h, h', c, n, restUsed)
    ensures Tiled(h') && c + n !in Places(h)
  {
    SplitPresent(h, h', c, n, restUsed);
    forall a | a in h'.chunks ensures ChunkFits(h', a) { SplitChunk(h, h', c, n, restUsed, a); }
    forall x | x in Places(h') ensures PlaceFits(h', x) { SplitPlace(h, h', c, n, restUsed, x); }
    forall a, x | a in h'.chunks && x in Places(h') ensures Apart(h', a, x) { SplitApart(h, h', c, n, restUsed, a, x); }
  }

  lemma SplitUsed(h: Heap, h': Heap, c: int, n: nat, restUsed: bool)
    requires Tiled(h) && Splits(h, h', c, n, restUsed) && Tiled(h')
    ensures Used(h') == Used(h) + {c} + if restUsed then {c + n} else {}
    ensures SameSegments(h, h')
  {
    NotNewPlace(h, c, c + n);
    assert ChunkFits(h, c);
  }

  lemma NotNewPlace(h: Heap, c: int, d: int)
    requires Tiled(h) && c in h.chunks && Inside(h, d, c)
    ensures d !in Places(h)
  {
    if d in Places(h) { NotInside(h, d, c); }
  }

  lemma SplitApart(h: Heap, h': Heap, c: int, n: nat, restUsed: bool, a: int, x: int)
    requires Tiled(h) && Splits(h, h', c, n, restUsed) && Present(h') && a in h'.chunks && x in Places(h')
    ensures Apart(h', a, x)
  {
    var d := c + n;
    if a != d && x != d {
      assert Apart(h, a, x);
    } else if a == d {
      if x != d { assert Apart(h, c, x); }
    } else if a != c {
      assert Apart(h, a, c) && Apart(h, c, a);
    }
  }

  lemma SplitHeaders(h: Heap, h': Heap, c: int, n: nat, restUsed: bool)
    requires Tiled(h) && Splits(h, h', c, n, restUsed)
    ensures forall e | e in h.chunks && e != c ::
              !Inside(h, c, e) && !Inside(h, c + n, e) && !Inside(h, After(h, c), e)
  {
    assert ChunkFits(h, c);
    forall e | e in h.chunks && e != c
      ensures !Inside(h, c, e) && !Inside(h, c + n, e) && !Inside(h, After(h, c), e)
    {
      NotInside(h, c, e);
      NotInside(h, After(h, c), e);
      assert Apart(h, e, c) && Apart(h, c, e);
    }
  }

  /** Splitting a chunk in use: both parts stay in use. */
  lemma SplitIsGood(h: Heap, h': Heap, c: int, n: nat)
    requires Good(h) && c in Used(h) && Splits(h, h', c, n, true) && SameLists(h, h')
    ensures Good(h') && SameSegments(h, h') && Used(h') == Used(h) + {c + n} && c + n !in Used(h)
    ensures Keeps(h, h', {c})
  {
    SplitTiled(h, h', c, n, true);
    SplitUsed(h, h', c, n, true);
    SameFreeIsBinned(h, h');
    forall d | d in h'.chunks && !h'.csize[d].used
      ensures ChunkFits(h', d) && h'.psize[d].used && h'.csize[After(h', d)].used
    {
      assert ChunkFits(h', d) && ChunkFits(h, d);
      assert IsFree(h, d);
    }
    SplitHeaders(h, h', c, n, true);
    HeaderWritesKeep(h, h', {c, c + n, After(h, c)}, {c});
  }

  /** Splitting a free chunk whose rest stays in the same bin: the rest takes its place in the list. */
  ghost predicate Pretrims(h: Heap, h': Heap, c: int, n: nat)
    requires Good(h)
  {
    && IsFree(h, c) && Splits(h, h', c, n, false)
    && var i := BinIndex(h.csize[c].size);
       RingLinks(h, c);
       && BinIndex(h.csize[c].size - n) == i
       && h'.next == h.next[c + n := h.next[c]][h.prev[c] := c + n]
       && h'.prev == h.prev[c + n := h.prev[c]][h.next[c] := c + n]
       && h'.bins == h.bins[i := h.bins[i][Position(h.bins[i], c) := c + n]] && h'.binmap == h.binmap
  }

  lemma PretrimRings(h: Heap, h': Heap, c: int, n: nat)
    requires Good(h) && Pretrims(h, h', c, n) && c + n !in Places(h)
    ensures forall j: nat | j < BINS :: Ring(h'.next, h'.prev, Bin(j), h'.bins[j])
  {
    var d := c + n;
    var i := BinIndex(h.csize[c].size);
    NotBinned(h, d);
    RingLinks(h, c);
    RingReplace(h.next, h.prev, Bin(i), h.bins[i], Position(h.bins[i], c), d);
    forall j: nat | j < BINS
      ensures Ring(h'.next, h'.prev, Bin(j), h'.bins[j])
    {
      if j != i {
        OtherBins(h, i, j);
        RingFrame(h.next, h.prev, h'.next, h'.prev, Bin(j), h.bins[j]);
      }
    }
  }

  /** Which chunks are free afterwards, of which size, and where they are listed. */
  ghost predicate Retrimmed(h: Heap, h': Heap, c: int, n: nat)
    requires Good(h) && Present(h') && c in h.chunks
  {
    var i := BinIndex(h.csize[c].size);
    && i < BINS && |h.bins| == BINS == |h'.bins|
    && c in h.bins[i] && h'.bins == h.bins[i := h.bins[i][Position(h.bins[i], c) := c + n]]
    && IsFree(h', c + n) && BinIndex(h'.csize[c + n].size) == i
    && forall e | e != c + n ::
         && (IsFree(h', e) <==> IsFree(h, e) && e != c)
         && (IsFree(h, e) && e != c ==> h'.csize[e] == h.csize[e])
  }

  lemma PretrimRetrims(h: Heap, h': Heap, c: int, n: nat)
    requires Good(h) && Pretrims(h, h', c, n) && Present(h') && c + n !in Places(h)
    ensures Retrimmed(h, h', c, n)
  {
    assert IsFree(h, c);
  }

  lemma PretrimListed(h: Heap, h': Heap, c: int, n: nat, j: nat, e: int)
    requires Good(h) && Present(h') && c in h.chunks && Retrimmed(h, h', c, n) && c + n !in Places(h)
    requires j < BINS && e in h'.bins[j]
    ensures IsFree(h', e) && BinIndex(h'.csize[e].size) == j
  {
    var i := BinIndex(h.csize[c].size);
    NotBinned(h, c + n);
    ReplaceHolds(h.bins[i], Position(h.bins[i], c), c + n);
    if e != c + n { assert IsFree(h, e); }
  }

  /** What is left of the chunk takes its place in the bin, and every other free chunk stays where it was. */
  lemma PretrimFiled(h: Heap, h': Heap, c: int, n: nat, e: int)
    requires Good(h) && Present(h') && c in h.chunks && Retrimmed(h, h', c, n) && IsFree(h', e)
    ensures e in h'.bins[BinIndex(h'.csize[e].size)]
  {
    var list := h.bins[BinIndex(h.csize[c].size)];
    if e == c + n {
      assert list[Position(list, c) := e][Position(list, c)] == e;
    } else {
      assert IsFree(h, e);
      StaysFiled(list, c, c + n, e);
    }
  }

  lemma StaysFiled(list: seq<int>, c: int, d: int, e: int)
    requires c in list && e != c
    ensures e in list ==> e in list[Position(list, c) := d]
  {
    if e in list {
      var k :| 0 <= k < |list| && list[k] == e;
      assert list[Position(list, c) := d][k] == e;
    }
  }

  lemma PretrimBinned(h: Heap, h': Heap, c: int, n: nat)
    requires Good(h) && Pretrims(h, h', c, n) && Tiled(h') && c + n !in Places(h)
    ensures Binned(h') && Mapped(h')
  {
    PretrimRings(h, h', c, n);
    PretrimRetrims(h, h', c, n);
    forall j: nat, e | j < BINS && e in h'.bins[j]
      ensures IsFree(h', e) && BinIndex(h'.csize[e].size) == j
    {
      PretrimListed(h, h', c, n, j, e);
    }
    forall e | IsFree(h', e)
      ensures e in h'.bins[BinIndex(h'.csize[e].size)]
    {
      PretrimFiled(h, h', c, n, e);
    }
  }

  lemma ReplaceHolds(list: seq<int>, k: nat, d: int)
    requires NoDuplicates(list) && k < |list| && d !in list
    ensures forall x :: x in list[k := d] <==> x == d || (x in list && x != list[k])
  {
    assert list == list[..k] + [list[k]] + list[k + 1..];
    assert list[k := d] == list[..k] + [d] + list[k + 1..];
  }

  lemma PretrimIsGood(h: Heap, h': Heap, c: int, n: nat)
    requires Good(h) && Pretrims(h, h', c, n)
    ensures Good(h') && SameSegments(h, h') && Used(h') == Used(h) + {c} && Keeps(h, h', {})
  {
    SplitTiled(h, h', c, n, false);
    SplitUsed(h, h', c, n, false);
    PretrimBinned(h, h', c, n);
    forall d | d in h'.chunks && !h'.csize[d].used
      ensures ChunkFits(h', d) && h'.psize[d].used && h'.csize[After(h', d)].used
    {
      assert ChunkFits(h', d);
      assert ChunkFits(h, c);
      if d != c + n {
        assert ChunkFits(h, d);
        assert IsFree(h, d);
      } else {
        assert IsFree(h, c);
      }
    }
    PretrimKeeps(h, h', c, n);
  }

  lemma ListedOutside(h: Heap, i: nat, p: int)
    requires Tiled(h) && Binned(h) && i < BINS && (p == Bin(i) || p in h.bins[i])
    ensures forall e | e in Used(h) :: !Inside(h, p, e)
  {
    forall e | e in Used(h)
      ensures !Inside(h, p, e)
    {
      if p in h.bins[i] { NotInside(h, p, e); }
    }
  }

  lemma PretrimKeeps(h: Heap, h': Heap, c: int, n: nat)
    requires Good(h) && Pretrims(h, h', c, n) && Tiled(h') && Used(h') == Used(h) + {c} && c + n !in Places(h)
    ensures Keeps(h, h', {})
  {
    var i := BinIndex(h.csize[c].size);
    RingLinks(h, c);
    RingRemove(h.next, h.prev, Bin(i), h.bins[i], Position(h.bins[i], c));
    var p, q := h.prev[c], h.next[c];
    SplitHeaders(h, h', c, n, false);
    ListedOutside(h, i, p);
    ListedOutside(h, i, q);
    HeaderWritesKeep(h, h', {p, q, c, c + n, After(h, c)}, {});
  }

  /* ---------- release ---------- */

  /** A chunk whose neighbours are in use goes, free, to the end of its bin. */
  ghost predicate Releases(h: Heap, h': Heap, c: int)
    requires Good(h)
  {
    && Retag(h, h', c, false)
    && c in Used(h) && h.psize[c].used && ChunkFits(h, c) && h.csize[After(h, c)].used
    && var i := BinIndex(h.csize[c].size);
       && Live(h.next, h.prev, Bin(i), h.bins[i])
       && Bin(i) in h.prev
       && h'.next == h.next[c := Bin(i)][h.prev[Bin(i)] := c]
       && h'.prev == h.prev[c := h.prev[Bin(i)]][Bin(i) := c]
       && h'.bins == h.bins[i := h.bins[i] + [c]] && h'.binmap == h.binmap + {i}
  }

  lemma ReleaseIsGood(h: Heap, h': Heap, c: int)
    requires Good(h) && Releases(h, h', c)
    ensures Good(h') && SameSegments(h, h') && Used(h') == Used(h) - {c} && Keeps(h, h', {c})
  {
    RetagTiled(h, h', c, false);
    RetagUsed(h, h', c, false);
    ReleaseCoalesced(h, h', c);
    ReleaseBinned(h, h', c);
    ReleaseKeeps(h, h', c);
  }

  lemma ReleaseCoalesced(h: Heap, h': Heap, c: int)
    requires Good(h) && Releases(h, h', c) && Tiled(h')
    ensures Coalesced(h')
  {
    forall d | d in h'.chunks && !h'.csize[d].used
      ensures ChunkFits(h', d) && h'.psize[d].used && h'.csize[After(h', d)].used
    {
      assert ChunkFits(h', d) && ChunkFits(h, d) && ChunkFits(h, c);
      if d != c { assert IsFree(h, d); }
    }
  }

  lemma ReleaseBinned(h: Heap, h': Heap, c: int)
    requires Good(h) && Releases(h, h', c) && Tiled(h')
    ensures Binned(h') && Mapped(h')
  {
    var i := BinIndex(h.csize[c].size);
    NotBinned(h, c);
    RingAppend(h.next, h.prev, Bin(i), h.bins[i], c);
    forall j: nat | j < BINS
      ensures Ring(h'.next, h'.prev, Bin(j), h'.bins[j])
    {
      if j != i {
        OtherBins(h, i, j);
        RingFrame(h.next, h.prev, h'.next, h'.prev, Bin(j), h.bins[j]);
      }
    }
    forall e | IsFree(h', e)
      ensures e in h'.bins[BinIndex(h'.csize[e].size)]
    {
      if e != c { assert IsFree(h, e); }
    }
    forall j: nat | j < BINS
      ensures forall e | e in h'.bins[j] :: IsFree(h', e) && BinIndex(h'.csize[e].size) == j
    {
      forall e | e in h'.bins[j]
        ensures IsFree(h', e) && BinIndex(h'.csize[e].size) == j
      {
        if e != c { assert IsFree(h, e); }
      }
    }
  }

  lemma ReleaseKeeps(h: Heap, h': Heap, c: int)
    requires Good(h) && Releases(h, h', c) && Tiled(h') && Used(h') == Used(h) - {c}
    ensures Keeps(h, h', {c})
  {
    var i := BinIndex(h.csize[c].size);
    NotBinned(h, c);
    RingAppend(h.next, h.prev, Bin(i), h.bins[i], c);
    var p := h.prev[Bin(i)];
    if p != Bin(i) { assert p in h.bins[i] && IsFree(h, p); }
    forall e | e in Used(h) && e != c
      ensures !Inside(h, p, e) && !Inside(h, Bin(i), e) && !Inside(h, c, e) && !Inside(h, After(h, c), e)
    {
      if p != Bin(i) { NotInside(h, p, e); }
      NotInside(h, c, e);
      NotInside(h, After(h, c), e);
    }
    HeaderWritesKeep(h, h', {p, Bin(i), c, After(h, c)}, {c});
  }

  /* ---------- first use of a bin ---------- */

  ghost predicate Initializes(h: Heap, h': Heap, i: nat)
  {
    && Bin(i) in h.next && h.next[Bin(i)] == 0
    && h' == h.(next := h.next[Bin(i) := Bin(i)], prev := h.prev[Bin(i) := Bin(i)])
  }

  ghost predicate SameHeaders(h: Heap, h': Heap)
  {
    && h'.chunks == h.chunks && h'.sentinels == h.sentinels
    && forall x | x in Places(h) :: Same(h.psize, h'.psize, x) && Same(h.csize, h'.csize, x)
  }

  lemma SameHeadersTiled(h: Heap, h': Heap)
    requires Tiled(h) && SameHeaders(h, h')
    ensures Tiled(h') && SameSegments(h, h') && Used(h') == Used(h)
  {
    assert Present(h');
    forall c | c in h.chunks ensures ChunkFits(h', c) { assert ChunkFits(h, c); }
    forall x | x in Places(h) ensures PlaceFits(h', x) { assert PlaceFits(h, x); }
    forall c, x | c in h.chunks && x in Places(h) ensures Apart(h', c, x) { assert Apart(h, c, x); }
    forall d ensures d in Used(h') <==> d in Used(h) { assert d in h.chunks ==> d in Places(h); }
  }

  lemma SameHeadersCoalesced(h: Heap, h': Heap)
    requires Tiled(h) && Coalesced(h) && SameHeaders(h, h') && Tiled(h')
    ensures Coalesced(h')
  {
    forall d | d in h'.chunks && !h'.csize[d].used
      ensures ChunkFits(h', d) && h'.psize[d].used && h'.csize[After(h', d)].used
    {
      assert ChunkFits(h', d) && ChunkFits(h, d);
      assert IsFree(h, d);
    }
  }

  lemma InitializeIsGood(h: Heap, h': Heap, i: nat)
    requires Good(h) && i < BINS && Initializes(h, h', i)
    ensures Good(h') && SameSegments(h, h') && Used(h') == Used(h) && Keeps(h, h', {})
    ensures Live(h'.next, h'.prev, Bin(i), h'.bins[i])
  {
    SameHeadersTiled(h, h');
    SameHeadersCoalesced(h, h');
    EmptyWhenNull(h, i);
    forall j: nat | j < BINS
      ensures Ring(h'.next, h'.prev, Bin(j), h'.bins[j])
    {
      if j != i {
        OtherBins(h, i, j);
        RingFrame(h.next, h.prev, h'.next, h'.prev, Bin(j), h.bins[j]);
      }
    }
    forall c | IsFree(h', c) ensures c in h'.bins[BinIndex(h'.csize[c].size)] { assert IsFree(h, c); }
    HeaderWritesKeep(h, h', {Bin(i)}, {});
  }

  /** A null head belongs to an empty list that was never used; any other head is linked. */
  lemma EmptyWhenNull(h: Heap, i: nat)
    requires Tiled(h) && Binned(h) && i < BINS
    ensures Bin(i) in h.next && Bin(i) in h.prev
    ensures h.next[Bin(i)] == 0 ==> h.bins[i] == []
    ensures h.next[Bin(i)] != 0 ==> Live(h.next, h.prev, Bin(i), h.bins[i])
    ensures h.bins[i] != [] ==> h.next[Bin(i)] == h.bins[i][0]
  {
    var r := [Bin(i)] + h.bins[i] + [Bin(i)];
    if Chain(h.next, h.prev, r) {
      assert Linked(h.next, h.prev, r[0], r[1]);
      assert Linked(h.next, h.prev, r[|r| - 2], r[|r| - 1]);
      if h.bins[i] != [] { assert r[1] == h.bins[i][0] && IsFree(h, h.bins[i][0]); }
    }
  }

  /* ---------- heap growth ---------- */

  /** Pages [p, p + n) that the heap has no part in; they may begin right after a segment. */
  ghost predicate FreshPages(h: Heap, p: int, n: nat)
    requires Tiled(h)
  {
    && p > 0
    && (forall x | x in Places(h) :: x < p || x >= p + n)
    && (forall c | c in h.chunks :: c < p ==> After(h, c) < p)
  }

  /** A new segment: one chunk of m units in use and its sentinel. */
  ghost predicate Opens(h: Heap, h': Heap, w: int, m: nat)
  {
    && m >= 1 && SameLists(h, h')
    && h'.chunks == h.chunks + {w} && h'.sentinels == h.sentinels + {w + m}
    && h'.psize == h.psize[w := START][w + m := Tag(m, true)]
    && h'.csize == h.csize[w + m := START][w := Tag(m, true)]
  }

  /** A sentinel becomes a chunk of m units in use; a new sentinel follows it. */
  ghost predicate Prolongs(h: Heap, h': Heap, w: int, m: nat)
  {
    && m >= 1 && SameLists(h, h') && w in h.sentinels
    && h'.chunks == h.chunks + {w} && h'.sentinels == h.sentinels - {w} + {w + m}
    && h'.psize == h.psize[w + m := Tag(m, true)]
    && h'.csize == h.csize[w + m := START][w := Tag(m, true)]
  }

  /** The heap grows by one chunk and the sentinel after it, onto pages of its own. */
  ghost predicate Grows(h: Heap, h': Heap, w: int, m: nat)
    requires Tiled(h)
  {
    || (Opens(h, h', w, m) && FreshPages(h, w, m + 1))
    || (Prolongs(h, h', w, m) && FreshPages(h, w + 1, m))
  }

  lemma GrowPresent(h: Heap, h': Heap, w: int, m: nat)
    requires Tiled(h) && Grows(h, h', w, m)
    ensures Present(h') && w !in h.chunks && w + m !in Places(h)
    ensures forall s | s in h'.sentinels :: h'.csize[s] == START
  {
  }

  lemma GrowChunk(h: Heap, h': Heap, w: int, m: nat, c: int)
    requires Tiled(h) && Grows(h, h', w, m) && Present(h') && c in h'.chunks
    ensures ChunkFits(h', c)
  {
    if c != w { assert ChunkFits(h, c); }
  }

  lemma GrowPlace(h: Heap, h': Heap, w: int, m: nat, x: int)
    requires Tiled(h) && Grows(h, h', w, m) && Present(h') && x in Places(h')
    ensures PlaceFits(h', x)
  {
    if x in Places(h) { assert PlaceFits(h, x); }
  }

  lemma GrowApart(h: Heap, h': Heap, w: int, m: nat, c: int, x: int)
    requires Tiled(h) && Grows(h, h', w, m) && Present(h') && c in h'.chunks && x in Places(h')
    ensures Apart(h', c, x)
  {
    if c != w && x in Places(h) { assert Apart(h, c, x); }
  }

  lemma GrowTiled(h: Heap, h': Heap, w: int, m: nat)
    requires Tiled(h) && Grows(h, h', w, m)
    ensures Tiled(h')
  {
    GrowPresent(h, h', w, m);
    forall c | c in h'.chunks ensures ChunkFits(h', c) { GrowChunk(h, h', w, m, c); }
    forall x | x in Places(h') ensures PlaceFits(h', x) { GrowPlace(h, h', w, m, x); }
    forall c, x | c in h'.chunks && x in Places(h') ensures Apart(h', c, x) { GrowApart(h, h', w, m, c, x); }
  }

  lemma GrowthIsGood(h: Heap, h': Heap, w: int, m: nat)
    requires Good(h) && Grows(h, h', w, m)
    ensures Good(h') && Used(h') == Used(h) + {w} && w !in Used(h) && Keeps(h, h', {})
    ensures w + m in h'.sentinels && w in h'.chunks && h'.csize[w] == Tag(m, true)
  {
    GrowTiled(h, h', w, m);
    GrowPresent(h, h', w, m);
    SameFreeIsBinned(h, h');
    forall d | d in h'.chunks && !h'.csize[d].used
      ensures ChunkFits(h', d) && h'.psize[d].used && h'.csize[After(h', d)].used
    {
      assert ChunkFits(h', d) && ChunkFits(h, d);
      assert IsFree(h, d);
    }
    GrowthKeeps(h, h', w, m);
  }

  lemma GrowthKeeps(h: Heap, h': Heap, w: int, m: nat)
    requires Good(h) && Grows(h, h', w, m) && Tiled(h') && Present(h')
    ensures Keeps(h, h', {})
  {
    forall d | d in Used(h)
      ensures !Inside(h, w, d) && !Inside(h, w + m, d)
    {
      assert ChunkFits(h, d);
      if w in Places(h) { NotInside(h, w, d); }
    }
    HeaderWritesKeep(h, h', {w, w + m}, {});
  }

  /* ---------- the program writes to its memory ---------- */

  /** Only words of the chunk's payload differ. */
  ghost predicate PayloadWrites(h: Heap, h': Heap, c: int)
    requires Present(h)
  {
    && c in Used(h)
    && h'.chunks == h.chunks && h'.sentinels == h.sentinels && h'.bins == h.bins && h'.binmap == h.binmap
    && Same(h.psize, h'.psize, c) && Same(h.csize, h'.csize, c)
    && forall a | a != c && !Inside(h, a, c) :: WordsSame(h, h', a)
  }

  lemma PayloadSparesHeaders(h: Heap, h': Heap, c: int)
    requires Tiled(h) && PayloadWrites(h, h', c)
    ensures SameHeaders(h, h')
  {
    forall x | x in Places(h)
      ensures Same(h.psize, h'.psize, x) && Same(h.csize, h'.csize, x)
    {
      NotInside(h, x, c);
      assert x != c ==> WordsSame(h, h', x);
    }
  }

  lemma PayloadIsGood(h: Heap, h': Heap, c: int)
    requires Good(h) && PayloadWrites(h, h', c)
    ensures Good(h') && Used(h') == Used(h) && SameSegments(h, h') && Keeps(h, h', {c})
  {
    PayloadSparesHeaders(h, h', c);
    SameHeadersTiled(h, h');
    SameHeadersCoalesced(h, h');
    PayloadBinned(h, h', c);
    PayloadKeeps(h, h', c);
  }

  lemma PayloadBinned(h: Heap, h': Heap, c: int)
    requires Good(h) && PayloadWrites(h, h', c) && Tiled(h') && SameHeaders(h, h')
    ensures Binned(h') && Mapped(h')
  {
    forall j: nat | j < BINS
      ensures Ring(h'.next, h'.prev, Bin(j), h'.bins[j])
    {
      forall x | x == Bin(j) || x in h.bins[j]
        ensures Same(h.next, h'.next, x) && Same(h.prev, h'.prev, x)
      {
        if x in h.bins[j] { assert IsFree(h, x); NotInside(h, x, c); }
        assert WordsSame(h, h', x);
      }
      RingFrame(h.next, h.prev, h'.next, h'.prev, Bin(j), h.bins[j]);
    }
    forall j: nat, d | j < BINS && d in h'.bins[j]
      ensures IsFree(h', d) && BinIndex(h'.csize[d].size) == j
    {
      assert IsFree(h, d);
    }
    forall d | IsFree(h', d) ensures d in h'.bins[BinIndex(h'.csize[d].size)] { assert IsFree(h, d); }
  }

  lemma PayloadKeeps(h: Heap, h': Heap, c: int)
    requires Tiled(h) && Tiled(h') && PayloadWrites(h, h', c) && Used(h') == Used(h)
    ensures Keeps(h, h', {c})
  {
    forall d | d in Used(h) && d != c
      ensures d in Used(h') && h'.csize[d] == h.csize[d] && PayloadSame(h, h', d)
    {
      NotInside(h, d, c);
      assert WordsSame(h, h', d);
      forall g | Inside(h, g, d)
        ensures WordsSame(h, h', g)
      {
        assert Apart(h, c, d) && Apart(h, d, c);
      }
    }
  }
}
