/**
 The allocator's heap as a value: header words, free-list links, and what must hold of them.
 Addresses and sizes are in units of SIZE_ALIGN. The header word of a chunk is its size with the
 in-use flag in the lowest bit. Four words share one address: psize, csize, next and prev; inside
 a chunk the same words are its payload.
 */
module MallocHeap {
  import opened MallocBins

  datatype Tag = Tag(size: nat, used: bool)

  const START := Tag(0, true)   // psize of a segment's first chunk, csize of its sentinel

  /** `chunks`, `sentinels` and `bins` are the shape the words encode. */
  datatype Heap = Heap(psize: map<int, Tag>, csize: map<int, Tag>, next: map<int, int>, prev: map<int, int>,
                       binmap: set<nat>, chunks: set<int>, sentinels: set<int>, bins: seq<seq<int>>)

  /** The list head of bin i, seen as a chunk; heap addresses are positive and 0 is null. */
  function Bin(i: nat): int { -1 - i }

  ghost function Places(h: Heap): set<int> { h.chunks + h.sentinels }

  /** Address right after a chunk. */
  ghost function After(h: Heap, c: int): int
    requires c in h.csize
  {
    c + h.csize[c].size
  }

  ghost predicate Present(h: Heap)
  {
    && h.chunks !! h.sentinels
    && forall x | x in Places(h) :: x > 0 && x in h.psize && x in h.csize
  }

  /** A chunk ends where the next place begins, and that place repeats its size word. */
  ghost predicate ChunkFits(h: Heap, c: int)
    requires Present(h) && c in h.chunks
  {
    var y := After(h, c);
    h.csize[c].size >= 1 && y in Places(h) && h.psize[y] == h.csize[c]
  }

  /** A place begins a segment or follows the chunk whose size word it repeats. */
  ghost predicate PlaceFits(h: Heap, x: int)
    requires Present(h) && x in Places(h)
  {
    var t := h.psize[x];
    t == START || (t.size >= 1 && x - t.size in h.chunks && h.csize[x - t.size] == t)
  }

  ghost predicate Apart(h: Heap, c: int, x: int)
    requires Present(h) && c in h.chunks
  {
    c < x ==> After(h, c) <= x
  }

  /** Each segment is tiled by its chunks up to the sentinel, without gap or overlap. */
  ghost predicate Tiled(h: Heap)
  {
    && Present(h)
    && (forall c {:trigger ChunkFits(h, c)} | c in h.chunks :: ChunkFits(h, c))
    && (forall x {:trigger PlaceFits(h, x)} | x in Places(h) :: PlaceFits(h, x))
    && (forall s | s in h.sentinels :: h.csize[s] == START)
    && (forall c, x {:trigger Apart(h, c, x)} | c in h.chunks && x in Places(h) :: Apart(h, c, x))
  }

  ghost predicate IsFree(h: Heap, c: int)
    requires Present(h)
  {
    c in h.chunks && !h.csize[c].used
  }

  /** No chunk next to a free chunk is free. */
  ghost predicate Coalesced(h: Heap)
    requires Tiled(h)
  {
    forall c | c in h.chunks && !h.csize[c].used ::
      assert ChunkFits(h, c);
      h.psize[c].used && h.csize[After(h, c)].used
  }

  /* ---------- circular lists ---------- */

  ghost predicate Linked(next: map<int, int>, prev: map<int, int>, a: int, b: int)
  {
    a in next && b in prev && next[a] == b && prev[b] == a
  }

  ghost predicate Chain(next: map<int, int>, prev: map<int, int>, r: seq<int>)
  {
    forall k | 0 <= k < |r| - 1 :: Linked(next, prev, r[k], r[k + 1])
  }

  ghost predicate NoDuplicates(s: seq<int>)
  {
    forall i, j | 0 <= i < j < |s| :: s[i] != s[j]
  }

  /** A ring through the head b and the chunks of the list; an untouched bin has null links. */
  ghost predicate Ring(next: map<int, int>, prev: map<int, int>, b: int, list: seq<int>)
  {
    && NoDuplicates(list) && b !in list
    && (|| Chain(next, prev, [b] + list + [b])
        || (list == [] && b in next && b in prev && next[b] == 0 && prev[b] == 0))
  }

  /** Every free chunk is in the list of its size's bin, and the lists hold nothing else. */
  ghost predicate Binned(h: Heap)
    requires Tiled(h)
  {
    && |h.bins| == BINS
    && (forall i: nat | i < BINS :: Ring(h.next, h.prev, Bin(i), h.bins[i]))
    && (forall i: nat | i < BINS :: forall c | c in h.bins[i] :: IsFree(h, c) && BinIndex(h.csize[c].size) == i)
    && (forall c | IsFree(h, c) :: c in h.bins[BinIndex(h.csize[c].size)])
  }

  ghost predicate Mapped(h: Heap)
  {
    |h.bins| == BINS && forall i: nat :: i in h.binmap <==> i < BINS && h.bins[i] != []
  }

  ghost predicate Good(h: Heap)
  {
    Tiled(h) && Coalesced(h) && Binned(h) && Mapped(h)
  }

  /* ---------- what a caller relies on ---------- */

  ghost function Used(h: Heap): set<int>
    requires Present(h)
  {
    set c | c in h.chunks && h.csize[c].used
  }

  ghost predicate Same<T>(m: map<int, T>, m': map<int, T>, a: int)
  {
    (a in m <==> a in m') && (a in m ==> m[a] == m'[a])
  }

  ghost predicate WordsSame(h: Heap, h': Heap, g: int)
  {
    Same(h.psize, h'.psize, g) && Same(h.csize, h'.csize, g) && Same(h.next, h'.next, g) && Same(h.prev, h'.prev, g)
  }

  /** All words of a chunk except its header: the caller's memory. */
  ghost predicate PayloadSame(h: Heap, h': Heap, c: int)
    requires c in h.csize
  {
    Same(h.next, h'.next, c) && Same(h.prev, h'.prev, c) && forall g | Inside(h, g, c) :: WordsSame(h, h', g)
  }

  /** Chunks in use, other than the excepted, stay in use with their size and contents. */
  ghost predicate Keeps(h: Heap, h': Heap, except: set<int>)
    requires Present(h) && Present(h')
  {
    forall c | c in Used(h) && c !in except :: c in Used(h') && h'.csize[c] == h.csize[c] && PayloadSame(h, h', c)
  }

  /** The heap covers the same segments. */
  ghost predicate SameSegments(h: Heap, h': Heap)
    requires Present(h) && Present(h')
  {
    h.sentinels == h'.sentinels
    && forall x :: x in Places(h) && h.psize[x] == START <==> x in Places(h') && h'.psize[x] == START
  }

  lemma KeepsTransitive(h0: Heap, h1: Heap, h2: Heap, except: set<int>, except': set<int>)
    requires Present(h0) && Present(h1) && Present(h2)
    requires Keeps(h0, h1, except) && Keeps(h1, h2, except')
    ensures Keeps(h0, h2, except + except')
  {
    forall c | c in Used(h0) && c !in except + except'
      ensures c in Used(h2) && h2.csize[c] == h0.csize[c] && PayloadSame(h0, h2, c)
    {
      assert c in Used(h1) && PayloadSame(h0, h1, c) && PayloadSame(h1, h2, c);
      forall g | Inside(h0, g, c)
        ensures WordsSame(h0, h2, g)
      {
        assert Inside(h1, g, c) && WordsSame(h0, h1, g) && WordsSame(h1, h2, g);
      }
    }
  }

  /* ---------- places and neighbours ---------- */

  ghost predicate Inside(h: Heap, a: int, c: int)
    requires c in h.csize
  {
    c < a < After(h, c)
  }

  lemma NotInside(h: Heap, x: int, c: int)
    requires Tiled(h) && x in Places(h) && c in h.chunks
    ensures !Inside(h, x, c)
  {
    assert Apart(h, c, x);
  }

  lemma AfterInjective(h: Heap, c: int, d: int)
    requires Tiled(h) && c in h.chunks && d in h.chunks && After(h, c) == After(h, d)
    ensures c == d
  {
    assert ChunkFits(h, c) && ChunkFits(h, d);
    assert Apart(h, c, d) && Apart(h, d, c);
  }

  /* ---------- primitive changes ---------- */

  ghost function Position(list: seq<int>, c: int): (k: nat)
    requires c in list
    ensures k < |list| && list[k] == c
  {
    if list[0] == c then 0 else 1 + Position(list[1..], c)
  }

  ghost function Without(list: seq<int>, c: int): seq<int>
    requires c in list
  {
    list[..Position(list, c)] + list[Position(list, c) + 1..]
  }

  /** Take a free chunk out of its bin and mark it used. */
  ghost function Unbin(h: Heap, c: int): Heap
    requires Good(h) && IsFree(h, c)
  {
    var i := BinIndex(h.csize[c].size);
    RingLinks(h, c);
    var p, n := h.prev[c], h.next[c];
    h.(next := h.next[p := n],
       prev := h.prev[n := p],
       csize := h.csize[c := Tag(h.csize[c].size, true)],
       psize := h.psize[After(h, c) := Tag(h.csize[c].size, true)],
       binmap := if p == n then h.binmap - {i} else h.binmap,
       bins := h.bins[i := Without(h.bins[i], c)])
  }

  lemma RingAt(next: map<int, int>, prev: map<int, int>, b: int, list: seq<int>, k: nat)
    requires Ring(next, prev, b, list) && k < |list|
    ensures Linked(next, prev, if k == 0 then b else list[k - 1], list[k])
    ensures Linked(next, prev, list[k], if k + 1 == |list| then b else list[k + 1])
  {
    var r := [b] + list + [b];
    assert r[k + 1] == list[k];
    assert Linked(next, prev, r[k], r[k + 1]) && Linked(next, prev, r[k + 1], r[k + 2]);
  }

  lemma RingLinks(h: Heap, c: int)
    requires Good(h) && IsFree(h, c)
    ensures c in h.next && c in h.prev && Linked(h.next, h.prev, h.prev[c], c) && Linked(h.next, h.prev, c, h.next[c])
  {
    var i := BinIndex(h.csize[c].size);
    RingAt(h.next, h.prev, Bin(i), h.bins[i], Position(h.bins[i], c));
  }

  lemma RingFrame(next: map<int, int>, prev: map<int, int>, next': map<int, int>, prev': map<int, int>, b: int,
                  list: seq<int>)
    requires Ring(next, prev, b, list)
    requires forall x | x == b || x in list :: Same(next, next', x) && Same(prev, prev', x)
    ensures Ring(next', prev', b, list)
  {
    var r := [b] + list + [b];
    forall j | 0 <= j < |r|
      ensures r[j] == b || r[j] in list
    {
    }
    if Chain(next, prev, r) {
      forall k | 0 <= k < |r| - 1
        ensures Linked(next', prev', r[k], r[k + 1])
      {
        assert Linked(next, prev, r[k], r[k + 1]);
      }
    }
  }

  lemma RingRemove(next: map<int, int>, prev: map<int, int>, b: int, list: seq<int>, k: nat)
    requires Ring(next, prev, b, list) && k < |list|
    ensures list[k] in next && list[k] in prev
    ensures var n, p := next[list[k]], prev[list[k]];
            && Ring(next[p := n], prev[n := p], b, list[..k] + list[k + 1..])
            && (p == n <==> |list| == 1)
            && (p == b || p in list) && (n == b || n in list)
  {
    RingAt(next, prev, b, list, k);
    var c := list[k];
    var n, p := next[c], prev[c];
    var rest := list[..k] + list[k + 1..];
    var r, r' := [b] + list + [b], [b] + rest + [b];
    forall j | 0 <= j < |r'| - 1
      ensures Linked(next[p := n], prev[n := p], r'[j], r'[j + 1])
    {
      if j < k {
        assert r'[j] == r[j] && r'[j + 1] == r[j + 1] && Linked(next, prev, r[j], r[j + 1]);
      } else if j == k {
        assert r'[j] == r[j] && r'[j + 1] == r[j + 2];
      } else {
        assert r'[j] == r[j + 1] && r'[j + 1] == r[j + 2] && Linked(next, prev, r[j + 1], r[j + 2]);
      }
    }
  }
}
