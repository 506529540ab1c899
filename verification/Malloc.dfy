/** The allocator: malloc, free and realloc over one heap, by one thread. */
module Malloc {
  import opened Wrappers
  import opened MallocBins
  import opened MallocHeap
  import opened MallocSteps

  const SIZE_ALIGN := 32
  const OVERHEAD := 16
  const DONTCARE := 16
  const PAGE_SIZE := 4096
  const PTRDIFF_MAX := 0x7fff_ffff_ffff_ffff
  const SIZE_MAX := 0xffff_ffff_ffff_ffff

  /** What the operating system answers during one call: pages for the heap, or a mapping of its own. */
  datatype Os = Os(pages: Option<(int, nat)>, mapped: bool)

  datatype Allocation = Null | Block(p: int) | Mapped

  function MemToChunk(p: int): int { p - 1 }

  function ChunkToMem(c: int): int { c + 1 }

  /** The request in units of SIZE_ALIGN, header included; none when it cannot be met. */
  function AdjustSize(n: nat): (r: Option<nat>)
    requires n <= SIZE_MAX
    ensures r.Some? <==> n <= PTRDIFF_MAX - SIZE_ALIGN - PAGE_SIZE + 1
    ensures r.Some? ==> r.value >= 1 && n + OVERHEAD <= SIZE_ALIGN * r.value
    ensures r.Some? && n > 0 ==> SIZE_ALIGN * (r.value - 1) < n + OVERHEAD
  {
    var wrapped := if n == 0 then SIZE_MAX else n - 1;
    if wrapped > PTRDIFF_MAX - SIZE_ALIGN - PAGE_SIZE then
      if n != 0 then None else Some(1)
    else
      Some((n + OVERHEAD + SIZE_ALIGN - 1) / SIZE_ALIGN)
  }

  /** The first k units of one chunk's memory hold what another's held. */
  ghost predicate Copied(h: Heap, c: int, h': Heap, c': int, k: nat)
  {
    && SameAt(h.next, c, h'.next, c') && SameAt(h.prev, c, h'.prev, c')
    && forall o | 0 < o < k :: UnitCopied(h, c, h', c', o)
  }

  ghost predicate UnitCopied(h: Heap, c: int, h': Heap, c': int, o: nat)
  {
    var a, a' := c + o, c' + o;
    && SameAt(h.psize, a, h'.psize, a') && SameAt(h.csize, a, h'.csize, a')
    && SameAt(h.next, a, h'.next, a') && SameAt(h.prev, a, h'.prev, a')
  }

  ghost predicate SameAt<T>(m: map<int, T>, a: int, m': map<int, T>, a': int)
  {
    (a in m <==> a' in m') && (a in m ==> m[a] == m'[a'])
  }

  function CopyWord<T>(m: map<int, T>, from: int, to: int): map<int, T>
  {
    if from in m then m[to := m[from]] else m - {to}
  }

  /** All list heads null, as static storage begins. */
  function NullHeads(k: nat): (m: map<int, int>)
    ensures forall i: nat | i < k :: Bin(i) in m && m[Bin(i)] == 0
  {
    if k == 0 then map[] else NullHeads(k - 1)[Bin(k - 1) := 0]
  }

  ghost function NoChunks(): seq<seq<int>> { seq(BINS, i => []) }

  ghost function Empty(heads: map<int, int>): Heap
  {
    Heap(map[], map[], heads, heads, {}, {}, {}, NoChunks())
  }

  lemma EmptyIsGood(heads: map<int, int>)
    requires forall i: nat | i < BINS :: Bin(i) in heads && heads[Bin(i)] == 0
    ensures Good(Empty(heads)) && Used(Empty(heads)) == {}
  {
  }

  class Heap64 {
    var psize: map<int, Tag>
    var csize: map<int, Tag>
    var next: map<int, int>
    var prev: map<int, int>
    var binmap: set<nat>
    var end: int

    ghost var chunks: set<int>
    ghost var sentinels: set<int>
    ghost var bins: seq<seq<int>>

    ghost function H(): Heap
      reads this
    {
      Heap(psize, csize, next, prev, binmap, chunks, sentinels, bins)
    }

    ghost predicate Valid()
      reads this
    {
      Good(H()) && (end != 0 ==> end - 1 in sentinels)
    }

    /** The chunks the program holds. */
    ghost function InUse(): set<int>
      reads this
      requires Valid()
    {
      Used(H())
    }

    constructor ()
      ensures Valid() && InUse() == {}
    {
      var heads := NullHeads(BINS);
      psize, csize := map[], map[];
      next, prev := heads, heads;
      binmap, end := {}, 0;
      chunks, sentinels, bins := {}, {}, NoChunks();
      new;
      EmptyIsGood(heads);
      assert H() == Empty(heads);
    }

    /** Initializes a bin's list on first use. */
    method LockBin(i: nat)
      requires Good(H()) && i < BINS
      modifies this`next, this`prev
      ensures Good(H()) && SameSegments(old(H()), H()) && Used(H()) == Used(old(H())) && Keeps(old(H()), H(), {})
      ensures Live(next, prev, Bin(i), bins[i])
      ensures bins[i] != [] ==> next == old(next) && prev == old(prev)
    {
      EmptyWhenNull(H(), i);
      if next[Bin(i)] == 0 {
        ghost var h := H();
        next := next[Bin(i) := Bin(i)];
        prev := prev[Bin(i) := Bin(i)];
        InitializeIsGood(h, H(), i);
      }
    }

    method UnbinChunk(c: int, i: nat)
      requires Good(H()) && IsFree(H(), c) && i == BinIndex(csize[c].size)
      modifies this`next, this`prev, this`csize, this`psize, this`binmap, this`bins
      ensures Took(old(H()), H(), c)
    {
      ghost var h := H();
      RingLinks(h, c);
      if prev[c] == next[c] { binmap := binmap - {i}; }
      var p, n := prev[c], next[c];
      next := next[p := n];
      prev := prev[n := p];
      csize := csize[c := Tag(csize[c].size, true)];
      psize := psize[c + csize[c].size := Tag(csize[c].size, true)];
      bins := bins[i := Without(bins[i], c)];
      assert H() == Unbin(h, c);
      UnbinIsGood(h, c);
    }

    /** Takes the chunk at c if it is free. */
    method AllocFwd(c: int) returns (ok: bool)
      requires Good(H()) && c in Places(H())
      modifies this`next, this`prev, this`csize, this`psize, this`binmap, this`bins
      ensures ok <==> !old(csize[c]).used
      ensures !ok ==> H() == old(H())
      ensures ok ==> Took(old(H()), H(), c)
    {
      if csize[c].used { return false; }
      assert c in chunks;
      var i := BinIndex(csize[c].size);
      assert c in bins[i] by { assert IsFree(H(), c); }
      LockBin(i);
      UnbinChunk(c, i);
      return true;
    }

    /** Takes the chunk before c if it is free. */
    method AllocRev(c: int) returns (ok: bool)
      requires Good(H()) && c in Places(H())
      modifies this`next, this`prev, this`csize, this`psize, this`binmap, this`bins
      ensures ok <==> !old(psize[c]).used
      ensures !ok ==> H() == old(H())
      ensures ok ==> Took(old(H()), H(), c - old(psize[c]).size)
    {
      if psize[c].used { return false; }
      assert PlaceFits(H(), c);
      var p := c - psize[c].size;
      var i := BinIndex(psize[c].size);
      assert p in bins[i] by { assert IsFree(H(), p); }
      LockBin(i);
      UnbinChunk(p, i);
      return true;
    }

    /** Trims a chunk still in its bin, when what is left over stays in the same bin. */
    method Pretrim(self: int, n: nat, i: nat, j: nat) returns (ok: bool)
      requires Good(H()) && 1 <= n <= MMAP_THRESHOLD && i == BinIndexUp(n)
      requires IsFree(H(), self) && j == BinIndex(csize[self].size) && i <= j
      modifies this`next, this`prev, this`csize, this`psize, this`chunks, this`bins
      ensures !ok ==> H() == old(H())
      ensures ok ==> Pretrims(old(H()), H(), self, n)
    {
      assert ChunkFits(H(), self);
      ok := RestStays(n, csize[self].size, i, j);
      ghost var h := H();
      if ok {
        LinksAway(h, self, self + n);
        SplitInBin(self, n, j);
        SplitInBinPretrims(h, H(), self, n, j);
      }
    }

    /** Is what a chunk of n1 units has beyond n units large enough for the same bin? */
    method RestStays(n: nat, n1: nat, i: nat, j: nat) returns (ok: bool)
      requires 1 <= n <= MMAP_THRESHOLD && i == BinIndexUp(n) && n1 >= 1 && j == BinIndex(n1) && i <= j
      ensures ok ==> n < n1 && BinIndex(n1 - n) == j
      ensures ok <==> j >= 40 && (j >= i + 3 || (j == 63 && n1 - n > MMAP_THRESHOLD)) && n < n1 && BinIndex(n1 - n) == j
    {
      if j < 40 { return false; }
      BinIndexUpIsSafe(n, n1);
      if j < i + 3 {
        if j != 63 { return false; }
        if n1 - n <= MMAP_THRESHOLD { return false; }
      }
      LargerThanRequest(n, n1, i, j);
      return BinIndex(n1 - n) == j;
    }

    /** Cuts a listed chunk in two; the second part takes its place in the list. */
    method SplitInBin(self: int, n: nat, j: nat)
      requires Present(H()) && self in chunks && 1 <= n < csize[self].size && j < |bins| && self in bins[j]
      requires self in next && self in prev && prev[self] != self + n && next[self] != self + n
      modifies this`next, this`prev, this`csize, this`psize, this`chunks, this`bins
      ensures SplitsInBin(old(H()), H(), self, n, j)
    {
      ReplaceLinks(self, self + n);
      bins := bins[j := bins[j][Position(bins[j], self) := self + n]];
      SplitHeaders(self, n, false);
    }

    /** Puts a new chunk where another stands in a list. */
    method ReplaceLinks(self: int, split: int)
      requires self in next && self in prev && prev[self] != split && next[self] != split
      modifies this`next, this`prev
      ensures next == old(next)[split := old(next)[self]][old(prev)[self] := split]
      ensures prev == old(prev)[split := old(prev)[self]][old(next)[self] := split]
    {
      prev := prev[split := prev[self]];
      next := next[split := next[self]];
      next := next[prev[split] := split];
      prev := prev[next[split] := split];
    }

    /** Writes the headers that make n units and the rest two chunks. */
    method SplitHeaders(self: int, n: nat, restUsed: bool)
      requires Present(H()) && self in chunks && 1 <= n < csize[self].size
      modifies this`psize, this`csize, this`chunks
      ensures Splits(old(H()), H(), self, n, restUsed)
    {
      var n1 := csize[self].size;
      var after := self + n1;
      var split := self + n;
      psize := psize[split := Tag(n, true)];
      csize := csize[split := Tag(n1 - n, restUsed)];
      psize := psize[after := Tag(n1 - n, restUsed)];
      csize := csize[self := Tag(n, true)];
      chunks := chunks + {split};
    }

    /** Writes one header over a run of chunks in use. */
    method MergeRun(self: int, total: nat)
      requires Good(H()) && Run(H(), self, total)
      modifies this`psize, this`csize, this`chunks
      ensures Merges(old(H()), H(), self, total)
    {
      ghost var h := H();
      csize := csize[self := Tag(total, true)];
      psize := psize[self + total := Tag(total, true)];
      chunks := chunks - Between(h, self, total);
    }

    /** Files a chunk whose neighbours are in use at the end of its bin. */
    method FileChunk(self: int)
      requires Good(H()) && self in Used(H())
      requires psize[self].used && ChunkFits(H(), self) && csize[self + csize[self].size].used
      modifies this`psize, this`csize, this`next, this`prev, this`binmap, this`bins
      ensures Good(H()) && SameSegments(old(H()), H())
      ensures Used(H()) == Used(old(H())) - {self} && Keeps(old(H()), H(), {self})
    {
      ghost var h0 := H();
      var size := csize[self].size;
      var i := BinIndex(size);
      LockBin(i);
      ghost var h1 := H();
      FilingStarts(h0, h1, self);
      LinkLast(self, size, i);
      FilingEnds(h1, H(), self);
      Filed(h0, h1, H(), self);
    }

    /** Marks a chunk free and hangs it behind the last of its list. */
    method LinkLast(self: int, size: nat, i: nat)
      requires Bin(i) in prev && self != Bin(i) && i < |bins|
      modifies this`psize, this`csize, this`next, this`prev, this`binmap, this`bins
      ensures LinksLast(old(H()), H(), self, size, i)
    {
      binmap := binmap + {i};
      csize := csize[self := Tag(size, false)];
      psize := psize[self + size := Tag(size, false)];
      next := next[self := Bin(i)];
      prev := prev[self := prev[Bin(i)]];
      prev := prev[next[self] := self];
      next := next[prev[self] := self];
      bins := bins[i := bins[i] + [self]];
    }

    /** Gives back what a chunk in use has beyond n units. */
    method Trim(self: int, n: nat)
      requires Valid() && self in InUse() && 1 <= n <= csize[self].size
      modifies this
      ensures Valid() && end == old(end)
      ensures SameSegments(old(H()), H()) && InUse() == old(InUse()) && Keeps(old(H()), H(), {self})
      ensures csize[self] == Tag(n, true) && Copied(old(H()), self, H(), self, n)
    {
      var n1 := csize[self].size;
      ghost var h0 := H();
      if SIZE_ALIGN * n >= SIZE_ALIGN * n1 - DONTCARE { return; }
      SplitHeaders(self, n, true);
      ghost var h1 := H();
      TrimSplit(h0, h1, self, n);
      assert self + n in InUse() && MemToChunk(ChunkToMem(self + n)) == self + n;
      Free(ChunkToMem(self + n));
      TrimDone(h0, h1, H(), self, n);
    }

    /**
     Releases a chunk: it merges with its free neighbours and joins the list of its size. The
     source's test for a damaged footer never fires on a block the program holds.
     */
    method Free(p: int)
      requires Valid() && (p != 0 ==> MemToChunk(p) in InUse())
      modifies this
      ensures Valid() && end == old(end) && SameSegments(old(H()), H())
      ensures p == 0 ==> H() == old(H())
      ensures p != 0 ==> InUse() == old(InUse()) - {MemToChunk(p)} && Keeps(old(H()), H(), {MemToChunk(p)})
    {
      if p == 0 { return; }
      var c := MemToChunk(p);
      ghost var h0 := H();
      var self, finalSize := Coalesce(c);
      ghost var h1 := H();
      MergeRun(self, finalSize);
      ghost var h2 := H();
      MergedAlone(h1, h2, self, finalSize);
      FileChunk(self);
      FreedExactly(h0, h1, h2, H(), self, finalSize, c);
    }

    /** Takes the free neighbours of a chunk; what lies next to the run found is in use. */
    method Coalesce(c: int) returns (self: int, finalSize: nat)
      requires Valid() && c in Used(H())
      modifies this`next, this`prev, this`csize, this`psize, this`binmap, this`bins
      ensures Freeing(old(H()), H(), self, finalSize, c)
      ensures psize[self].used && csize[self + finalSize].used
    {
      ghost var h0 := H();
      self, finalSize := c, csize[c].size;
      FreeingStarts(h0, self);
      assert psize[self + finalSize] == csize[self];
      while !(psize[self].used && csize[self + finalSize].used)
        invariant Freeing(h0, H(), self, finalSize, c)
        decreases (if psize[self].used then 0 else 1) + (if csize[self + finalSize].used then 0 else 1)
      {
        self, finalSize := TakeBefore(self, finalSize, h0, c);
        finalSize := TakeAfter(self, finalSize, h0, c);
      }
    }

    method TakeBefore(self: int, size: nat, ghost h0: Heap, ghost c: int) returns (self': int, size': nat)
      requires Good(h0) && Freeing(h0, H(), self, size, c)
      modifies this`next, this`prev, this`csize, this`psize, this`binmap, this`bins
      ensures Freeing(h0, H(), self', size', c) && self' + size' == self + size
      ensures psize[self'].used && csize[self + size] == old(csize)[self + size]
    {
      self', size' := self, size;
      ghost var h := H();
      FreeingPlaces(h0, h, self, size, c);
      var before := self - psize[self].size;
      var taken := AllocRev(self);
      if taken {
        AbsorbLeft(h0, h, H(), before, self, size, c);
        self' := before;
        size' := size + csize[before].size;
      }
    }

    method TakeAfter(self: int, size: nat, ghost h0: Heap, ghost c: int) returns (size': nat)
      requires Good(h0) && Freeing(h0, H(), self, size, c)
      modifies this`next, this`prev, this`csize, this`psize, this`binmap, this`bins
      ensures Freeing(h0, H(), self, size', c)
      ensures psize[self] == old(psize)[self] && csize[self + size'].used
    {
      size' := size;
      ghost var h := H();
      FreeingPlaces(h0, h, self, size, c);
      var after := self + size;
      var taken := AllocFwd(after);
      if taken {
        AbsorbRight(h0, h, H(), after, self, size, c);
        size' := size + csize[after].size;
      }
    }

    /** Extends the heap by at least n units and makes them a chunk in use; 0 when there is no memory. */
    method ExpandHeap(n: nat, pages: Option<(int, nat)>) returns (w: int)
      requires Valid() && n >= 1
      requires pages.Some? ==> pages.value.1 > n && FreshPages(H(), pages.value.0, pages.value.1)
      modifies this`psize, this`csize, this`end, this`chunks, this`sentinels
      ensures Valid() && Keeps(old(H()), H(), {})
      ensures pages.None? ==> w == 0 && H() == old(H())
      ensures pages.Some? ==> w > 0 && w !in Used(old(H())) && Used(H()) == Used(old(H())) + {w} && csize[w].size >= n
    {
      if pages.None? { return 0; }
      var (p, m) := pages.value;
      ghost var h := H();
      if p != end {
        m := m - 1;
        p := p + 1;
        psize := psize[MemToChunk(p) := START];
      }
      w := MemToChunk(p);
      CloseSegment(p, m);
      Grown(h, H(), pages.value.0, pages.value.1, w, m);
    }

    /** A chunk of m units from p on, and the sentinel that ends its segment. */
    method CloseSegment(p: int, m: nat)
      modifies this`psize, this`csize, this`end, this`chunks, this`sentinels
      ensures end == p + m
      ensures psize == old(psize)[p - 1 + m := Tag(m, true)]
      ensures csize == old(csize)[p - 1 + m := START][p - 1 := Tag(m, true)]
      ensures chunks == old(chunks) + {p - 1} && sentinels == old(sentinels) - {p - 1} + {p - 1 + m}
    {
      end := p + m;
      psize := psize[MemToChunk(end) := Tag(m, true)];
      csize := csize[MemToChunk(end) := START];
      csize := csize[MemToChunk(p) := Tag(m, true)];
      chunks := chunks + {MemToChunk(p)};
      sentinels := sentinels - {MemToChunk(p)} + {MemToChunk(end)};
    }

    /** The lowest set bit of the bin map from bit i on. */
    method FirstSet(i: nat) returns (j: nat)
      requires exists k :: k in binmap && i <= k
      ensures j in binmap && i <= j && forall k | i <= k < j :: k !in binmap
    {
      j := i;
      ghost var k :| k in binmap && i <= k;
      while j !in binmap
        invariant i <= j <= k && forall k | i <= k < j :: k !in binmap
        decreases k - j
      {
        j := j + 1;
      }
    }

    /** The first chunk of the first non-empty bin that is sure to be large enough. */
    method TakeFromBin(n: nat, i: nat) returns (c: int)
      requires Valid() && 1 <= n <= MMAP_THRESHOLD && i == BinIndexUp(n)
      requires exists k :: k in binmap && i <= k
      modifies this`next, this`prev, this`csize, this`psize, this`binmap, this`chunks, this`bins
      ensures Valid() && Keeps(old(H()), H(), {}) && SameSegments(old(H()), H())
      ensures c !in Used(old(H())) && Used(H()) == Used(old(H())) + {c} && csize[c].size >= n
    {
      var j := FirstSet(i);
      LockBin(j);
      ghost var h := H();
      FirstOfBin(h, n, i, j);
      c := next[Bin(j)];
      var trimmed := Pretrim(c, n, i, j);
      if trimmed {
        PretrimIsGood(h, H(), c, n);
      } else {
        UnbinChunk(c, j);
      }
    }

    /** New pages, joined with a free chunk that ends where they begin. */
    method TakeFromPages(n: nat, pages: Option<(int, nat)>) returns (c: int)
      requires Valid() && n >= 1
      requires pages.Some? ==> pages.value.1 > n && FreshPages(H(), pages.value.0, pages.value.1)
      modifies this
      ensures Valid() && Keeps(old(H()), H(), {})
      ensures pages.None? ==> c == 0 && H() == old(H())
      ensures pages.Some? ==> c > 0 && c !in Used(old(H())) && Used(H()) == Used(old(H())) + {c} && csize[c].size >= n
    {
      ghost var h0 := H();
      c := ExpandHeap(n, pages);
      if c == 0 { return; }
      ghost var h1 := H();
      assert c in Used(h1);
      var before := c - psize[c].size;
      var rev := AllocRev(c);
      if rev {
        ghost var h2 := H();
        JoinBefore(h1, h2, before, c);
        var x := c;
        c := before;
        MergeRun(c, csize[c].size + csize[x].size);
        JoinedAlone(h0, h1, h2, H(), c, x);
      }
    }

    /**
     A block for `bytes` bytes: a chunk that was not in use, large enough and no larger than the
     request rounded up. All other blocks keep their size and contents.
     */
    method Malloc(bytes: nat, os: Os) returns (r: Allocation)
      requires Valid() && bytes <= SIZE_MAX
      requires os.pages.Some? ==> AdjustSize(bytes).Some? ==>
                 os.pages.value.1 > AdjustSize(bytes).value && FreshPages(H(), os.pages.value.0, os.pages.value.1)
      modifies this
      ensures Valid() && Keeps(old(H()), H(), {})
      ensures !r.Block? ==> H() == old(H())
      ensures r.Block? ==> AdjustSize(bytes).Some?
                           && var c := MemToChunk(r.p);
                              && c !in old(InUse()) && InUse() == old(InUse()) + {c}
                              && csize[c] == Tag(AdjustSize(bytes).value, true)
      ensures match AdjustSize(bytes)
              case None => r == Null
              case Some(n) =>
                if n > MMAP_THRESHOLD then r == if os.mapped then Mapped else Null
                else r.Block? <==> os.pages.Some? || exists k :: k in old(binmap) && BinIndexUp(n) <= k
    {
      var adjusted := AdjustSize(bytes);
      if adjusted.None? { return Null; }
      var n := adjusted.value;
      if n > MMAP_THRESHOLD { return if os.mapped then Mapped else Null; }
      var i := BinIndexUp(n);
      ghost var h0 := H();
      var c;
      if forall k | k in binmap :: k < i {
        c := TakeFromPages(n, os.pages);
        if c == 0 { return Null; }
      } else {
        c := TakeFromBin(n, i);
      }
      ghost var h1 := H();
      Trim(c, n);
      TakenAndTrimmed(h0, h1, H(), c);
      r := Block(ChunkToMem(c));
    }

    method CopyUnit(to: int, from: int, o: nat, ghost h: Heap)
      requires o >= 1 && Copied(h, from, H(), to, o) && WordsSame(h, H(), from + o)
      modifies this`psize, this`csize, this`next, this`prev
      ensures Copied(h, from, H(), to, o + 1)
      ensures forall a | a != to + o :: WordsSame(old(H()), H(), a)
    {
      ghost var h1 := H();
      psize := CopyWord(psize, from + o, to + o);
      csize := CopyWord(csize, from + o, to + o);
      next := CopyWord(next, from + o, to + o);
      prev := CopyWord(prev, from + o, to + o);
      CopiedFurther(h, from, h1, H(), to, o);
    }

    /** Copies the memory of one chunk in use, k units of it, to the start of another's. */
    method Memcpy(to: int, from: int, k: nat)
      requires Valid() && to in InUse() && from in InUse() && to != from
      requires 1 <= k <= csize[from].size && k <= csize[to].size
      modifies this`psize, this`csize, this`next, this`prev
      ensures Valid() && InUse() == old(InUse()) && SameSegments(old(H()), H()) && Keeps(old(H()), H(), {to})
      ensures csize[to] == old(csize)[to] && Copied(old(H()), from, H(), to, k)
    {
      ghost var h := H();
      ghost var size := csize[to].size;
      next := CopyWord(next, from, to);
      prev := CopyWord(prev, from, to);
      for o := 1 to k
        invariant Copied(h, from, H(), to, o) && Same(h.psize, psize, to) && Same(h.csize, csize, to)
        invariant forall a | a < to || a >= to + o :: WordsSame(h, H(), a)
      {
        ChunksApart(h, from, to, o);
        assert WordsSame(h, H(), from + o);
        ghost var h1 := H();
        CopyUnit(to, from, o, h);
        assert WordsSame(h1, H(), to);
        forall a | a < to || a >= to + (o + 1)
          ensures WordsSame(h, H(), a)
        {
          assert WordsSame(h, h1, a) && WordsSame(h1, H(), a);
        }
      }
      CopyIsPayload(h, H(), to, k);
      PayloadIsGood(h, H(), to);
    }

    /**
     Resizes a block, in place when it shrinks or when the free chunk after it gives enough room,
     by moving it otherwise. Either way the block's contents survive up to the smaller size.
     */
    method Realloc(p: int, bytes: nat, os: Os) returns (r: Allocation)
      requires Valid() && bytes <= SIZE_MAX && (p != 0 ==> MemToChunk(p) in InUse())
      requires os.pages.Some? ==> AdjustSize(bytes).Some? ==>
                 os.pages.value.1 > AdjustSize(bytes).value && FreshPages(H(), os.pages.value.0, os.pages.value.1)
      modifies this
      ensures Valid()
      ensures AdjustSize(bytes).None? ==> r == Null && H() == old(H())
      ensures p == 0 ==> Keeps(old(H()), H(), {})
      ensures p == 0 && r.Block? ==> MemToChunk(r.p) !in old(InUse()) && InUse() == old(InUse()) + {MemToChunk(r.p)}
                                     && csize[MemToChunk(r.p)] == Tag(AdjustSize(bytes).value, true)
      ensures p == 0 && !r.Block? ==> H() == old(H())
      ensures p != 0 ==> Keeps(old(H()), H(), {MemToChunk(p)})
      ensures p != 0 && r.Block? ==>
                var c, c' := MemToChunk(p), MemToChunk(r.p);
                var n0, n := old(csize)[c].size, AdjustSize(bytes).value;
                && InUse() == old(InUse()) - {c} + {c'} && (c' != c ==> c' !in old(InUse()))
                && csize[c'] == Tag(n, true)
                && Copied(old(H()), c, H(), c', if n < n0 then n else n0)
                && (n <= n0 ==> c' == c)
      ensures p != 0 && r == Null ==>
                var c := MemToChunk(p);
                && InUse() == old(InUse()) && csize[c].size >= old(csize)[c].size
                && Copied(old(H()), c, H(), c, old(csize)[c].size)
      ensures p != 0 && r == Mapped ==> InUse() == old(InUse()) - {MemToChunk(p)}
    {
      if p == 0 {
        r := Malloc(bytes, os);
        return;
      }
      var adjusted := AdjustSize(bytes);
      if adjusted.None? { return Null; }
      var n := adjusted.value;
      var self := MemToChunk(p);
      ghost var h0 := H();
      var n0 := csize[self].size;
      var n1 := Enlarge(self, n);
      if n <= n1 {
        ghost var h1 := H();
        Trim(self, n);
        ResizedInPlace(h0, h1, H(), self, n);
        return Block(p);
      }
      if os.pages.Some? { EnlargedStillFresh(h0, H(), self, os); }
      SameRequest(bytes, n);
      r := Move(self, n0, n, os, h0);
    }

    /** Last resort: a new block, a copy of the old contents, and the old block released. */
    method Move(self: int, n0: nat, n: nat, os: Os, ghost h0: Heap) returns (r: Allocation)
      requires Valid() && Good(h0) && Enlarged(h0, H(), self) && n0 == h0.csize[self].size && n > csize[self].size
      requires 0 <= SIZE_ALIGN * n - OVERHEAD <= SIZE_MAX
      requires AdjustSize(SIZE_ALIGN * n - OVERHEAD) in {None, Some(n)}
      requires os.pages.Some? ==> os.pages.value.1 > n && FreshPages(H(), os.pages.value.0, os.pages.value.1)
      modifies this
      ensures Valid() && Keeps(h0, H(), {self})
      ensures r.Block? ==> var to := MemToChunk(r.p);
                           && to !in Used(h0) && Used(H()) == Used(h0) - {self} + {to}
                           && csize[to] == Tag(n, true) && Copied(h0, self, H(), to, n0)
      ensures r == Null ==> H() == old(H())
      ensures r == Mapped ==> Used(H()) == Used(h0) - {self}
    {
      ghost var h1 := H();
      r := Malloc(SIZE_ALIGN * n - OVERHEAD, os);
      if r == Null { return; }
      if r == Mapped {
        Free(ChunkToMem(self));
        KeepsTransitive(h0, h1, H(), {self}, {self});
        return;
      }
      ghost var h2 := H();
      var to := MemToChunk(r.p);
      MallocKeepsSource(h0, h1, h2, self, to);
      assert ChunkFits(h0, self);
      Memcpy(to, self, n0);
      ghost var h3 := H();
      Free(ChunkToMem(self));
      Moved(h0, h1, h2, h3, H(), self, to);
    }

    /** When more room is needed, takes the chunk after this one if it is free. */
    method Enlarge(self: int, n: nat) returns (n1: nat)
      requires Valid() && self in InUse()
      modifies this`psize, this`csize, this`next, this`prev, this`binmap, this`chunks, this`bins
      ensures Valid() && Enlarged(old(H()), H(), self) && n1 == csize[self].size
      ensures n <= old(csize)[self].size ==> n1 == old(csize)[self].size
    {
      ghost var h0 := H();
      n1 := TakeNext(self, n);
      ghost var h1 := H();
      MergeRun(self, n1);
      EnlargeEnds(h0, h1, H(), self, n1);
    }

    method TakeNext(self: int, n: nat) returns (n1: nat)
      requires Valid() && self in InUse()
      modifies this`psize, this`csize, this`next, this`prev, this`binmap, this`bins
      ensures Enlarging(old(H()), H(), self, n1)
      ensures n <= old(csize)[self].size ==> n1 == old(csize)[self].size
    {
      ghost var h0 := H();
      n1 := csize[self].size;
      FreeingStarts(h0, self);
      var after := self + n1;
      assert psize[after] == csize[self];
      EnlargeStays(h0, self);
      if n > n1 {
        var taken := AllocFwd(after);
        if taken {
          EnlargeTakes(h0, H(), self);
          n1 := n1 + csize[after].size;
        }
      }
    }
  }

  lemma Grown(h: Heap, h': Heap, p: int, n: nat, w: int, m: nat)
    requires Good(h) && FreshPages(h, p, n) && n >= 2 && SameLists(h, h')
    requires h'.chunks == h.chunks + {w}
    requires h'.sentinels == h.sentinels - {w} + {w + m}
    requires h'.csize == h.csize[w + m := START][w := Tag(m, true)]
    requires || (w == p && m == n - 1 && h'.psize == h.psize[w := START][w + m := Tag(m, true)])
             || (w == p - 1 && m == n && w in h.sentinels && h'.psize == h.psize[w + m := Tag(m, true)])
    ensures Good(h') && Keeps(h, h', {}) && w > 0 && w !in Used(h) && Used(h') == Used(h) + {w}
    ensures h'.csize[w] == Tag(m, true) && w + m in h'.sentinels
  {
    if w == p {
      assert w !in Places(h);
      assert h'.sentinels == h.sentinels + {w + m};
      assert Opens(h, h', w, m);
    } else {
      assert Prolongs(h, h', w, m);
    }
    GrowthIsGood(h, h', w, m);
  }

  ghost predicate SplitsInBin(h: Heap, h': Heap, c: int, n: nat, j: nat)
    requires Present(h) && c in h.next && c in h.prev && j < |h.bins| && c in h.bins[j]
  {
    && Splits(h, h', c, n, false)
    && h'.next == h.next[c + n := h.next[c]][h.prev[c] := c + n]
    && h'.prev == h.prev[c + n := h.prev[c]][h.next[c] := c + n]
    && h'.bins == h.bins[j := h.bins[j][Position(h.bins[j], c) := c + n]] && h'.binmap == h.binmap
  }

  lemma SplitInBinPretrims(h: Heap, h': Heap, c: int, n: nat, j: nat)
    requires Good(h) && IsFree(h, c) && c in h.next && c in h.prev && j == BinIndex(h.csize[c].size)
    requires SplitsInBin(h, h', c, n, j) && BinIndex(h.csize[c].size - n) == j
    ensures Pretrims(h, h', c, n)
  {
  }

  /** The first chunk of a list that is sure to hold large enough chunks. */
  lemma FirstOfBin(h: Heap, n: nat, i: nat, j: nat)
    requires Good(h) && 1 <= n <= MMAP_THRESHOLD && i == BinIndexUp(n) && i <= j && j in h.binmap
    requires Live(h.next, h.prev, Bin(j), h.bins[j])
    ensures Bin(j) in h.next
    ensures var c := h.next[Bin(j)];
            c in h.csize && IsFree(h, c) && j == BinIndex(h.csize[c].size) && h.csize[c].size >= n
  {
    EmptyWhenNull(h, j);
    var c := h.next[Bin(j)];
    assert c in h.bins[j] && IsFree(h, c);
    assert ChunkFits(h, c);
    BinIndexUpIsSafe(n, h.csize[c].size);
  }

  lemma JoinBefore(h1: Heap, h2: Heap, p: int, c: int)
    requires Good(h1) && c in Used(h1) && !h1.psize[c].used && p == c - h1.psize[c].size && Took(h1, h2, p)
    ensures After(h1, p) == c && h2.csize[p].size + h2.csize[c].size == h1.csize[p].size + h1.csize[c].size
    ensures Good(h2) && Run(h2, p, h2.csize[p].size + h2.csize[c].size)
    ensures SameSegments(h1, h2) && Used(h2) == Used(h1) + {p} && Keeps(h1, h2, {})
    ensures Between(h2, p, h2.csize[p].size + h2.csize[c].size) == {c}
  {
    assert PlaceFits(h1, c);
    RunOfOne(h2, c);
    RunGrowsLeft(h2, p, c, h2.csize[c].size);
    OnlyOneBetween(h2, p, c);
  }

  lemma OnlyOneBetween(h: Heap, p: int, c: int)
    requires Tiled(h) && p in h.chunks && c in h.chunks && After(h, p) == c
    ensures Between(h, p, h.csize[p].size + h.csize[c].size) == {c}
  {
    assert ChunkFits(h, p) && ChunkFits(h, c);
    forall d | d in h.chunks && p < d < c + h.csize[c].size
      ensures d == c
    {
      NotInside(h, d, p);
      NotInside(h, d, c);
    }
  }

  lemma JoinedAlone(h0: Heap, h1: Heap, h2: Heap, h3: Heap, p: int, c: int)
    requires Present(h0) && Present(h1) && Keeps(h0, h1, {}) && Used(h1) == Used(h0) + {c} && c !in Used(h0)
    requires Present(h2) && p !in Used(h1) && Keeps(h1, h2, {}) && Used(h2) == Used(h1) + {p}
    requires var total := h2.csize[p].size + h2.csize[c].size;
             Good(h2) && Merges(h2, h3, p, total) && Between(h2, p, total) == {c}
    ensures Good(h3) && SameSegments(h2, h3) && Keeps(h0, h3, {}) && Used(h3) == Used(h0) + {p} && p !in Used(h0)
    ensures h3.csize[p].size == h2.csize[p].size + h2.csize[c].size
  {
    var total := h2.csize[p].size + h2.csize[c].size;
    MergeIsGood(h2, h3, p, total);
    KeepsTransitive(h0, h1, h2, {}, {});
    KeepsTransitive(h0, h2, h3, {} + {}, {p, c});
    assert {p} + {c} == {p, c};
  }

  lemma TakenAndTrimmed(h0: Heap, h1: Heap, h2: Heap, c: int)
    requires Present(h0) && Present(h1) && Present(h2)
    requires Keeps(h0, h1, {}) && Used(h1) == Used(h0) + {c} && c !in Used(h0)
    requires Keeps(h1, h2, {c}) && Used(h2) == Used(h1)
    ensures Keeps(h0, h2, {}) && Used(h2) == Used(h0) + {c}
  {
    KeepsTransitive(h0, h1, h2, {}, {c});
  }

  /** The chunk is as large as before or has taken over free memory behind it. */
  ghost predicate Enlarged(h0: Heap, h: Heap, c: int)
    requires Good(h0)
  {
    && Good(h) && SameSegments(h0, h) && Used(h) == Used(h0) && Keeps(h0, h, {c})
    && c in Used(h0) && h.csize[c].size >= h0.csize[c].size && Copied(h0, c, h, c, h0.csize[c].size)
    && h.chunks <= h0.chunks
    && (forall d | d in h.chunks && d != c :: h.csize[d].size == h0.csize[d].size)
    && (After(h, c) == After(h0, c) || (After(h0, c) in h0.chunks && After(h, c) == After(h0, After(h0, c))))
  }

  lemma ChunksApart(h: Heap, from: int, to: int, o: nat)
    requires Tiled(h) && from in h.chunks && to in h.chunks && from != to
    requires 0 < o < h.csize[from].size && o < h.csize[to].size
    ensures from + o < to || from + o >= After(h, to)
  {
    assert Apart(h, from, to) && Apart(h, to, from);
  }

  lemma CopiedFurther(h: Heap, from: int, h1: Heap, h2: Heap, to: int, o: nat)
    requires o >= 1 && Copied(h, from, h1, to, o) && WordsSame(h, h1, from + o)
    requires h2.psize == CopyWord(h1.psize, from + o, to + o) && h2.csize == CopyWord(h1.csize, from + o, to + o)
    requires h2.next == CopyWord(h1.next, from + o, to + o) && h2.prev == CopyWord(h1.prev, from + o, to + o)
    ensures Copied(h, from, h2, to, o + 1)
    ensures forall a | a != to + o :: WordsSame(h1, h2, a)
  {
    forall q | 0 < q < o + 1
      ensures UnitCopied(h, from, h2, to, q)
    {
      if q < o { assert UnitCopied(h, from, h1, to, q); }
    }
  }

  lemma CopyIsPayload(h: Heap, h': Heap, to: int, k: nat)
    requires Present(h) && to in Used(h) && k <= h.csize[to].size
    requires h'.chunks == h.chunks && h'.sentinels == h.sentinels && h'.bins == h.bins && h'.binmap == h.binmap
    requires Same(h.psize, h'.psize, to) && Same(h.csize, h'.csize, to)
    requires forall a | a < to || a >= to + k :: WordsSame(h, h', a)
    ensures PayloadWrites(h, h', to)
  {
  }

  lemma CopiedLess(h: Heap, c: int, h': Heap, c': int, k: nat, k': nat)
    requires Copied(h, c, h', c', k) && k' <= k
    ensures Copied(h, c, h', c', k')
  {
  }

  /** The run the chunk is about to become. */
  ghost predicate Enlarging(h0: Heap, h: Heap, c: int, total: nat)
    requires Good(h0)
  {
    && Good(h) && SameSegments(h0, h) && Keeps(h0, h, {}) && h.chunks == h0.chunks
    && c in Used(h0) && c in Used(h) && Run(h, c, total)
    && Used(h) == Used(h0) + Between(h, c, total) && Between(h, c, total) !! Used(h0)
    && (forall d | d in h.chunks :: h.csize[d].size == h0.csize[d].size)
    && total >= h0.csize[c].size
    && (c + total == After(h0, c) || (After(h0, c) in h0.chunks && c + total == After(h0, After(h0, c))))
  }

  lemma EnlargeStays(h0: Heap, c: int)
    requires Good(h0) && c in Used(h0)
    ensures Enlarging(h0, h0, c, h0.csize[c].size)
  {
    RunOfOne(h0, c);
    forall d | d in h0.chunks ensures d !in Between(h0, c, h0.csize[c].size) { NotInside(h0, d, c); }
  }

  lemma EnlargeTakes(h0: Heap, h: Heap, c: int)
    requires Good(h0) && c in Used(h0) && Took(h0, h, After(h0, c))
    ensures Enlarging(h0, h, c, h0.csize[c].size + h.csize[After(h0, c)].size)
  {
    var y := After(h0, c);
    RunOfOne(h0, c);
    RunSurvives(h0, h, c, h0.csize[c].size);
    RunGrowsRight(h, c, h0.csize[c].size);
    OnlyOneBetween(h, c, y);
  }

  lemma EnlargeEnds(h0: Heap, h1: Heap, h2: Heap, c: int, total: nat)
    requires Good(h0) && Enlarging(h0, h1, c, total) && Merges(h1, h2, c, total)
    ensures Enlarged(h0, h2, c) && h2.csize[c].size == total
  {
    MergeIsGood(h1, h2, c, total);
    KeepsTransitive(h0, h1, h2, {}, {c} + Between(h1, c, total));
    assert Keeps(h0, h2, {c}) by {
      forall d | d in Used(h0) && d != c ensures d !in {c} + Between(h1, c, total) {}
    }
    assert PayloadSame(h0, h1, c);
    KeptIsCopied(h0, h1, c);
    CopiedThroughMerge(h0, h1, h2, c, total);
  }

  lemma CopiedThroughMerge(h0: Heap, h1: Heap, h2: Heap, c: int, total: nat)
    requires Present(h0) && Present(h1) && c in h0.chunks && Merges(h1, h2, c, total) && total >= h0.csize[c].size
    requires Copied(h0, c, h1, c, h0.csize[c].size)
    ensures Copied(h0, c, h2, c, h0.csize[c].size)
  {
    forall o | 0 < o < h0.csize[c].size
      ensures UnitCopied(h0, c, h2, c, o)
    {
      assert UnitCopied(h0, c, h1, c, o);
    }
  }

  lemma EnlargedStillFresh(h0: Heap, h: Heap, c: int, os: Os)
    requires Good(h0) && Enlarged(h0, h, c)
    requires os.pages.Some? && FreshPages(h0, os.pages.value.0, os.pages.value.1)
    ensures FreshPages(h, os.pages.value.0, os.pages.value.1)
  {
    assert Places(h) <= Places(h0);
    assert ChunkFits(h0, c);
  }

  lemma ResizedInPlace(h0: Heap, h1: Heap, h2: Heap, c: int, n: nat)
    requires Good(h0) && Enlarged(h0, h1, c) && Good(h2)
    requires Keeps(h1, h2, {c}) && Used(h2) == Used(h1) && Copied(h1, c, h2, c, n)
    ensures Used(h2) == Used(h0) && Keeps(h0, h2, {c})
    ensures Copied(h0, c, h2, c, if n < h0.csize[c].size then n else h0.csize[c].size)
  {
    var k := if n < h0.csize[c].size then n else h0.csize[c].size;
    KeepsTransitive(h0, h1, h2, {c}, {c});
    CopiedLess(h0, c, h1, c, h0.csize[c].size, k);
    CopiedLess(h1, c, h2, c, n, k);
    CopiedOnward(h0, c, h1, c, h2, c, k);
  }

  lemma SameRequest(bytes: nat, n: nat)
    requires bytes <= SIZE_MAX && AdjustSize(bytes) == Some(n)
    ensures 0 <= SIZE_ALIGN * n - OVERHEAD <= SIZE_MAX
    ensures var again := AdjustSize(SIZE_ALIGN * n - OVERHEAD); again == None || again == Some(n)
  {
  }

  lemma MallocKeepsSource(h0: Heap, h1: Heap, h2: Heap, c: int, to: int)
    requires Good(h0) && Enlarged(h0, h1, c) && Good(h2) && Keeps(h1, h2, {}) && to !in Used(h1)
    ensures c in Used(h2) && h2.csize[c] == h1.csize[c] && c != to
    ensures Copied(h0, c, h2, c, h0.csize[c].size)
  {
    assert c in Used(h1) && PayloadSame(h1, h2, c);
    KeptIsCopied(h1, h2, c);
    CopiedLess(h1, c, h2, c, h1.csize[c].size, h0.csize[c].size);
    CopiedOnward(h0, c, h1, c, h2, c, h0.csize[c].size);
  }

  lemma Moved(h0: Heap, h1: Heap, h2: Heap, h3: Heap, h4: Heap, c: int, to: int)
    requires Good(h0) && Enlarged(h0, h1, c) && Good(h2) && Good(h3) && Good(h4)
    requires Keeps(h1, h2, {}) && to !in Used(h1) && Used(h2) == Used(h1) + {to}
    requires Keeps(h2, h3, {to}) && Used(h3) == Used(h2) && h3.csize[to] == h2.csize[to]
    requires Keeps(h3, h4, {c}) && Used(h4) == Used(h3) - {c} && c != to
    requires Copied(h0, c, h2, c, h0.csize[c].size) && Copied(h2, c, h3, to, h0.csize[c].size)
    requires h0.csize[c].size <= h2.csize[to].size
    ensures Used(h4) == Used(h0) - {c} + {to} && Keeps(h0, h4, {c}) && h4.csize[to] == h2.csize[to]
    ensures Copied(h0, c, h4, to, h0.csize[c].size)
  {
    var k := h0.csize[c].size;
    KeepsTransitive(h0, h1, h2, {c}, {});
    KeepsTransitive(h0, h2, h3, {c} + {}, {to});
    KeepsTransitive(h0, h3, h4, {c} + {} + {to}, {c});
    assert to in Used(h3) && PayloadSame(h3, h4, to);
    KeptIsCopied(h3, h4, to);
    CopiedLess(h3, to, h4, to, h3.csize[to].size, k);
    CopiedOnward(h0, c, h2, c, h3, to, k);
    CopiedOnward(h0, c, h3, to, h4, to, k);
  }

  /** A run made only of the freed chunk and of chunks that were free; outside it nothing changed hands. */
  ghost predicate Covers(h0: Heap, h: Heap, self: int, total: nat, c: int)
    requires Present(h0) && Present(h)
  {
    && self <= c < self + total
    && (forall d | d in h.chunks && !(self <= d < self + total) :: d in Used(h) <==> d in Used(h0))
    && (forall d | d in Used(h0) && self <= d < self + total :: d == c)
  }

  ghost predicate Freeing(h0: Heap, h: Heap, self: int, total: nat, c: int)
    requires Good(h0)
  {
    && Good(h) && h.chunks == h0.chunks && SameSegments(h0, h) && Keeps(h0, h, {})
    && Run(h, self, total) && Covers(h0, h, self, total, c)
  }

  lemma FreeingPlaces(h0: Heap, h: Heap, self: int, total: nat, c: int)
    requires Good(h0) && Freeing(h0, h, self, total, c)
    ensures Good(h) && self in Places(h) && self in h.psize && self in h.csize
    ensures self + total in Places(h) && self + total in h.csize && self + total in h.psize
  {
  }

  /** The run takes over the free chunk x, which lies right before it or right after it. */
  lemma CoversGrow(h0: Heap, h: Heap, h': Heap, self: int, total: nat, c: int, x: int, self': int)
    requires Tiled(h0) && Tiled(h) && Present(h') && h.chunks == h0.chunks && h'.chunks == h.chunks
    requires Covers(h0, h, self, total, c)
    requires x in h.chunks && x !in Used(h) && Used(h') == Used(h) + {x}
    requires if self' == self then x == self + total else x == self' && After(h, x) == self
    ensures Covers(h0, h', self', total + h.csize[x].size, c)
  {
    assert ChunkFits(h, x);
    assert x !in Used(h0);
    forall d | d in Used(h0) && self' <= d < self' + total + h.csize[x].size
      ensures d == c
    {
      NotInside(h, d, x);
    }
  }

  /** Taking a free chunk changes no size. */
  lemma TookSize(h: Heap, h': Heap, x: int)
    requires Good(h) && Took(h, h', x)
    ensures x in h.chunks && x !in Used(h) && h'.chunks == h.chunks
    ensures x in h'.csize && h'.csize[x].size == h.csize[x].size && x in h'.chunks && h'.csize[x].used
  {
  }

  /** What a run has taken over stays accounted for when it takes one more neighbour. */
  lemma FreeingGrows(h0: Heap, h: Heap, h': Heap, self: int, total: nat, c: int, x: int, self': int)
    requires Good(h0) && Freeing(h0, h, self, total, c) && Took(h, h', x) && x in h.csize
    requires if self' == self then x == self + total else x == self' && After(h, x) == self
    requires Run(h', self', total + h.csize[x].size)
    ensures Freeing(h0, h', self', total + h.csize[x].size, c)
  {
    TookSize(h, h', x);
    KeepsTransitive(h0, h, h', {}, {});
    CoversGrow(h0, h, h', self, total, c, x, self');
  }

  lemma AbsorbLeft(h0: Heap, h: Heap, h': Heap, p: int, self: int, total: nat, c: int)
    requires Good(h0) && Freeing(h0, h, self, total, c)
    requires self in h.psize && !h.psize[self].used && p == self - h.psize[self].size && Took(h, h', p)
    ensures p in h.csize && p in h'.csize && h'.csize[p].size == h.csize[p].size && p + h.csize[p].size == self
    ensures Freeing(h0, h', p, total + h.csize[p].size, c)
    ensures p in h'.psize && h'.psize[p].used
    ensures self + total in h.csize && self + total in h'.csize && h'.csize[self + total] == h.csize[self + total]
  {
    AbsorbedStart(h, h', p, self, total);
    FreeingGrows(h0, h, h', self, total, c, p, p);
  }

  /** A free chunk follows a chunk in use. */
  lemma AbsorbedStart(h: Heap, h': Heap, p: int, self: int, total: nat)
    requires Good(h) && Run(h, self, total) && !h.psize[self].used && p == self - h.psize[self].size && Took(h, h', p)
    ensures p in h.csize && p in h'.csize && h'.csize[p].size == h.csize[p].size && p + h.csize[p].size == self
    ensures Good(h') && p != self && Run(h', p, total + h.csize[p].size)
    ensures p in h'.psize && h'.psize[p].used
    ensures self + total in h.csize && self + total in h'.csize && h'.csize[self + total] == h.csize[self + total]
  {
    assert PlaceFits(h, self);
    TookSize(h, h', p);
    RunSurvives(h, h', self, total);
    RunGrowsLeft(h', p, self, total);
  }

  lemma AbsorbRight(h0: Heap, h: Heap, h': Heap, x: int, self: int, total: nat, c: int)
    requires Good(h0) && Freeing(h0, h, self, total, c)
    requires x == self + total && x in h.csize && !h.csize[x].used && Took(h, h', x)
    ensures x in h'.csize && h'.csize[x].size == h.csize[x].size && Freeing(h0, h', self, total + h.csize[x].size, c)
    ensures self in h.psize && self in h'.psize && h'.psize[self] == h.psize[self]
    ensures x + h.csize[x].size in h'.csize && h'.csize[x + h.csize[x].size].used
  {
    AbsorbedEnd(h, h', x, self, total);
    FreeingGrows(h0, h, h', self, total, c, x, self);
  }

  /** A free chunk is followed by a chunk in use. */
  lemma AbsorbedEnd(h: Heap, h': Heap, x: int, self: int, total: nat)
    requires Good(h) && Run(h, self, total) && x == self + total && !h.csize[x].used && Took(h, h', x)
    ensures Good(h') && x in h.csize && x in h'.csize && h'.csize[x].size == h.csize[x].size
    ensures Run(h', self, total + h.csize[x].size)
    ensures self in h.psize && self in h'.psize && h'.psize[self] == h.psize[self]
    ensures x + h.csize[x].size in h'.csize && h'.csize[x + h.csize[x].size].used
  {
    assert ChunkFits(h, x);
    TookSize(h, h', x);
    RunSurvives(h, h', self, total);
    RunGrowsRight(h', self, total);
  }

  lemma LiveHead(next: map<int, int>, prev: map<int, int>, b: int, list: seq<int>)
    requires Live(next, prev, b, list)
    ensures b in prev && b in next && prev[b] == if list == [] then b else list[|list| - 1]
  {
    var r := [b] + list + [b];
    assert Linked(next, prev, r[0], r[1]) && Linked(next, prev, r[|list|], r[|list| + 1]);
  }

  /** A chunk in use between chunks in use, with its list set up. */
  ghost predicate Fileable(h: Heap, c: int)
    requires Good(h)
  {
    && c in Used(h) && h.psize[c].used && ChunkFits(h, c) && h.csize[After(h, c)].used
    && var i := BinIndex(h.csize[c].size);
       Live(h.next, h.prev, Bin(i), h.bins[i]) && Bin(i) in h.prev
  }

  ghost predicate LinksLast(h: Heap, h': Heap, c: int, size: nat, i: nat)
    requires Bin(i) in h.prev && i < |h.bins|
  {
    h' == h.(csize := h.csize[c := Tag(size, false)], psize := h.psize[c + size := Tag(size, false)],
             next := h.next[c := Bin(i)][h.prev[Bin(i)] := c], prev := h.prev[c := h.prev[Bin(i)]][Bin(i) := c],
             bins := h.bins[i := h.bins[i] + [c]], binmap := h.binmap + {i})
  }

  lemma FilingStarts(h0: Heap, h1: Heap, c: int)
    requires Good(h0) && c in Used(h0) && h0.psize[c].used && ChunkFits(h0, c) && h0.csize[After(h0, c)].used
    requires Good(h1) && h1 == h0.(next := h1.next, prev := h1.prev)
    requires var i := BinIndex(h0.csize[c].size); Live(h1.next, h1.prev, Bin(i), h1.bins[i])
    ensures Fileable(h1, c)
  {
    var i := BinIndex(h0.csize[c].size);
    LiveHead(h1.next, h1.prev, Bin(i), h1.bins[i]);
    assert ChunkFits(h1, c);
  }

  lemma FilingEnds(h1: Heap, h2: Heap, c: int)
    requires Good(h1) && Fileable(h1, c)
    requires LinksLast(h1, h2, c, h1.csize[c].size, BinIndex(h1.csize[c].size))
    ensures Releases(h1, h2, c)
  {
  }

  lemma Filed(h0: Heap, h1: Heap, h2: Heap, c: int)
    requires Good(h0) && Good(h1) && SameSegments(h0, h1) && Used(h1) == Used(h0) && Keeps(h0, h1, {})
    requires Releases(h1, h2, c)
    ensures Good(h2) && SameSegments(h0, h2) && Used(h2) == Used(h0) - {c} && Keeps(h0, h2, {c})
  {
    ReleaseIsGood(h1, h2, c);
    KeepsTransitive(h0, h1, h2, {}, {c});
    assert {} + {c} == {c};
  }

  lemma MergedAlone(h: Heap, h': Heap, self: int, total: nat)
    requires Good(h) && Merges(h, h', self, total)
    ensures Good(h') && SameSegments(h, h') && Used(h') == Used(h) - Between(h, self, total)
    ensures Keeps(h, h', {self} + Between(h, self, total))
    ensures self in Used(h') && h'.csize[self] == Tag(total, true) && ChunkFits(h', self)
    ensures h'.psize[self] == h.psize[self] && h'.csize[self + total] == h.csize[self + total]
  {
    MergeIsGood(h, h', self, total);
    assert ChunkFits(h', self);
  }

  /** Unbinning, merging and filing amount to giving back the one chunk. */
  lemma FreedExactly(h0: Heap, h4: Heap, h5: Heap, h7: Heap, self: int, total: nat, c: int)
    requires Good(h0) && Freeing(h0, h4, self, total, c) && Good(h5) && Good(h7)
    requires Keeps(h4, h5, {self} + Between(h4, self, total)) && Used(h5) == Used(h4) - Between(h4, self, total)
    requires Keeps(h5, h7, {self}) && Used(h7) == Used(h5) - {self}
    requires SameSegments(h4, h5) && SameSegments(h5, h7)
    ensures Used(h7) == Used(h0) - {c} && Keeps(h0, h7, {c}) && SameSegments(h0, h7)
  {
    var gone := {self} + Between(h4, self, total);
    KeepsTransitive(h0, h4, h5, {}, gone);
    KeepsTransitive(h0, h5, h7, {} + gone, {self});
    UsedWithoutRun(h0, h4, self, total, c);
    assert Used(h7) == Used(h4) - gone;
  }

  lemma UsedWithoutRun(h0: Heap, h: Heap, self: int, total: nat, c: int)
    requires Present(h0) && Present(h) && h.chunks == h0.chunks && Run(h, self, total) && Covers(h0, h, self, total, c)
    ensures Used(h) - ({self} + Between(h, self, total)) == Used(h0) - {c}
    ensures forall d | d in Used(h0) && d != c :: d !in {self} + Between(h, self, total)
  {
    forall d
      ensures d in Used(h) && d !in {self} + Between(h, self, total) <==> d in Used(h0) && d != c
    {
      assert d in Used(h0) ==> d in h.chunks;
    }
  }

  lemma LinksAway(h: Heap, c: int, d: int)
    requires Good(h) && IsFree(h, c) && Inside(h, d, c)
    ensures c in h.next && c in h.prev && h.next[c] in h.prev && h.prev[c] in h.next
    ensures h.prev[c] != d && h.next[c] != d
  {
    var j := BinIndex(h.csize[c].size);
    RingLinks(h, c);
    NotNewPlace(h, c, d);
    NotBinned(h, d);
    RingRemove(h.next, h.prev, Bin(j), h.bins[j], Position(h.bins[j], c));
    assert d > 0;
  }

  lemma FreeingStarts(h0: Heap, c: int)
    requires Good(h0) && c in Used(h0)
    ensures Freeing(h0, h0, c, h0.csize[c].size, c)
    ensures c + h0.csize[c].size in Places(h0) && h0.psize[c + h0.csize[c].size] == h0.csize[c]
  {
    assert ChunkFits(h0, c);
    RunOfOne(h0, c);
    forall d | d in Used(h0) && c <= d < c + h0.csize[c].size
      ensures d == c
    {
      NotInside(h0, d, c);
    }
  }

  lemma TrimSplit(h0: Heap, h1: Heap, c: int, n: nat)
    requires Good(h0) && c in Used(h0) && Splits(h0, h1, c, n, true) && SameLists(h0, h1)
    ensures Good(h1) && SameSegments(h0, h1) && Used(h1) == Used(h0) + {c + n} && c + n !in Used(h0)
    ensures Keeps(h0, h1, {c}) && Copied(h0, c, h1, c, n) && h1.csize[c] == Tag(n, true)
  {
    SplitIsGood(h0, h1, c, n);
    forall o | 0 < o < n
      ensures UnitCopied(h0, c, h1, c, o)
    {
    }
  }

  lemma TrimDone(h0: Heap, h1: Heap, h2: Heap, c: int, n: nat)
    requires Present(h0) && Present(h1) && Present(h2)
    requires c in Used(h0) && Used(h1) == Used(h0) + {c + n} && c + n !in Used(h0) && n >= 1
    requires Keeps(h0, h1, {c}) && Copied(h0, c, h1, c, n) && h1.csize[c] == Tag(n, true)
    requires Used(h2) == Used(h1) - {c + n} && Keeps(h1, h2, {c + n})
    ensures Used(h2) == Used(h0) && Keeps(h0, h2, {c})
    ensures h2.csize[c] == Tag(n, true) && Copied(h0, c, h2, c, n)
  {
    KeepsTransitive(h0, h1, h2, {c}, {c + n});
    assert c in Used(h1) && PayloadSame(h1, h2, c);
    KeptIsCopied(h1, h2, c);
    CopiedOnward(h0, c, h1, c, h2, c, n);
  }

  lemma LargerThanRequest(n: nat, n1: nat, i: nat, j: nat)
    requires 1 <= n <= MMAP_THRESHOLD && i == BinIndexUp(n) && n <= n1 && j == BinIndex(n1)
    requires j >= i + 3 || n1 - n > MMAP_THRESHOLD
    ensures n < n1
  {
  }

  lemma KeptIsCopied(h: Heap, h': Heap, c: int)
    requires c in h.csize && PayloadSame(h, h', c)
    ensures Copied(h, c, h', c, h.csize[c].size)
  {
    forall o | 0 < o < h.csize[c].size
      ensures UnitCopied(h, c, h', c, o)
    {
      assert Inside(h, c + o, c) && WordsSame(h, h', c + o);
    }
  }

  lemma CopiedOnward(h0: Heap, c0: int, h1: Heap, c1: int, h2: Heap, c2: int, k: nat)
    requires Copied(h0, c0, h1, c1, k) && Copied(h1, c1, h2, c2, k)
    ensures Copied(h0, c0, h2, c2, k)
  {
    forall o | 0 < o < k
      ensures UnitCopied(h0, c0, h2, c2, o)
    {
      assert UnitCopied(h0, c0, h1, c1, o) && UnitCopied(h1, c1, h2, c2, o);
    }
  }
}
