/** Emitting a tree is splicing the edits of its outermost replaced nodes and remaining insertions. */
module MappedSplice {
  import opened Wrappers
  import opened MappedText
  import opened MappedAstEmitter

  function InsertionAt(m: map<Node, Text>, n: Node, offset: int): seq<Edit>
  {
    if n in m then [Edit(Span(offset, offset), m[n])] else []
  }

  /** The changes of a tree, in source order: nothing below a replaced node survives. */
  function EditsOf(n: Node, c: Changes): seq<Edit>
    decreases n, 1, 0
  {
    InsertionAt(c.before, n, n.span.start)
    + (if n in c.replacements then [Edit(n.span, c.replacements[n])] else EditsOfKids(n, Kids(n), c))
    + InsertionAt(c.after, n, n.span.end)
  }

  function EditsOfKids(n: Node, kids: seq<Node>, c: Changes): seq<Edit>
    requires forall k | k in kids :: k in n.children
    decreases n, 0, |kids|
  {
    if kids == [] then []
    else
      assert kids[0] in n.children && exists i | 0 <= i < |n.children| :: n.children[i] == kids[0];
      EditsOf(kids[0], c) + EditsOfKids(n, kids[1..], c)
  }

  /** The covering children follow one another inside the node, down to the replaced nodes. */
  predicate Tidy(n: Node, c: Changes)
    decreases n, 1, 0
  {
    n in c.replacements || TidyFrom(n, Kids(n), n.span.start, c)
  }

  predicate TidyFrom(n: Node, kids: seq<Node>, cursor: int, c: Changes)
    requires forall k | k in kids :: k in n.children
    decreases n, 0, |kids|
  {
    if kids == [] then cursor <= n.span.end
    else
      assert kids[0] in n.children && exists i | 0 <= i < |n.children| :: n.children[i] == kids[0];
      var k := kids[0].span;
      cursor <= k.start && k.end <= n.span.end && Tidy(kids[0], c) && TidyFrom(n, kids[1..], k.end, c)
  }

  /** Emission succeeds exactly on tidy trees. */
  lemma {:induction false} EmitsIffTidy(n: Node, src: Text, c: Changes)
    requires 0 <= n.span.start && n.span.end <= |src|
    ensures Emitted(n, src, c).Some? <==> Tidy(n, c)
    decreases n, 1, 0
  {
    if n !in c.replacements { EmitsFromIffTidy(n, Kids(n), n.span.start, src, c); }
  }

  lemma {:induction false} EmitsFromIffTidy(n: Node, kids: seq<Node>, cursor: int, src: Text, c: Changes)
    requires forall k | k in kids :: k in n.children && k.span.start < k.span.end
    requires 0 <= cursor && n.span.end <= |src|
    ensures EmittedFrom(n, kids, cursor, src, c).Some? <==> TidyFrom(n, kids, cursor, c)
    decreases n, 0, |kids|
  {
    if kids != [] {
      assert kids[0] in n.children && exists i | 0 <= i < |n.children| :: n.children[i] == kids[0];
      if cursor <= kids[0].span.start && kids[0].span.end <= n.span.end {
        EmitsIffTidy(kids[0], src, c);
        EmitsFromIffTidy(n, kids[1..], kids[0].span.end, src, c);
      }
    }
  }

  ghost predicate Within(edits: seq<Edit>, a: int, b: int)
  {
    forall e | e in edits :: a <= e.span.start <= e.span.end <= b
  }

  lemma {:induction false} EditsWithin(n: Node, c: Changes)
    requires Tidy(n, c) && n.span.start <= n.span.end
    ensures Within(EditsOf(n, c), n.span.start, n.span.end)
    decreases n, 1, 0
  {
    if n !in c.replacements { KidEditsWithin(n, Kids(n), n.span.start, c); }
  }

  lemma {:induction false} KidEditsWithin(n: Node, kids: seq<Node>, cursor: int, c: Changes)
    requires forall k | k in kids :: k in n.children && k.span.start < k.span.end
    requires TidyFrom(n, kids, cursor, c)
    ensures Within(EditsOfKids(n, kids, c), cursor, n.span.end)
    decreases n, 0, |kids|
  {
    if kids != [] {
      assert kids[0] in n.children && exists i | 0 <= i < |n.children| :: n.children[i] == kids[0];
      EditsWithin(kids[0], c);
      KidEditsWithin(n, kids[1..], kids[0].span.end, c);
    }
  }

  lemma SortedJoin(a: seq<Edit>, b: seq<Edit>, lo: int, mid: int, hi: int)
    requires Sorted(a, EditSpan) && Sorted(b, EditSpan) && Within(a, lo, mid) && Within(b, mid, hi) && lo <= mid <= hi
    ensures Sorted(a + b, EditSpan) && Within(a + b, lo, hi)
  {
    SortedAppend(a, b, EditSpan, Span(mid, mid));
  }

  lemma InsertionSorted(m: map<Node, Text>, n: Node, at: int)
    ensures Sorted(InsertionAt(m, n, at), EditSpan) && Within(InsertionAt(m, n, at), at, at)
  {
  }

  /** The edits come in the order into which flat splicing sorts them. */
  lemma {:induction false} EditsSorted(n: Node, c: Changes)
    requires Tidy(n, c) && n.span.start <= n.span.end
    ensures Sorted(EditsOf(n, c), EditSpan)
    decreases n, 1, 0
  {
    var before, after := InsertionAt(c.before, n, n.span.start), InsertionAt(c.after, n, n.span.end);
    var inner := if n in c.replacements then [Edit(n.span, c.replacements[n])] else EditsOfKids(n, Kids(n), c);
    if n !in c.replacements {
      KidEditsSorted(n, Kids(n), n.span.start, c);
      KidEditsWithin(n, Kids(n), n.span.start, c);
    }
    InsertionSorted(c.before, n, n.span.start);
    InsertionSorted(c.after, n, n.span.end);
    assert Within(inner, n.span.start, n.span.end);
    SortedJoin(before, inner, n.span.start, n.span.start, n.span.end);
    SortedJoin(before + inner, after, n.span.start, n.span.end, n.span.end);
  }

  lemma {:induction false} KidEditsSorted(n: Node, kids: seq<Node>, cursor: int, c: Changes)
    requires forall k | k in kids :: k in n.children && k.span.start < k.span.end
    requires TidyFrom(n, kids, cursor, c)
    ensures Sorted(EditsOfKids(n, kids, c), EditSpan)
    decreases n, 0, |kids|
  {
    if kids != [] {
      assert kids[0] in n.children && exists i | 0 <= i < |n.children| :: n.children[i] == kids[0];
      var end := kids[0].span.end;
      EditsSorted(kids[0], c);
      EditsWithin(kids[0], c);
      KidEditsSorted(n, kids[1..], end, c);
      KidEditsWithin(n, kids[1..], end, c);
      SortedJoin(EditsOf(kids[0], c), EditsOfKids(n, kids[1..], c), kids[0].span.start, end, n.span.end);
    }
  }

  /** Text before the first edit is copied. */
  lemma SplicedSkip(edits: seq<Edit>, a: int, b: int, src: Text)
    requires 0 <= a <= b <= |src| && Within(edits, b, |src|)
    ensures Spliced(edits, a, src) == Prefixed(src[a..b], Spliced(edits, b, src))
  {
    if edits == [] {
      assert src[a..] == src[a..b] + src[b..];
    } else {
      var e := edits[0];
      assert e in edits;
      assert src[a..e.span.start] == src[a..b] + src[b..e.span.start];
      Assoc(src[a..b], src[b..e.span.start], e.replacement);
      PrefixedTwice(src[a..b], src[b..e.span.start] + e.replacement, Spliced(edits[1..], e.span.end, src));
    }
  }

  lemma WithinAppend(x: seq<Edit>, y: seq<Edit>, a: int, b: int)
    requires Within(x, a, b) && Within(y, a, b)
    ensures Within(x + y, a, b)
  {
  }

  /** An insertion in front of what follows. */
  lemma SplicedInsertion(m: map<Node, Text>, n: Node, at: int, more: seq<Edit>, src: Text)
    requires 0 <= at <= |src|
    ensures Spliced(InsertionAt(m, n, at) + more, at, src) == Prefixed(At(m, n), Spliced(more, at, src))
  {
    if n in m {
      assert ([Edit(Span(at, at), m[n])] + more)[1..] == more;
      assert src[at..at] + m[n] == m[n];
    } else {
      assert [] + more == more;
      PrefixedEmpty(Spliced(more, at, src));
    }
  }

  lemma {:induction false} SplicedThrough(n: Node, src: Text, c: Changes, more: seq<Edit>)
    requires 0 <= n.span.start <= n.span.end <= |src|
    requires Tidy(n, c) && Emitted(n, src, c).Some?
    requires Within(more, n.span.end, |src|)
    ensures Spliced(EditsOf(n, c) + more, n.span.start, src)
         == Prefixed(Emitted(n, src, c).value, Spliced(more, n.span.end, src))
    decreases n, 1, 0
  {
    var s, e := n.span.start, n.span.end;
    var before, after := InsertionAt(c.before, n, s), InsertionAt(c.after, n, e) + more;
    Regroup(before, InnerEdits(n, c), InsertionAt(c.after, n, e), more);
    SplicedInsertion(c.before, n, s, InnerEdits(n, c) + after, src);
    SplicedInsertion(c.after, n, e, more, src);
    assert Within(after, e, |src|);
    SplicedInner(n, src, c, after);
    Sandwich(At(c.before, n), InnerText(n, src, c).value, At(c.after, n), Spliced(more, e, src));
  }

  lemma SplicedInner(n: Node, src: Text, c: Changes, more: seq<Edit>)
    requires 0 <= n.span.start <= n.span.end <= |src|
    requires Tidy(n, c) && InnerText(n, src, c).Some?
    requires Within(more, n.span.end, |src|)
    ensures Spliced(InnerEdits(n, c) + more, n.span.start, src)
         == Prefixed(InnerText(n, src, c).value, Spliced(more, n.span.end, src))
    decreases n, 0, |Kids(n)| + 1
  {
    if n in c.replacements {
      assert (InnerEdits(n, c) + more)[1..] == more;
      assert src[n.span.start..n.span.start] + c.replacements[n] == c.replacements[n];
    } else {
      SplicedKids(n, Kids(n), n.span.start, src, c, more);
    }
  }

  lemma AssocEdits(a: seq<Edit>, b: seq<Edit>, c: seq<Edit>)
    ensures a + b + c == a + (b + c)
  {
  }

  lemma Regroup(a: seq<Edit>, b: seq<Edit>, c: seq<Edit>, d: seq<Edit>)
    ensures a + b + c + d == a + (b + (c + d))
  {
  }

  function InnerEdits(n: Node, c: Changes): seq<Edit>
  {
    if n in c.replacements then [Edit(n.span, c.replacements[n])] else EditsOfKids(n, Kids(n), c)
  }

  function InnerText(n: Node, src: Text, c: Changes): Option<Text>
  {
    if n in c.replacements then Some(c.replacements[n]) else EmittedFrom(n, Kids(n), n.span.start, src, c)
  }

  lemma Sandwich(a: Text, b: Text, c: Text, r: Option<Text>)
    ensures Prefixed(a, Prefixed(b, Prefixed(c, r))) == Prefixed(a + b + c, r)
  {
    PrefixedTwice(b, c, r);
    PrefixedTwice(a, b + c, r);
    Assoc(a, b, c);
  }

  lemma {:induction false} SplicedKids(n: Node, kids: seq<Node>, cursor: int, src: Text, c: Changes, more: seq<Edit>)
    requires forall k | k in kids :: k in n.children && k.span.start < k.span.end
    requires 0 <= cursor <= n.span.end <= |src|
    requires TidyFrom(n, kids, cursor, c) && EmittedFrom(n, kids, cursor, src, c).Some?
    requires Within(more, n.span.end, |src|)
    ensures Spliced(EditsOfKids(n, kids, c) + more, cursor, src)
         == Prefixed(EmittedFrom(n, kids, cursor, src, c).value, Spliced(more, n.span.end, src))
    decreases n, 0, |kids|
  {
    if kids == [] {
      assert [] + more == more;
      SplicedSkip(more, cursor, n.span.end, src);
    } else {
      var k := kids[0];
      assert k in n.children && exists i | 0 <= i < |n.children| :: n.children[i] == k;
      var rest := EditsOfKids(n, kids[1..], c) + more;
      var tail := EmittedFrom(n, kids[1..], k.span.end, src, c).value;
      AssocEdits(EditsOf(k, c), EditsOfKids(n, kids[1..], c), more);
      assert EditsOfKids(n, kids, c) + more == EditsOf(k, c) + rest;
      EditsWithin(k, c);
      KidEditsWithin(n, kids[1..], k.span.end, c);
      WithinAppend(EditsOf(k, c), rest, k.span.start, |src|);
      SplicedSkip(EditsOf(k, c) + rest, cursor, k.span.start, src);
      SplicedThrough(k, src, c, rest);
      SplicedKids(n, kids[1..], k.span.end, src, c, more);
      var gap, inner := src[cursor..k.span.start], Emitted(k, src, c).value;
      Sandwich(gap, inner, tail, Spliced(more, n.span.end, src));
      assert EmittedFrom(n, kids, cursor, src, c) == Some(gap + inner + tail);
    }
  }

  /** Tree-directed emission of a tidy tree is flat splicing of its edits, inside the root's span. */
  lemma TreeIsSplice(root: Node, src: Text, c: Changes)
    requires 0 <= root.span.start <= root.span.end <= |src| && EmittedTree(root, src, c).Some?
    ensures SplicedEdits(EditsOf(root, c), src)
         == Some(src[..root.span.start] + EmittedTree(root, src, c).value + src[root.span.end..])
  {
    var edits, s, e := EditsOf(root, c), root.span.start, root.span.end;
    EmitsIffTidy(root, src, c);
    EditsSorted(root, c);
    SortKeepsSorted(edits, EditSpan);
    EditsWithin(root, c);
    SplicedSkip(edits, 0, s, src);
    SplicedThrough(root, src, c, []);
    assert edits + [] == edits;
    PrefixedTwice(src[0..s], Emitted(root, src, c).value, Some(src[e..]));
  }

  const UNCHANGED := Changes(map[], map[], map[])

  lemma {:induction false} NoEdits(n: Node)
    ensures EditsOf(n, UNCHANGED) == []
    decreases n, 1, 0
  {
    NoKidEdits(n, Kids(n));
  }

  lemma {:induction false} NoKidEdits(n: Node, kids: seq<Node>)
    requires forall k | k in kids :: k in n.children
    ensures EditsOfKids(n, kids, UNCHANGED) == []
    decreases n, 0, |kids|
  {
    if kids != [] {
      assert kids[0] in n.children && exists i | 0 <= i < |n.children| :: n.children[i] == kids[0];
      NoEdits(kids[0]);
      NoKidEdits(n, kids[1..]);
    }
  }

  /** Without changes, a tidy tree is emitted as its source slice, every character with its origin. */
  lemma UnchangedIsSource(root: Node, src: Text)
    requires 0 <= root.span.start <= root.span.end <= |src| && Tidy(root, UNCHANGED)
    ensures EmittedTree(root, src, UNCHANGED) == Some(src[root.span.start..root.span.end])
  {
    var s, e := root.span.start, root.span.end;
    EmitsIffTidy(root, src, UNCHANGED);
    TreeIsSplice(root, src, UNCHANGED);
    NoEdits(root);
    var t := EmittedTree(root, src, UNCHANGED).value;
    assert src[..s] + t + src[e..] == src[0..];
    assert t == (src[..s] + t + src[e..])[s..s + |t|];
    assert |src[..s] + t + src[e..]| == |src|;
  }
}
