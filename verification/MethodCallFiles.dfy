/** The pass turns a file into the print of its rewritten call trees. */
module MethodCallFiles {
  import opened Wrappers
  import opened MappedText
  import opened MappedAstEmitter
  import opened MappedSplice
  import opened MethodCalls
  import opened MethodCallTrees
  import opened MethodCallPass

  /** Children lie inside their parents. */
  predicate WellSpanned(n: Node)
    decreases n, 0, 0
  {
    forall k | k in n.children :: Contains(n.span, k.span) && WellSpanned(k)
  }

  lemma {:induction false} DescendantOfKid(n: Node, kids: seq<Node>, m: Node) returns (k: Node)
    requires (forall k | k in kids :: k in n.children) && m in DescendantsOfAll(n, kids)
    ensures k in kids && m in Descendants(k)
    decreases |kids|
  {
    assert kids[0] in n.children && exists i | 0 <= i < |n.children| :: n.children[i] == kids[0];
    if m in Descendants(kids[0]) { k := kids[0]; } else { k := DescendantOfKid(n, kids[1..], m); }
  }

  lemma {:induction false} DescendantInside(n: Node, m: Node)
    requires WellSpanned(n) && m in Descendants(n)
    ensures Contains(n.span, m.span)
    decreases n
  {
    if m != n {
      var k := DescendantOfKid(n, n.children, m);
      assert exists i | 0 <= i < |n.children| :: n.children[i] == k;
      DescendantInside(k, m);
    }
  }

  lemma {:induction false} KidEdits(n: Node, kids: seq<Node>, k: Node, c: Changes)
    requires (forall x | x in kids :: x in n.children) && k in kids
    ensures forall e | e in EditsOf(k, c) :: e in EditsOfKids(n, kids, c)
    decreases |kids|
  {
    assert kids[0] in n.children && exists i | 0 <= i < |n.children| :: n.children[i] == kids[0];
    if k != kids[0] { KidEdits(n, kids[1..], k, c); }
  }

  /** Replaced nodes that are apart from all others are reached. */
  lemma {:induction false} Reached(n: Node, m: Node, c: Changes)
    requires WellSpanned(n) && m in Descendants(n) && m.span.start < m.span.end
    requires m in c.replacements && forall x | x in c.replacements && x != m :: Apart(x.span, m.span)
    ensures Edit(m.span, c.replacements[m]) in EditsOf(n, c)
    decreases n
  {
    DescendantInside(n, m);
    if m != n {
      var k := DescendantOfKid(n, n.children, m);
      assert exists i | 0 <= i < |n.children| :: n.children[i] == k;
      DescendantInside(k, m);
      Reached(k, m, c);
      KidEdits(n, Kids(n), k, c);
    }
  }

  predicate OnlyReplaces(c: Changes) { c.before == map[] && c.after == map[] }

  ghost predicate IsReplacement(c: Changes, e: Edit)
  {
    exists x | x in c.replacements :: e == Edit(x.span, c.replacements[x])
  }

  lemma {:induction false} EditsAreReplacements(n: Node, c: Changes)
    requires OnlyReplaces(c)
    ensures forall e | e in EditsOf(n, c) :: IsReplacement(c, e)
    decreases n, 1, 0
  {
    if n !in c.replacements { KidEditsAreReplacements(n, Kids(n), c); }
  }

  lemma {:induction false} KidEditsAreReplacements(n: Node, kids: seq<Node>, c: Changes)
    requires OnlyReplaces(c) && forall k | k in kids :: k in n.children
    ensures forall e | e in EditsOfKids(n, kids, c) :: IsReplacement(c, e)
    decreases n, 0, |kids|
  {
    if kids != [] {
      assert kids[0] in n.children && exists i | 0 <= i < |n.children| :: n.children[i] == kids[0];
      EditsAreReplacements(kids[0], c);
      KidEditsAreReplacements(n, kids[1..], c);
    }
  }

  /** Edits of covering spans, one after another. */
  ghost predicate InSequence(es: seq<Edit>)
  {
    && (forall e | e in es :: e.span.start < e.span.end)
    && forall i, j | 0 <= i < j < |es| :: es[i].span.end <= es[j].span.start
  }

  lemma InSequenceAppend(a: seq<Edit>, b: seq<Edit>, lo: int, mid: int, hi: int)
    requires InSequence(a) && InSequence(b) && Within(a, lo, mid) && Within(b, mid, hi)
    ensures InSequence(a + b)
  {
    forall i, j | 0 <= i < j < |a + b| ensures (a + b)[i].span.end <= (a + b)[j].span.start {
      if i < |a| <= j { assert a[i] in a && b[j - |a|] in b; }
    }
  }

  lemma {:induction false} EditsInSequence(n: Node, c: Changes)
    requires OnlyReplaces(c) && Tidy(n, c) && n.span.start <= n.span.end
    requires forall x | x in c.replacements :: x.span.start < x.span.end
    ensures InSequence(EditsOf(n, c))
    decreases n, 1, 0
  {
    if n !in c.replacements { KidEditsInSequence(n, Kids(n), n.span.start, c); }
  }

  lemma {:induction false} KidEditsInSequence(n: Node, kids: seq<Node>, cursor: int, c: Changes)
    requires forall k | k in kids :: k in n.children && k.span.start < k.span.end
    requires OnlyReplaces(c) && TidyFrom(n, kids, cursor, c)
    requires forall x | x in c.replacements :: x.span.start < x.span.end
    ensures InSequence(EditsOfKids(n, kids, c))
    decreases n, 0, |kids|
  {
    if kids != [] {
      assert kids[0] in n.children && exists i | 0 <= i < |n.children| :: n.children[i] == kids[0];
      var k := kids[0].span;
      EditsInSequence(kids[0], c);
      EditsWithin(kids[0], c);
      KidEditsInSequence(n, kids[1..], k.end, c);
      KidEditsWithin(n, kids[1..], k.end, c);
      InSequenceAppend(EditsOf(kids[0], c), EditsOfKids(n, kids[1..], c), k.start, k.end, n.span.end);
    }
  }

  lemma {:induction false} SameSequence(a: seq<Edit>, b: seq<Edit>)
    requires InSequence(a) && InSequence(b) && forall e :: e in a <==> e in b
    ensures a == b
    decreases |a|
  {
    if a != [] {
      assert a[0] in b && b != [] && b[0] in a;
      var i :| 0 <= i < |b| && b[i] == a[0];
      var j :| 0 <= j < |a| && a[j] == b[0];
      assert a[0] in a && b[0] in b;
      assert a[0] == b[0];
      TailMembers(a);
      TailMembers(b);
      SameSequence(a[1..], b[1..]);
    } else {
      HasMember(b);
    }
  }

  lemma HasMember(a: seq<Edit>)
    ensures a == [] || exists e :: e in a
  {
    if a != [] { assert a[0] in a; }
  }

  lemma TailMembers(a: seq<Edit>)
    requires InSequence(a) && a != []
    ensures InSequence(a[1..]) && forall e :: e in a[1..] <==> e in a && e != a[0]
  {
    assert a[0] in a;
  }

  /** A tree that is tidy without replacements is tidy with them. */
  lemma {:induction false} StaysTidy(n: Node, c: Changes)
    requires Tidy(n, UNCHANGED)
    ensures Tidy(n, c)
    decreases n, 1, 0
  {
    StaysTidyFrom(n, Kids(n), n.span.start, c);
  }

  lemma {:induction false} StaysTidyFrom(n: Node, kids: seq<Node>, cursor: int, c: Changes)
    requires (forall k | k in kids :: k in n.children) && TidyFrom(n, kids, cursor, UNCHANGED)
    ensures TidyFrom(n, kids, cursor, c)
    decreases n, 0, |kids|
  {
    if kids != [] {
      assert kids[0] in n.children && exists i | 0 <= i < |n.children| :: n.children[i] == kids[0];
      StaysTidy(kids[0], c);
      StaysTidyFrom(n, kids[1..], kids[0].span.end, c);
    }
  }

  /** Every call has its node. */
  predicate HaveNodes(nodes: seq<Node>, calls: seq<Call>)
  {
    forall c | c in calls :: NodeFor(nodes, c.span).Some?
  }

  ghost predicate AllLowered(tops: seq<Call>, calls: seq<Call>, src: Text)
    requires AllShaped(calls, src) && forall c | c in tops :: c in calls
  {
    forall c | c in tops :: Lowered(c, calls, src).Some?
  }

  ghost predicate IsNodeOf(tops: seq<Call>, nodes: seq<Node>, m: Node)
  {
    exists c | c in tops :: NodeFor(nodes, c.span) == Some(m)
  }

  ghost predicate ReplacedBy(r: map<Node, Text>, c: Call, nodes: seq<Node>, calls: seq<Call>, src: Text)
    requires AllShaped(calls, src) && c in calls
  {
    && NodeFor(nodes, c.span).Some? && NodeFor(nodes, c.span).value in r
    && Lowered(c, calls, src) == Some(r[NodeFor(nodes, c.span).value])
  }

  lemma {:induction false} ReplacementsAre(tops: seq<Call>, nodes: seq<Node>, calls: seq<Call>, src: Text)
    requires AllShaped(calls, src) && (forall c | c in tops :: c in calls) && DistinctSpans(tops)
    requires HaveNodes(nodes, tops) && AllLowered(tops, calls, src)
    ensures forall m | m in Replacements(tops, nodes, calls, src) :: IsNodeOf(tops, nodes, m)
    ensures forall c | c in tops :: ReplacedBy(Replacements(tops, nodes, calls, src), c, nodes, calls, src)
    decreases |tops|
  {
    if tops != [] {
      var before, last := tops[..|tops| - 1], tops[|tops| - 1];
      var r0, r := Replacements(before, nodes, calls, src), Replacements(tops, nodes, calls, src);
      ReplacementsAre(before, nodes, calls, src);
      assert last in tops;
      var m0 := NodeFor(nodes, last.span).value;
      assert r == r0[m0 := Lowered(last, calls, src).value];
      forall m | m in r ensures IsNodeOf(tops, nodes, m) {
        if m != m0 { assert IsNodeOf(before, nodes, m); }
      }
      forall c | c in tops ensures ReplacedBy(r, c, nodes, calls, src) {
        if c != last {
          DistinctFromLast(tops, c);
          assert ReplacedBy(r0, c, nodes, calls, src);
        }
      }
    }
  }

  lemma DistinctFromLast(tops: seq<Call>, c: Call)
    requires DistinctSpans(tops) && c in tops && c != tops[|tops| - 1]
    ensures c in tops[..|tops| - 1] && c.span != tops[|tops| - 1].span
  {
    var i :| 0 <= i < |tops| && tops[i] == c;
    assert tops[..|tops| - 1][i] == c;
  }

  function TopEdits(tops: seq<Call>, calls: seq<Call>, src: Text): (r: seq<Edit>)
    requires AllShaped(calls, src) && (forall c | c in tops :: c in calls) && AllLowered(tops, calls, src)
    ensures |r| == |tops|
    ensures forall i | 0 <= i < |tops| :: r[i] == Edit(tops[i].span, Lowered(tops[i], calls, src).value)
  {
    if tops == [] then []
    else [Edit(tops[0].span, Lowered(tops[0], calls, src).value)] + TopEdits(tops[1..], calls, src)
  }

  /** Splicing the lowered calls into the file is rewriting the whole range. */
  lemma {:induction false} SpliceIsRange(tops: seq<Call>, cursor: int, calls: seq<Call>, src: Text)
    requires AllShaped(calls, src) && (forall c | c in tops :: c in calls) && AllLowered(tops, calls, src)
    requires 0 <= cursor <= |src| && forall c | c in tops :: Contains(Whole(src), c.span)
    ensures Spliced(TopEdits(tops, calls, src), cursor, src) == RangeFrom(tops, cursor, Whole(src), calls, src)
    decreases |tops|
  {
    if tops == [] {
      assert src[cursor..] == src[cursor..|src|];
    } else {
      assert tops[0] in tops && Shaped(tops[0], src);
      if cursor <= tops[0].span.start { SpliceIsRange(tops[1..], tops[0].span.end, calls, src); }
    }
  }

  /** The edits of the tree are the rewritten outermost calls, in order. */
  lemma EditsAreTops(root: Node, c: Changes, nodes: seq<Node>, found: seq<Call>, tops: seq<Call>, calls: seq<Call>,
                     src: Text)
    requires WellNested(calls, src) && (forall x | x in found :: x in calls) && DistinctSpans(found)
    requires nodes == Descendants(root) && HaveNodes(nodes, calls) && AllLowered(found, calls, src)
    requires (forall x :: x in tops <==> x in found) && Follow(tops)
    requires forall x, y | x in found && y in found && x != y :: Apart(x.span, y.span)
    requires c == Changes(Replacements(found, nodes, calls, src), map[], map[])
    requires WellSpanned(root) && Tidy(root, c) && root.span.start <= root.span.end
    ensures EditsOf(root, c) == TopEdits(tops, calls, src)
  {
    var edits, wanted := EditsOf(root, c), TopEdits(tops, calls, src);
    ReplacementsAre(found, nodes, calls, src);
    EditsAreReplacements(root, c);
    forall e | e in edits ensures e in wanted {
      var m :| m in c.replacements && e == Edit(m.span, c.replacements[m]);
      assert IsNodeOf(found, nodes, m);
      var x :| x in found && NodeFor(nodes, x.span) == Some(m);
      assert ReplacedBy(c.replacements, x, nodes, calls, src);
      var k :| 0 <= k < |tops| && tops[k] == x;
      assert wanted[k] == e;
    }
    forall e | e in wanted ensures e in edits { TopIsReached(root, c, nodes, found, tops, calls, src, e); }
    assert forall m | m in c.replacements :: IsNodeOf(found, nodes, m);
    EditsInSequence(root, c);
    assert InSequence(wanted);
    SameSequence(edits, wanted);
  }

  lemma TopIsReached(root: Node, c: Changes, nodes: seq<Node>, found: seq<Call>, tops: seq<Call>, calls: seq<Call>,
                     src: Text, e: Edit)
    requires AllShaped(calls, src) && (forall x | x in found :: x in calls) && DistinctSpans(found)
    requires nodes == Descendants(root) && HaveNodes(nodes, calls) && AllLowered(found, calls, src)
    requires forall x :: x in tops <==> x in found
    requires forall x, y | x in found && y in found && x != y :: Apart(x.span, y.span)
    requires c == Changes(Replacements(found, nodes, calls, src), map[], map[])
    requires WellSpanned(root) && e in TopEdits(tops, calls, src)
    ensures e in EditsOf(root, c)
  {
    ReplacementsAre(found, nodes, calls, src);
    var k :| 0 <= k < |tops| && TopEdits(tops, calls, src)[k] == e;
    assert tops[k] in found && ReplacedBy(c.replacements, tops[k], nodes, calls, src);
    var m := NodeFor(nodes, tops[k].span).value;
    assert Shaped(tops[k], src);
    forall x | x in c.replacements && x != m ensures Apart(x.span, m.span) {
      assert IsNodeOf(found, nodes, x);
      var y :| y in found && NodeFor(nodes, y.span) == Some(x);
      assert y != tops[k];
    }
    Reached(root, m, c);
  }

  lemma {:induction false} RangeNeedsAll(tops: seq<Call>, cursor: int, calls: seq<Call>, src: Text)
    requires AllShaped(calls, src) && 0 <= cursor <= |src| && Follow(tops)
    requires forall c | c in tops :: c in calls && Contains(Whole(src), c.span) && cursor <= c.span.start
    ensures RangeFrom(tops, cursor, Whole(src), calls, src).Some? <==> AllLowered(tops, calls, src)
    decreases |tops|
  {
    if tops != [] {
      assert tops[0] in tops && Shaped(tops[0], src);
      RangeNeedsAll(tops[1..], tops[0].span.end, calls, src);
      assert forall c | c in tops :: c == tops[0] || c in tops[1..];
    }
  }

  lemma {:induction false} MalformedIffNotAll(tops: seq<Call>, calls: seq<Call>, src: Text)
    requires AllShaped(calls, src) && forall c | c in tops :: c in calls
    ensures MalformedAmong(tops, calls, src) == [] <==> AllLowered(tops, calls, src)
  {
    if tops != [] {
      MalformedIffNotAll(tops[1..], calls, src);
      assert tops[0] in tops && forall c | c in tops :: c == tops[0] || c in tops[1..];
    }
  }

  lemma OutermostOnce(calls: seq<Call>, range: Span)
    requires DistinctSpans(calls)
    ensures DistinctSpans(Outermost(calls, 0, range))
    ensures forall c :: c in Nested(calls, range) <==> c in Outermost(calls, 0, range)
  {
    var found := Outermost(calls, 0, range);
    OutermostMembers(calls, 0, range);
    forall i, j | 0 <= i < j < |found| ensures found[i].span != found[j].span {
      if found[i] == found[j] { TwiceIn(found, i, j); }
      assert found[i] in calls && found[j] in calls;
    }
    forall c ensures c in Nested(calls, range) <==> c in found { NestedMembers(calls, range, c); }
  }

  lemma WholeTreeIsSplice(root: Node, src: Text, c: Changes)
    requires root.span == Whole(src) && Tidy(root, c) && InBounds(c.replacements, |src|) && OnlyReplaces(c)
    ensures EmittedTree(root, src, c) == Spliced(EditsOf(root, c), 0, src)
  {
    EmitsIffTidy(root, src, c);
    TreeIsSplice(root, src, c);
    EditsSorted(root, c);
    SortKeepsSorted(EditsOf(root, c), EditSpan);
    var t := EmittedTree(root, src, c).value;
    assert src[..0] + t + src[|src|..] == t;
  }

  lemma ReplacementsInBounds(found: seq<Call>, nodes: seq<Node>, calls: seq<Call>, src: Text)
    requires AllShaped(calls, src) && (forall c | c in found :: c in calls) && HaveNodes(nodes, calls)
    requires DistinctSpans(found) && AllLowered(found, calls, src)
    ensures InBounds(Replacements(found, nodes, calls, src), |src|)
  {
    ReplacementsAre(found, nodes, calls, src);
    forall m | m in Replacements(found, nodes, calls, src) ensures m.span.end <= |src| {
      assert IsNodeOf(found, nodes, m);
      var c :| c in found && NodeFor(nodes, c.span) == Some(m);
      assert Shaped(c, src);
    }
  }

  /** The file that the tree emitter makes of the lowered outermost calls. */
  lemma EmittedIsRange(root: Node, src: Text, calls: seq<Call>, c: Changes)
    requires WellNested(calls, src) && HaveNodes(Descendants(root), calls)
    requires WellSpanned(root) && Tidy(root, UNCHANGED) && root.span == Whole(src)
    requires AllLowered(Outermost(calls, 0, Whole(src)), calls, src)
    requires c == Changes(Replacements(Outermost(calls, 0, Whole(src)), Descendants(root), calls, src), map[], map[])
    ensures EmittedTree(root, src, c) == RangeText(Whole(src), calls, src)
  {
    var found, tops := Outermost(calls, 0, Whole(src)), Nested(calls, Whole(src));
    OutermostOnce(calls, Whole(src));
    NestedFollow(calls, Whole(src), src);
    forall x, y | x in found && y in found && x != y ensures Apart(x.span, y.span) {
      NestedApart(calls, Whole(src), x, y, src);
    }
    EmittedIsSplice(root, src, calls, c, found, tops);
  }

  lemma EmittedIsSplice(root: Node, src: Text, calls: seq<Call>, c: Changes, found: seq<Call>, tops: seq<Call>)
    requires WellNested(calls, src) && HaveNodes(Descendants(root), calls)
    requires WellSpanned(root) && Tidy(root, UNCHANGED) && root.span == Whole(src)
    requires (forall x | x in found :: x in calls) && DistinctSpans(found) && AllLowered(found, calls, src)
    requires (forall x :: x in tops <==> x in found) && Follow(tops)
    requires forall x | x in tops :: Contains(Whole(src), x.span)
    requires forall x, y | x in found && y in found && x != y :: Apart(x.span, y.span)
    requires c == Changes(Replacements(found, Descendants(root), calls, src), map[], map[])
    ensures EmittedTree(root, src, c) == RangeFrom(tops, 0, Whole(src), calls, src)
  {
    StaysTidy(root, c);
    ReplacementsInBounds(found, Descendants(root), calls, src);
    EditsAreTops(root, c, Descendants(root), found, tops, calls, src);
    WholeTreeIsSplice(root, src, c);
    SpliceIsRange(tops, 0, calls, src);
  }

  /** The pass reports malformed calls exactly when the whole range cannot be rewritten. */
  lemma AllOrNothing(calls: seq<Call>, src: Text)
    requires WellNested(calls, src)
    ensures var found := Outermost(calls, 0, Whole(src));
            && (RangeText(Whole(src), calls, src).Some? <==> AllLowered(found, calls, src))
            && (MalformedAmong(found, calls, src) == [] <==> AllLowered(found, calls, src))
  {
    var found, tops := Outermost(calls, 0, Whole(src)), Nested(calls, Whole(src));
    OutermostOnce(calls, Whole(src));
    NestedFollow(calls, Whole(src), src);
    assert forall c | c in tops :: Shaped(c, src);
    RangeNeedsAll(tops, 0, calls, src);
    MalformedIffNotAll(found, calls, src);
  }

  /** A file becomes the print of its rewritten call trees, or a malformed call is reported and the file kept. */
  lemma FileIsPrintOf(root: Node, src: Text, calls: seq<Call>, es: seq<Expr>)
    requires WellNested(calls, src) && HaveNodes(Descendants(root), calls)
    requires WellSpanned(root) && Tidy(root, UNCHANGED) && root.span == Whole(src)
    requires Forest(es, Whole(src), src) && Covers(es, Whole(src), calls)
    ensures var printed := PrintRange(es, Whole(src), src);
            if printed.Some? then LoweringOf(root, src, calls) == Lowering(printed.value, [])
            else LoweringOf(root, src, calls).source == src && LoweringOf(root, src, calls).diagnostics != []
  {
    var found := Outermost(calls, 0, Whole(src));
    RangeIsPrinted(es, Whole(src), calls, src);
    AllOrNothing(calls, src);
    if calls == [] {
      assert src[0..|src|] == src;
    } else if AllLowered(found, calls, src) {
      EmittedIsRange(root, src, calls, Changes(Replacements(found, Descendants(root), calls, src), map[], map[]));
    }
  }

  lemma CoversWhole(es: seq<Expr>, calls: seq<Call>, src: Text)
    requires Covers(es, Whole(src), calls) && forall c | c in calls :: Shaped(c, src)
    ensures CallsIn(es) == set c | c in calls
  {
    forall c ensures c in CallsIn(es) <==> c in calls {
      if c in calls { assert Shaped(c, src) && Contains(Whole(src), c.span); }
    }
  }

  /** Every file with nested or separate calls of different spans has such trees. */
  lemma FileIsPrinted(root: Node, src: Text, calls: seq<Call>) returns (es: seq<Expr>)
    requires WellNested(calls, src) && HaveNodes(Descendants(root), calls)
    requires WellSpanned(root) && Tidy(root, UNCHANGED) && root.span == Whole(src)
    ensures Forest(es, Whole(src), src) && CallsIn(es) == set c | c in calls
    ensures var printed := PrintRange(es, Whole(src), src);
            if printed.Some? then LoweringOf(root, src, calls) == Lowering(printed.value, [])
            else LoweringOf(root, src, calls).source == src && LoweringOf(root, src, calls).diagnostics != []
  {
    es := Grown(calls, Whole(src), src);
    GrownIsRight(calls, Whole(src), src);
    FileIsPrintOf(root, src, calls, es);
    CoversWhole(es, calls, src);
  }
}
