/** The call tree that the spans describe, rewritten from the leaves up, and why searching ranges does the same. */
module MethodCallTrees {
  import opened Wrappers
  import opened MappedText
  import opened MappedAstEmitter
  import opened MethodCalls

  /** A call with the calls nested in its receiver and in its arguments, and those in text that the rewrite drops. */
  datatype Expr = Expr(call: Call, inReceiver: seq<Expr>, inArguments: seq<Expr>, dropped: set<Call>)

  predicate Apart(a: Span, b: Span) { a.end <= b.start || b.end <= a.start }

  function Arguments(c: Call): Span { Span(c.insertion, c.span.end) }

  predicate Fits(e: Expr, src: Text)
    decreases e
  {
    && Shaped(e.call, src) && e.call.receiver.end <= e.call.insertion
    && Forest(e.inReceiver, Trimmed(src, e.call.receiver), src)
    && Forest(e.inArguments, Arguments(e.call), src)
    && (forall d | d in e.dropped :: Dropped(e.call, d, src))
  }

  /** A call inside another that is neither in its receiver nor in its arguments. */
  predicate Dropped(c: Call, d: Call, src: Text)
    requires Shaped(c, src)
  {
    && Shaped(d, src) && Contains(c.span, d.span) && d != c
    && Apart(d.span, Trimmed(src, c.receiver)) && Apart(d.span, Arguments(c))
  }

  /** Calls that follow one another inside a range. */
  predicate Forest(es: seq<Expr>, range: Span, src: Text)
    decreases es
  {
    es == [] ||
    (&& Fits(es[0], src) && Contains(range, es[0].call.span)
     && Forest(es[1..], Span(es[0].call.span.end, range.end), src))
  }

  function CallsOf(e: Expr): set<Call>
    decreases e
  {
    {e.call} + CallsIn(e.inReceiver) + CallsIn(e.inArguments) + e.dropped
  }

  function CallsIn(es: seq<Expr>): set<Call>
    decreases es
  {
    if es == [] then {} else CallsOf(es[0]) + CallsIn(es[1..])
  }

  /** A call with its receiver and its arguments printed. */
  function Print(e: Expr, src: Text): Option<Text>
    requires Fits(e, src)
    decreases e
  {
    var r := Trimmed(src, e.call.receiver);
    var receiver := if Instance(e.call) && r.start < r.end then PrintRange(e.inReceiver, r, src) else None;
    Wrapped(e.call, src, receiver, PrintRange(e.inArguments, Arguments(e.call), src))
  }

  /** The source text with each of the calls that follow one another printed in its place. */
  function PrintRange(es: seq<Expr>, range: Span, src: Text): Option<Text>
    requires Forest(es, range, src)
    decreases es
  {
    if !(0 <= range.start <= range.end <= |src|) then None
    else if es == [] then Some(src[range.start..range.end])
    else
      var first := es[0].call.span;
      var inner := Print(es[0], src);
      if inner.None? then None
      else Prefixed(src[range.start..first.start] + inner.value, PrintRange(es[1..], Span(first.end, range.end), src))
  }

  // Locating calls in the tree.

  lemma {:induction false} CallsInside(e: Expr, src: Text)
    requires Fits(e, src)
    ensures forall c | c in CallsOf(e) :: Shaped(c, src) && Contains(e.call.span, c.span)
    decreases e
  {
    CallsInsideForest(e.inReceiver, Trimmed(src, e.call.receiver), src);
    CallsInsideForest(e.inArguments, Arguments(e.call), src);
  }

  lemma {:induction false} CallsInsideForest(es: seq<Expr>, range: Span, src: Text)
    requires Forest(es, range, src)
    ensures forall c | c in CallsIn(es) :: Shaped(c, src) && Contains(range, c.span)
    decreases es
  {
    if es != [] {
      CallsInside(es[0], src);
      CallsInsideForest(es[1..], Span(es[0].call.span.end, range.end), src);
    }
  }

  predicate DistinctSpans(calls: seq<Call>)
  {
    forall i, j | 0 <= i < j < |calls| :: calls[i].span != calls[j].span
  }

  /** The calls of the list that lie inside the range are those of the trees. */
  ghost predicate Covers(es: seq<Expr>, range: Span, calls: seq<Call>)
  {
    && (forall c | c in CallsIn(es) :: c in calls)
    && (forall c | c in calls && Contains(range, c.span) :: c in CallsIn(es))
  }

  lemma {:induction false} MemberCalls(es: seq<Expr>, e: Expr)
    requires e in es
    ensures CallsOf(e) <= CallsIn(es)
  {
    if e != es[0] { MemberCalls(es[1..], e); }
  }

  lemma {:induction false} MemberFits(es: seq<Expr>, range: Span, e: Expr, src: Text)
    requires Forest(es, range, src) && e in es
    ensures Fits(e, src) && Contains(range, e.call.span)
    decreases |es|
  {
    if e != es[0] { MemberFits(es[1..], Span(es[0].call.span.end, range.end), e, src); }
  }

  /** A call of the forest whose span touches a tree's span is a call of that tree. */
  lemma {:induction false} Locate(es: seq<Expr>, range: Span, e: Expr, c: Call, src: Text)
    requires Forest(es, range, src) && e in es && c in CallsIn(es) && !Apart(c.span, e.call.span)
    ensures c in CallsOf(e)
    decreases |es|
  {
    var tail := Span(es[0].call.span.end, range.end);
    CallsInside(es[0], src);
    CallsInsideForest(es[1..], tail, src);
    if e != es[0] {
      MemberFits(es[1..], tail, e, src);
      if c in CallsIn(es[1..]) { Locate(es[1..], tail, e, c, src); }
    }
  }

  lemma CoversParts(es: seq<Expr>, range: Span, e: Expr, calls: seq<Call>, src: Text)
    requires Fits(e, src) && Forest(es, range, src) && Covers(es, range, calls) && e in es && AllShaped(calls, src)
    ensures Covers(e.inReceiver, Trimmed(src, e.call.receiver), calls)
    ensures Covers(e.inArguments, Arguments(e.call), calls)
  {
    MemberFits(es, range, e, src);
    MemberCalls(es, e);
    CallsInsideForest(e.inReceiver, Trimmed(src, e.call.receiver), src);
    CallsInsideForest(e.inArguments, Arguments(e.call), src);
    PartsHoldTheirs(es, range, e, calls, src);
  }

  /** A call of the set that lies in a part of a tree's root is one of that tree. */
  lemma PartsHoldTheirs(es: seq<Expr>, range: Span, e: Expr, calls: seq<Call>, src: Text)
    requires Fits(e, src) && Forest(es, range, src) && Covers(es, range, calls) && e in es && AllShaped(calls, src)
    ensures forall c | c in calls
                       && (Contains(Trimmed(src, e.call.receiver), c.span) || Contains(Arguments(e.call), c.span)) ::
              c in CallsOf(e) && c != e.call
  {
    MemberFits(es, range, e, src);
    MemberCalls(es, e);
    forall c | c in calls && (Contains(Trimmed(src, e.call.receiver), c.span) || Contains(Arguments(e.call), c.span))
      ensures c in CallsOf(e) && c != e.call
    {
      assert Shaped(c, src);
      Locate(es, range, e, c, src);
    }
  }

  // The range search finds the roots of the trees.

  function Roots(es: seq<Expr>): (r: seq<Call>)
    ensures |r| == |es| && forall i | 0 <= i < |es| :: r[i] == es[i].call
  {
    if es == [] then [] else [es[0].call] + Roots(es[1..])
  }

  ghost predicate Increasing(s: seq<Call>)
  {
    forall i, j | 0 <= i < j < |s| :: s[i].span.start < s[j].span.start
  }

  lemma {:induction false} RootsIncrease(es: seq<Expr>, range: Span, src: Text)
    requires Forest(es, range, src)
    ensures Increasing(Roots(es)) && forall c | c in Roots(es) :: range.start <= c.span.start
    decreases |es|
  {
    if es != [] { RootsIncrease(es[1..], Span(es[0].call.span.end, range.end), src); }
  }

  predicate IsOutermost(calls: seq<Call>, range: Span, i: nat)
    requires i < |calls|
  {
    Contains(range, calls[i].span) && !Covered(calls, i, range)
  }

  lemma {:induction false} OutermostMembers(calls: seq<Call>, k: nat, range: Span)
    requires k <= |calls| && DistinctSpans(calls)
    ensures forall c :: c in Outermost(calls, k, range) <==>
              exists i | k <= i < |calls| :: IsOutermost(calls, range, i) && calls[i] == c
    ensures forall c :: multiset(Outermost(calls, k, range))[c] <= 1
    decreases |calls| - k
  {
    if k < |calls| {
      OutermostMembers(calls, k + 1, range);
      assert calls[k] !in Outermost(calls, k + 1, range);
    }
  }

  lemma RootIsOutermost(es: seq<Expr>, range: Span, e: Expr, calls: seq<Call>, i: nat, src: Text)
    requires Forest(es, range, src) && Covers(es, range, calls) && AllShaped(calls, src) && DistinctSpans(calls)
    requires e in es && i < |calls| && calls[i] == e.call
    ensures IsOutermost(calls, range, i)
  {
    MemberFits(es, range, e, src);
    CallsInside(e, src);
    forall j | 0 <= j < |calls| && Contains(range, calls[j].span) && Contains(calls[j].span, calls[i].span)
      ensures j == i
    {
      Locate(es, range, e, calls[j], src);
    }
  }

  lemma {:induction false} TreeOf(es: seq<Expr>, c: Call) returns (e: Expr)
    requires c in CallsIn(es)
    ensures e in es && c in CallsOf(e)
    decreases |es|
  {
    if c in CallsOf(es[0]) { e := es[0]; } else { e := TreeOf(es[1..], c); }
  }

  lemma OutermostIsRoot(es: seq<Expr>, range: Span, calls: seq<Call>, i: nat, src: Text)
    requires Forest(es, range, src) && Covers(es, range, calls) && AllShaped(calls, src)
    requires i < |calls| && IsOutermost(calls, range, i)
    ensures calls[i] in Roots(es)
  {
    var e := TreeOf(es, calls[i]);
    MemberFits(es, range, e, src);
    CallsInside(e, src);
    MemberCalls(es, e);
    var j :| 0 <= j < |calls| && calls[j] == e.call;
    var k :| 0 <= k < |es| && es[k] == e;
    assert Roots(es)[k] == e.call;
  }

  /** Sorting determines the list, when the roots start at different offsets. */
  lemma {:induction false} SameSorted(a: seq<Call>, b: seq<Call>)
    requires Sorted(a, StartSpan) && Increasing(b) && multiset(a) == multiset(b)
    ensures a == b
    decreases |a|
  {
    assert |multiset(a)| == |a| && |multiset(b)| == |b|;
    if a != [] {
      SameFirst(a, b);
      assert a == [a[0]] + a[1..] && b == [b[0]] + b[1..];
      assert multiset(a[1..]) == multiset(a) - multiset{a[0]};
      assert multiset(b[1..]) == multiset(b) - multiset{b[0]};
      SameSorted(a[1..], b[1..]);
    }
  }

  lemma SameFirst(a: seq<Call>, b: seq<Call>)
    requires Sorted(a, StartSpan) && Increasing(b) && multiset(a) == multiset(b) && a != [] && b != []
    ensures a[0] == b[0]
  {
    assert a[0] in multiset(b) && b[0] in multiset(a);
    var i :| 0 <= i < |b| && b[i] == a[0];
    var j :| 0 <= j < |a| && a[j] == b[0];
    assert j > 0 ==> Le(StartSpan(a[0]), StartSpan(a[j]));
  }

  lemma {:induction false} IncreasingOnce(s: seq<Call>)
    requires Increasing(s)
    ensures forall c :: multiset(s)[c] == if c in s then 1 else 0
    decreases |s|
  {
    if s != [] {
      IncreasingOnce(s[1..]);
      assert s == [s[0]] + s[1..];
    }
  }

  lemma FoundIffRoot(es: seq<Expr>, range: Span, calls: seq<Call>, c: Call, src: Text)
    requires Forest(es, range, src) && Covers(es, range, calls) && AllShaped(calls, src) && DistinctSpans(calls)
    ensures c in Outermost(calls, 0, range) <==> c in Roots(es)
  {
    OutermostMembers(calls, 0, range);
    if c in Outermost(calls, 0, range) {
      var i :| 0 <= i < |calls| && IsOutermost(calls, range, i) && calls[i] == c;
      OutermostIsRoot(es, range, calls, i, src);
    }
    if c in Roots(es) {
      var k :| 0 <= k < |es| && Roots(es)[k] == c;
      MemberCalls(es, es[k]);
      var i :| 0 <= i < |calls| && calls[i] == c;
      RootIsOutermost(es, range, es[k], calls, i, src);
    }
  }

  lemma FoundAsOften(es: seq<Expr>, range: Span, calls: seq<Call>, c: Call, src: Text)
    requires Forest(es, range, src) && Covers(es, range, calls) && AllShaped(calls, src) && DistinctSpans(calls)
    ensures multiset(Outermost(calls, 0, range))[c] == multiset(Roots(es))[c]
  {
    FoundIffRoot(es, range, calls, c, src);
    OutermostMembers(calls, 0, range);
    RootsIncrease(es, range, src);
    IncreasingOnce(Roots(es));
  }

  lemma NestedIsRoots(es: seq<Expr>, range: Span, calls: seq<Call>, src: Text)
    requires Forest(es, range, src) && Covers(es, range, calls) && AllShaped(calls, src) && DistinctSpans(calls)
    ensures Nested(calls, range) == Roots(es)
  {
    var found := Outermost(calls, 0, range);
    forall c { FoundAsOften(es, range, calls, c, src); }
    assert multiset(found) == multiset(Roots(es));
    RootsIncrease(es, range, src);
    SortSorts(found, StartSpan);
    SameSorted(Sort(found, StartSpan), Roots(es));
  }

  // Rewriting by ranges is printing the rewritten trees.

  lemma {:induction false} LoweredIsPrinted(es: seq<Expr>, range: Span, e: Expr, calls: seq<Call>, src: Text)
    requires Forest(es, range, src) && Covers(es, range, calls) && AllShaped(calls, src) && DistinctSpans(calls)
    requires e in es && e.call in calls && Fits(e, src)
    ensures Lowered(e.call, calls, src) == Print(e, src)
    decreases e, 0, 0
  {
    CoversParts(es, range, e, calls, src);
    RangeIsPrinted(e.inReceiver, Trimmed(src, e.call.receiver), calls, src);
    RangeIsPrinted(e.inArguments, Arguments(e.call), calls, src);
  }

  /**
     For calls that are nested or apart, with different spans, the search over ranges ends and rewrites
     exactly as the tree of calls is rewritten from its leaves up.
   */
  lemma {:induction false} RangeIsPrinted(es: seq<Expr>, range: Span, calls: seq<Call>, src: Text)
    requires Forest(es, range, src) && Covers(es, range, calls) && AllShaped(calls, src) && DistinctSpans(calls)
    ensures RangeText(range, calls, src) == PrintRange(es, range, src)
    decreases es, 1, 0
  {
    if 0 <= range.start <= range.end <= |src| {
      NestedIsRoots(es, range, calls, src);
      FromIsPrinted(es, 0, range.start, range, calls, src);
    }
  }

  lemma {:induction false} FromIsPrinted(es: seq<Expr>, k: nat, cursor: int, range: Span, calls: seq<Call>, src: Text)
    requires Forest(es, range, src) && Covers(es, range, calls) && AllShaped(calls, src) && DistinctSpans(calls)
    requires 0 <= range.start <= cursor <= range.end <= |src| && k <= |es|
    requires Forest(es[k..], Span(cursor, range.end), src)
    requires forall c | c in Roots(es[k..]) :: c in calls && Contains(range, c.span)
    ensures RangeFrom(Roots(es[k..]), cursor, range, calls, src) == PrintRange(es[k..], Span(cursor, range.end), src)
    decreases es, 0, |es| - k
  {
    if k < |es| {
      assert es[k..][0] == es[k] && es[k..][1..] == es[k + 1..];
      LoweredIsPrinted(es, range, es[k], calls, src);
      FromIsPrinted(es, k + 1, es[k].call.span.end, range, calls, src);
    }
  }

  // Every set of nested or separate calls has its trees.

  ghost predicate Laminar(calls: seq<Call>)
  {
    forall c, d | c in calls && d in calls ::
      Contains(c.span, d.span) || Contains(d.span, c.span) || Apart(c.span, d.span)
  }

  /** No call reaches across an end of another call's receiver or argument list. */
  ghost predicate Aligned(calls: seq<Call>, src: Text)
    requires AllShaped(calls, src)
  {
    forall c, d | c in calls && d in calls && d != c && Contains(c.span, d.span) :: AlignedWith(c, d, src)
  }

  predicate AlignedWith(c: Call, d: Call, src: Text)
    requires Shaped(c, src)
  {
    || Contains(Trimmed(src, c.receiver), d.span) || Contains(Arguments(c), d.span)
    || (Apart(d.span, Trimmed(src, c.receiver)) && Apart(d.span, Arguments(c)))
  }

  ghost predicate WellNested(calls: seq<Call>, src: Text)
  {
    && AllShaped(calls, src) && DistinctSpans(calls) && Laminar(calls) && Aligned(calls, src)
    && forall c | c in calls :: c.receiver.end <= c.insertion
  }

  ghost function Grown(calls: seq<Call>, range: Span, src: Text): seq<Expr>
    requires AllShaped(calls, src)
    decreases range.end - range.start, 1, 0
  {
    GrownFrom(Nested(calls, range), range, calls, src)
  }

  ghost function GrownFrom(roots: seq<Call>, range: Span, calls: seq<Call>, src: Text): seq<Expr>
    requires AllShaped(calls, src) && forall c | c in roots :: c in calls && Contains(range, c.span)
    decreases range.end - range.start, 0, |roots|
  {
    if roots == [] then []
    else
      var c := roots[0];
      assert c in roots && Shaped(c, src) && Contains(range, c.span);
      [GrownCall(c, calls, src)] + GrownFrom(roots[1..], range, calls, src)
  }

  ghost function GrownCall(c: Call, calls: seq<Call>, src: Text): Expr
    requires AllShaped(calls, src) && c in calls
    decreases c.span.end - c.span.start, -1, 0
  {
    Expr(c, Grown(calls, Trimmed(src, c.receiver), src),
         if c.insertion > c.span.start then Grown(calls, Arguments(c), src) else [],
         set d | d in calls && Dropped(c, d, src))
  }

  ghost predicate Follow(s: seq<Call>)
  {
    forall i, j | 0 <= i < j < |s| :: s[i].span.end <= s[j].span.start
  }

  lemma NestedMembers(calls: seq<Call>, range: Span, c: Call)
    requires DistinctSpans(calls)
    ensures c in Nested(calls, range) <==> exists i | 0 <= i < |calls| :: IsOutermost(calls, range, i) && calls[i] == c
    ensures multiset(Nested(calls, range))[c] <= 1
  {
    OutermostMembers(calls, 0, range);
    assert c in Nested(calls, range) <==> c in multiset(Nested(calls, range));
    assert c in Outermost(calls, 0, range) <==> c in multiset(Outermost(calls, 0, range));
  }

  lemma NestedApart(calls: seq<Call>, range: Span, c: Call, d: Call, src: Text)
    requires WellNested(calls, src) && c in Nested(calls, range) && d in Nested(calls, range) && c != d
    ensures Apart(c.span, d.span)
  {
    NestedMembers(calls, range, c);
    NestedMembers(calls, range, d);
    var i :| 0 <= i < |calls| && IsOutermost(calls, range, i) && calls[i] == c;
    var j :| 0 <= j < |calls| && IsOutermost(calls, range, j) && calls[j] == d;
    assert !Contains(calls[i].span, calls[j].span) && !Contains(calls[j].span, calls[i].span);
  }

  lemma TwiceIn(s: seq<Call>, i: nat, j: nat)
    requires i < j < |s| && s[i] == s[j]
    ensures multiset(s)[s[i]] >= 2
  {
    assert s == s[..j] + [s[j]] + s[j + 1..];
    assert s[..j][i] in multiset(s[..j]);
  }

  lemma NestedFollow(calls: seq<Call>, range: Span, src: Text)
    requires WellNested(calls, src)
    ensures Follow(Nested(calls, range))
  {
    var s := Nested(calls, range);
    SortSorts(Outermost(calls, 0, range), StartSpan);
    forall i, j | 0 <= i < j < |s| ensures s[i].span.end <= s[j].span.start {
      NestedMembers(calls, range, s[i]);
      if s[i] == s[j] { TwiceIn(s, i, j); } else { NestedApart(calls, range, s[i], s[j], src); }
      assert s[i] in s && s[j] in s && Shaped(s[i], src) && Shaped(s[j], src);
      assert Le(StartSpan(s[i]), StartSpan(s[j]));
    }
  }

  /** Every call of the range lies in an outermost one. */
  lemma {:induction false} RootOver(calls: seq<Call>, range: Span, i: nat) returns (r: Call)
    requires DistinctSpans(calls) && i < |calls| && Contains(range, calls[i].span)
    ensures r in Nested(calls, range) && Contains(r.span, calls[i].span)
    decreases range.end - range.start - (calls[i].span.end - calls[i].span.start)
  {
    if Covered(calls, i, range) {
      var j :| 0 <= j < |calls| && j != i && Contains(range, calls[j].span) && Contains(calls[j].span, calls[i].span);
      r := RootOver(calls, range, j);
    } else {
      r := calls[i];
      assert IsOutermost(calls, range, i);
      NestedMembers(calls, range, r);
    }
  }

  lemma {:induction false} GrownIsRight(calls: seq<Call>, range: Span, src: Text)
    requires WellNested(calls, src)
    ensures Forest(Grown(calls, range, src), range, src) && Covers(Grown(calls, range, src), range, calls)
    decreases range.end - range.start, 1, 0
  {
    var roots := Nested(calls, range);
    NestedFollow(calls, range, src);
    GrownFromIsRight(roots, range.start, range, calls, src);
    RootsCover(calls, range, Grown(calls, range, src));
  }

  lemma RootsCover(calls: seq<Call>, range: Span, es: seq<Expr>)
    requires DistinctSpans(calls) && forall c | c in CallsIn(es) :: c in calls
    requires forall r, c | r in Nested(calls, range) && c in calls && Contains(r.span, c.span) :: c in CallsIn(es)
    ensures Covers(es, range, calls)
  {
    forall c | c in calls && Contains(range, c.span) ensures c in CallsIn(es) {
      var i :| 0 <= i < |calls| && calls[i] == c;
      var r := RootOver(calls, range, i);
    }
  }

  lemma {:induction false} GrownFromIsRight(roots: seq<Call>, cursor: int, range: Span, calls: seq<Call>, src: Text)
    requires WellNested(calls, src)
    requires forall c | c in roots :: c in calls && Contains(range, c.span) && cursor <= c.span.start
    requires Follow(roots)
    ensures Forest(GrownFrom(roots, range, calls, src), Span(cursor, range.end), src)
    ensures forall c | c in CallsIn(GrownFrom(roots, range, calls, src)) :: c in calls
    ensures forall r, c | r in roots && c in calls && Contains(r.span, c.span) ::
              c in CallsIn(GrownFrom(roots, range, calls, src))
    decreases range.end - range.start, 0, |roots|
  {
    if roots != [] {
      var c := roots[0];
      assert c in roots && Shaped(c, src) && Contains(range, c.span);
      GrownCallIsRight(c, calls, src);
      GrownFromIsRight(roots[1..], c.span.end, range, calls, src);
    }
  }

  lemma {:induction false} GrownCallIsRight(c: Call, calls: seq<Call>, src: Text)
    requires WellNested(calls, src) && c in calls
    ensures Fits(GrownCall(c, calls, src), src)
    ensures forall d | d in CallsOf(GrownCall(c, calls, src)) :: d in calls
    ensures forall d | d in calls && Contains(c.span, d.span) :: d in CallsOf(GrownCall(c, calls, src))
    decreases c.span.end - c.span.start, -1, 0
  {
    var e := GrownCall(c, calls, src);
    GrownIsRight(calls, Trimmed(src, c.receiver), src);
    GrownIsRight(calls, Arguments(c), src);
    forall d | d in calls && Contains(c.span, d.span) && d != c ensures d in CallsOf(e) {
      assert AlignedWith(c, d, src);
    }
  }

  /** For all nested or separate calls with different spans: the range search prints their trees. */
  lemma RangeTextIsPrinted(calls: seq<Call>, range: Span, src: Text)
    requires WellNested(calls, src)
    ensures Forest(Grown(calls, range, src), range, src) && Covers(Grown(calls, range, src), range, calls)
    ensures RangeText(range, calls, src) == PrintRange(Grown(calls, range, src), range, src)
  {
    GrownIsRight(calls, range, src);
    RangeIsPrinted(Grown(calls, range, src), range, calls, src);
  }
}
