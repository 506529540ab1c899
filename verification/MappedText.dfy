/** Text whose characters remember where in the original source they came from, and spans over it. */
module MappedText {
  import opened Wrappers

  datatype Origin = Origin(file: string, offset: nat)
  datatype Cell = Cell(ch: char, origin: Option<Origin>)
  type Text = seq<Cell>

  function Generated(text: string, origin: Option<Origin>): (r: Text)
    ensures |r| == |text|
  {
    seq(|text|, i requires 0 <= i < |text| => Cell(text[i], origin))
  }

  /** The characters alone. */
  function Chars(t: Text): (s: string)
    ensures |s| == |t|
  {
    seq(|t|, i requires 0 <= i < |t| => t[i].ch)
  }

  function OriginAt(t: Text, index: int): Option<Origin>
  {
    if 0 <= index < |t| then t[index].origin else None
  }

  class MappedTextBuilder {
    var cells: Text

    constructor ()
      ensures cells == []
    {
      cells := [];
    }

    /** Appends a slice; a slice out of bounds is refused. */
    method Append(mapped: Text, start: int, end: int) returns (ok: bool)
      modifies this
      ensures ok <==> 0 <= start <= end <= |mapped|
      ensures cells == if ok then old(cells) + mapped[start..end] else old(cells)
    {
      ok := 0 <= start <= end <= |mapped|;
      if ok { cells := cells + mapped[start..end]; }
    }

    method AppendAll(mapped: Text)
      modifies this
      ensures cells == old(cells) + mapped
    {
      cells := cells + mapped;
    }

    method AppendGenerated(text: string, origin: Option<Origin>)
      modifies this
      ensures cells == old(cells) + Generated(text, origin)
    {
      cells := cells + Generated(text, origin);
    }
  }

  /** A half-open interval of offsets. */
  datatype Span = Span(start: int, end: int)

  /** By start, then by end. */
  predicate Le(a: Span, b: Span)
  {
    a.start < b.start || (a.start == b.start && a.end <= b.end)
  }

  function Insert<T>(x: T, s: seq<T>, span: T -> Span): (r: seq<T>)
    ensures multiset(r) == multiset(s) + multiset{x}
  {
    if s == [] || Le(span(x), span(s[0])) then [x] + s
    else
      assert s == [s[0]] + s[1..];
      [s[0]] + Insert(x, s[1..], span)
  }

  /** The stable sort by span. */
  function Sort<T>(s: seq<T>, span: T -> Span): (r: seq<T>)
    ensures multiset(r) == multiset(s) && |r| == |s|
  {
    if s == [] then []
    else
      assert s == [s[0]] + s[1..];
      var r := Insert(s[0], Sort(s[1..], span), span);
      assert |multiset(r)| == |r| && |multiset(s)| == |s|;
      r
  }

  ghost predicate Sorted<T>(s: seq<T>, span: T -> Span)
  {
    forall i, j | 0 <= i < j < |s| :: Le(span(s[i]), span(s[j]))
  }

  lemma {:induction false} InsertSorts<T>(x: T, s: seq<T>, span: T -> Span)
    requires Sorted(s, span)
    ensures Sorted(Insert(x, s, span), span)
  {
    if s != [] && !Le(span(x), span(s[0])) {
      InsertSorts(x, s[1..], span);
      var r := Insert(x, s[1..], span);
      assert s == [s[0]] + s[1..];
      forall j | 0 <= j < |r| ensures Le(span(s[0]), span(r[j])) {
        assert r[j] in multiset(r);
        assert r[j] in multiset(s[1..]) + multiset{x};
      }
    }
  }

  lemma {:induction false} SortSorts<T>(s: seq<T>, span: T -> Span)
    ensures Sorted(Sort(s, span), span)
  {
    if s != [] {
      SortSorts(s[1..], span);
      InsertSorts(s[0], Sort(s[1..], span), span);
    }
  }

  /** Being stable, the sort leaves a sorted list as it is. */
  lemma {:induction false} SortKeepsSorted<T>(s: seq<T>, span: T -> Span)
    requires Sorted(s, span)
    ensures Sort(s, span) == s
  {
    if s != [] {
      SortKeepsSorted(s[1..], span);
      assert s == [s[0]] + s[1..];
    }
  }

  lemma SortedAppend<T>(a: seq<T>, b: seq<T>, span: T -> Span, mid: Span)
    requires Sorted(a, span) && Sorted(b, span)
    requires (forall x | x in a :: Le(span(x), mid)) && forall y | y in b :: Le(mid, span(y))
    ensures Sorted(a + b, span)
  {
    forall i, j | 0 <= i < j < |a + b| ensures Le(span((a + b)[i]), span((a + b)[j])) {
      if i < |a| <= j { assert a[i] in a && b[j - |a|] in b; }
    }
  }
}
