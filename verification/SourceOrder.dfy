/** The order of source identifiers by their text, and sorting by it. */
module SourceOrder {

  /** Lexicographic order: at the first difference the smaller character decides, a prefix comes first. */
  predicate Before(a: string, b: string)
  {
    b != [] && (a == [] || a[0] < b[0] || (a[0] == b[0] && Before(a[1..], b[1..])))
  }

  lemma {:induction false} BeforeIsTotal(a: string, b: string)
    ensures a == b || Before(a, b) || Before(b, a)
    ensures !(Before(a, b) && Before(b, a)) && !Before(a, a)
  {
    if a != [] { BeforeIsIrreflexive(a); }
    if a != [] && b != [] {
      BeforeIsTotal(a[1..], b[1..]);
      assert a == [a[0]] + a[1..] && b == [b[0]] + b[1..];
    }
  }

  lemma {:induction false} BeforeIsIrreflexive(a: string)
    ensures !Before(a, a)
  {
    if a != [] { BeforeIsIrreflexive(a[1..]); }
  }

  lemma {:induction false} BeforeIsTransitive(a: string, b: string, c: string)
    requires Before(a, b) && Before(b, c)
    ensures Before(a, c)
  {
    if a != [] && a[0] == b[0] && b[0] == c[0] { BeforeIsTransitive(a[1..], b[1..], c[1..]); }
  }

  ghost predicate Ascending(s: seq<string>)
  {
    forall i, j | 0 <= i < j < |s| :: Before(s[i], s[j])
  }

  ghost function Elements(s: seq<string>): set<string>
  {
    set x | x in s
  }

  /** Two ascending lists of the same elements are the same list. */
  lemma {:induction false} AscendingIsUnique(s: seq<string>, t: seq<string>)
    requires Ascending(s) && Ascending(t) && (forall x :: x in s <==> x in t)
    ensures s == t
  {
    if s != [] { HeadIsLeast(s); }
    if t != [] { HeadIsLeast(t); }
    if s != [] && t != [] {
      assert s[0] in t && t[0] in s;
      BeforeIsTotal(s[0], t[0]);
      assert s[0] == t[0];
      forall x
        ensures x in s[1..] <==> x in t[1..]
      {
        BeforeIsIrreflexive(s[0]);
        assert x in s <==> x == s[0] || x in s[1..];
        assert x in t <==> x == t[0] || x in t[1..];
      }
      AscendingIsUnique(s[1..], t[1..]);
      assert s == [s[0]] + s[1..] && t == [t[0]] + t[1..];
    }
  }

  lemma HeadIsLeast(s: seq<string>)
    requires Ascending(s) && s != []
    ensures s[0] in s && forall x | x in s :: x == s[0] || Before(s[0], x)
  {
  }

  function Insert(x: string, s: seq<string>): (r: seq<string>)
    ensures forall y :: y in r <==> y == x || y in s
  {
    if s == [] || !Before(s[0], x) then [x] + s
    else
      var rest := Insert(x, s[1..]);
      assert s == [s[0]] + s[1..];
      [s[0]] + rest
  }

  lemma {:induction false} InsertAscends(x: string, s: seq<string>)
    requires Ascending(s) && x !in s
    ensures Ascending(Insert(x, s))
  {
    if s == [] {
    } else if !Before(s[0], x) {
      BeforeIsTotal(s[0], x);
      forall i | 0 <= i < |s| ensures Before(x, s[i]) {
        if i > 0 { BeforeIsTransitive(x, s[0], s[i]); }
      }
    } else {
      InsertAscends(x, s[1..]);
      var rest := Insert(x, s[1..]);
      forall i | 0 <= i < |rest| ensures Before(s[0], rest[i]) {
        assert rest[i] in rest;
      }
    }
  }

  function Sorted(s: seq<string>): (r: seq<string>)
    ensures forall y :: y in r <==> y in s
  {
    if s == [] then [] else
      assert s == [s[0]] + s[1..];
      Insert(s[0], Sorted(s[1..]))
  }

  predicate NoDuplicates(s: seq<string>)
  {
    forall i, j | 0 <= i < j < |s| :: s[i] != s[j]
  }

  lemma {:induction false} SortedAscends(s: seq<string>)
    requires NoDuplicates(s)
    ensures Ascending(Sorted(s))
  {
    if s != [] {
      SortedAscends(s[1..]);
      InsertAscends(s[0], Sorted(s[1..]));
    }
  }

  /** Sorting forgets the order it starts from. */
  lemma SortedIsCanonical(s: seq<string>, t: seq<string>)
    requires NoDuplicates(s) && NoDuplicates(t) && Elements(s) == Elements(t)
    ensures Sorted(s) == Sorted(t)
  {
    SortedAscends(s);
    SortedAscends(t);
    assert forall x :: x in s <==> x in Elements(s);
    assert forall x :: x in t <==> x in Elements(t);
    AscendingIsUnique(Sorted(s), Sorted(t));
  }

  /** The elements in order of first occurrence. */
  function Distinct(s: seq<string>): (r: seq<string>)
    ensures NoDuplicates(r)
    ensures forall y :: y in r <==> y in s
  {
    if s == [] then [] else
      var init := Distinct(s[..|s| - 1]);
      var last := s[|s| - 1];
      assert s == s[..|s| - 1] + [last];
      if last in init then init else init + [last]
  }
}
