/** Emitting a syntax tree with replaced nodes and insertions, and splicing edits into flat text. */
module MappedAstEmitter {
  import opened Wrappers
  import opened MappedText

  datatype Node = Node(kind: string, field: Option<string>, span: Span, children: seq<Node>)
  datatype Edit = Edit(span: Span, replacement: Text)

  /** What is attached to syntax nodes. */
  datatype Changes = Changes(replacements: map<Node, Text>, after: map<Node, Text>, before: map<Node, Text>)

  function At(m: map<Node, Text>, n: Node): Text { if n in m then m[n] else [] }

  function Prefixed(a: Text, r: Option<Text>): Option<Text>
  {
    if r.None? then None else Some(a + r.value)
  }

  lemma PrefixedTwice(a: Text, b: Text, r: Option<Text>)
    ensures Prefixed(a, Prefixed(b, r)) == Prefixed(a + b, r)
  {
    if r.Some? { assert a + (b + r.value) == a + b + r.value; }
  }

  lemma PrefixedEmpty(r: Option<Text>)
    ensures Prefixed([], r) == r
  {
    if r.Some? { assert [] + r.value == r.value; }
  }

  lemma Assoc(a: Text, b: Text, c: Text)
    ensures a + b + c == a + (b + c)
  {
  }

  lemma Grouped(a: Text, b: Text, c: Text, d: Text)
    ensures a + b + c + d == a + (b + c + d) == a + (b + (c + d))
  {
    assert b + c + d == b + (c + d);
  }

  function NodeSpan(n: Node): Span { n.span }

  function EditSpan(e: Edit): Span { e.span }

  function NonEmpty(s: seq<Node>): (r: seq<Node>)
    ensures forall n | n in r :: n in s && n.span.start < n.span.end
    ensures forall n | n in s && n.span.start < n.span.end :: n in r
  {
    if s == [] then [] else (if s[0].span.start < s[0].span.end then [s[0]] else []) + NonEmpty(s[1..])
  }

  /** The children that cover text, in the order of their spans. */
  function Kids(n: Node): (r: seq<Node>)
    ensures forall k | k in r :: k in n.children && k.span.start < k.span.end
    ensures forall k | k in n.children && k.span.start < k.span.end :: k in r
  {
    var r := Sort(NonEmpty(n.children), NodeSpan);
    assert forall k :: k in r <==> k in multiset(r);
    assert forall k :: k in NonEmpty(n.children) <==> k in multiset(NonEmpty(n.children));
    r
  }

  /** The text of a node with its changes, or nothing if its children overlap or leave it. */
  function Emitted(n: Node, src: Text, c: Changes): Option<Text>
    decreases n, 1, 0
  {
    var inner := if n in c.replacements then Some(c.replacements[n]) else EmittedFrom(n, Kids(n), n.span.start, src, c);
    if inner.None? then None else Some(At(c.before, n) + inner.value + At(c.after, n))
  }

  /** The rest of a node: the remaining children and the text between and after them. */
  function EmittedFrom(n: Node, kids: seq<Node>, cursor: int, src: Text, c: Changes): Option<Text>
    requires forall k | k in kids :: k in n.children
    decreases n, 0, |kids|
  {
    if kids == [] then (if 0 <= cursor <= n.span.end <= |src| then Some(src[cursor..n.span.end]) else None)
    else
      var k := kids[0];
      assert k in n.children && exists i | 0 <= i < |n.children| :: n.children[i] == k;
      if !(0 <= cursor <= k.span.start <= |src| && k.span.end <= n.span.end) then None
      else
        var inner := Emitted(k, src, c);
        if inner.None? then None
        else Prefixed(src[cursor..k.span.start] + inner.value, EmittedFrom(n, kids[1..], k.span.end, src, c))
  }

  lemma EmittedFromNext(n: Node, kids: seq<Node>, i: nat, cursor: int, src: Text, c: Changes)
    requires i < |kids| && forall k | k in kids :: k in n.children
    ensures kids[i] < n
    ensures EmittedFrom(n, kids[i..], cursor, src, c)
         == var k := kids[i];
            var inner := Emitted(k, src, c);
            if !(0 <= cursor <= k.span.start <= |src| && k.span.end <= n.span.end) || inner.None? then None
            else Prefixed(src[cursor..k.span.start] + inner.value, EmittedFrom(n, kids[i + 1..], k.span.end, src, c))
  {
    assert kids[i] in n.children && exists j | 0 <= j < |n.children| :: n.children[j] == kids[i];
    assert kids[i..][0] == kids[i] && kids[i..][1..] == kids[i + 1..];
  }

  predicate InBounds(m: map<Node, Text>, length: nat)
  {
    forall n | n in m :: n.span.end <= length
  }

  predicate StartsInBounds(m: map<Node, Text>, length: nat)
  {
    forall n | n in m :: n.span.start <= length
  }

  function EmittedTree(root: Node, src: Text, c: Changes): Option<Text>
  {
    if InBounds(c.replacements, |src|) && InBounds(c.after, |src|) && StartsInBounds(c.before, |src|)
    then Emitted(root, src, c)
    else None
  }

  /** Splices edits, in the order given, into the text from `cursor` on. */
  function Spliced(edits: seq<Edit>, cursor: int, src: Text): Option<Text>
    requires 0 <= cursor <= |src|
  {
    if edits == [] then Some(src[cursor..])
    else
      var s := edits[0].span;
      if cursor <= s.start <= s.end <= |src|
      then Prefixed(src[cursor..s.start] + edits[0].replacement, Spliced(edits[1..], s.end, src))
      else None
  }

  function SplicedEdits(edits: seq<Edit>, src: Text): Option<Text>
  {
    Spliced(Sort(edits, EditSpan), 0, src)
  }

  class CPlusMappedAstEmitter {
    constructor () { }

    method EmitNode(n: Node, src: Text, c: Changes, output: MappedTextBuilder) returns (ok: bool)
      modifies output
      ensures ok <==> Emitted(n, src, c).Some?
      ensures ok ==> output.cells == old(output.cells) + Emitted(n, src, c).value
      decreases n, 1
    {
      ghost var was := output.cells;
      output.AppendAll(At(c.before, n));
      if n in c.replacements {
        output.AppendAll(c.replacements[n]);
        ok := true;
      } else {
        ok := EmitKids(n, src, c, output);
      }
      if ok { output.AppendAll(At(c.after, n)); }
      ghost var inner :=
        if n in c.replacements then Some(c.replacements[n]) else EmittedFrom(n, Kids(n), n.span.start, src, c);
      if ok { Grouped(was, At(c.before, n), inner.value, At(c.after, n)); }
    }

    method EmitKids(n: Node, src: Text, c: Changes, output: MappedTextBuilder) returns (ok: bool)
      modifies output
      ensures ok <==> EmittedFrom(n, Kids(n), n.span.start, src, c).Some?
      ensures ok ==> output.cells == old(output.cells) + EmittedFrom(n, Kids(n), n.span.start, src, c).value
      decreases n, 0
    {
      var kids := Kids(n);
      var cursor := n.span.start;
      ghost var start, done: Text := output.cells, [];
      ghost var all := EmittedFrom(n, kids, n.span.start, src, c);
      PrefixedEmpty(all);
      for i := 0 to |kids|
        invariant output.cells == start + done
        invariant Prefixed(done, EmittedFrom(n, kids[i..], cursor, src, c)) == all
      {
        var child := kids[i];
        EmittedFromNext(n, kids, i, cursor, src, c);
        if child.span.start < cursor || child.span.end > n.span.end { return false; }
        ok := output.Append(src, cursor, child.span.start);
        if !ok { return false; }
        ok := EmitNode(child, src, c, output);
        if !ok { return false; }
        ghost var gap, inner := src[cursor..child.span.start], Emitted(child, src, c).value;
        PrefixedTwice(done, gap + inner, EmittedFrom(n, kids[i + 1..], child.span.end, src, c));
        Grouped(start, done, gap, inner);
        done := done + (gap + inner);
        cursor := child.span.end;
      }
      assert kids[|kids|..] == [];
      ok := output.Append(src, cursor, n.span.end);
      if ok { Assoc(start, done, src[cursor..n.span.end]); }
    }

    /** Emits a tree with replacements and insertions; an invalid tree or change is refused. */
    method Emit(root: Node, src: Text, c: Changes) returns (r: Option<Text>)
      ensures r == EmittedTree(root, src, c)
    {
      if !(InBounds(c.replacements, |src|) && InBounds(c.after, |src|) && StartsInBounds(c.before, |src|)) {
        return None;
      }
      var output := new MappedTextBuilder();
      var ok := EmitNode(root, src, c, output);
      if !ok { return None; }
      assert output.cells == Emitted(root, src, c).value;
      r := Some(output.cells);
    }

    /** Splices edits into the whole text; overlapping edits are refused. */
    method EmitEdits(src: Text, edits: seq<Edit>) returns (r: Option<Text>)
      ensures r == SplicedEdits(edits, src)
    {
      var ordered := Sort(edits, EditSpan);
      var output := new MappedTextBuilder();
      var cursor := 0;
      PrefixedEmpty(Spliced(ordered, 0, src));
      for i := 0 to |ordered|
        invariant 0 <= cursor <= |src|
        invariant Prefixed(output.cells, Spliced(ordered[i..], cursor, src)) == Spliced(ordered, 0, src)
      {
        var span := ordered[i].span;
        if !(cursor <= span.start <= |src|) { return None; }
        if !(span.start <= span.end <= |src|) { return None; }
        ghost var before, rest := output.cells, Spliced(ordered[i + 1..], span.end, src);
        var _ := output.Append(src, cursor, span.start);
        output.AppendAll(ordered[i].replacement);
        assert ordered[i..][1..] == ordered[i + 1..];
        PrefixedTwice(before, src[cursor..span.start] + ordered[i].replacement, rest);
        Assoc(before, src[cursor..span.start], ordered[i].replacement);
        cursor := span.end;
      }
      assert ordered[|ordered|..] == [] && src[cursor..|src|] == src[cursor..];
      var _ := output.Append(src, cursor, |src|);
      r := Some(output.cells);
    }
  }
}
