/** The pass over a whole file: which calls are replaced, and what the file becomes. */
module MethodCallPass {
  import opened Wrappers
  import opened MappedText
  import opened MappedAstEmitter
  import opened MappedSplice
  import opened MethodCalls
  import opened MethodCallTrees

  datatype Diagnostic = Diagnostic(code: string, span: Span)
  datatype Lowering = Lowering(source: Text, diagnostics: seq<Diagnostic>)

  /** A node and everything below it, parents first. */
  function Descendants(n: Node): seq<Node>
    decreases n, 1, 0
  {
    [n] + DescendantsOfAll(n, n.children)
  }

  function DescendantsOfAll(n: Node, kids: seq<Node>): seq<Node>
    requires forall k | k in kids :: k in n.children
    decreases n, 0, |kids|
  {
    if kids == [] then []
    else
      assert kids[0] in n.children && exists i | 0 <= i < |n.children| :: n.children[i] == kids[0];
      Descendants(kids[0]) + DescendantsOfAll(n, kids[1..])
  }

  /** The last call expression with the given span. */
  function NodeFor(nodes: seq<Node>, span: Span): (r: Option<Node>)
    ensures r.Some? ==> r.value in nodes && r.value.kind == "call_expression" && r.value.span == span
  {
    if nodes == [] then None
    else
      var later := NodeFor(nodes[1..], span);
      if later.Some? then later
      else if nodes[0].kind == "call_expression" && nodes[0].span == span then Some(nodes[0])
      else None
  }

  /** The position of the first call that has no node. */
  function FirstMissing(nodes: seq<Node>, calls: seq<Call>): (r: nat)
    ensures r <= |calls| && (r < |calls| ==> NodeFor(nodes, calls[r].span).None?)
    ensures forall i | 0 <= i < r :: NodeFor(nodes, calls[i].span).Some?
  {
    if calls == [] || NodeFor(nodes, calls[0].span).None? then 0 else 1 + FirstMissing(nodes, calls[1..])
  }

  function Whole(src: Text): Span { Span(0, |src|) }

  function MalformedAmong(tops: seq<Call>, calls: seq<Call>, src: Text): seq<Diagnostic>
    requires AllShaped(calls, src) && forall c | c in tops :: c in calls
  {
    if tops == [] then []
    else
      (if Lowered(tops[0], calls, src).None? then [Diagnostic("CPLUS_METHOD_CALL_MALFORMED", tops[0].span)] else [])
      + MalformedAmong(tops[1..], calls, src)
  }

  /** The replacements of the outermost calls' nodes. */
  function Replacements(tops: seq<Call>, nodes: seq<Node>, calls: seq<Call>, src: Text): map<Node, Text>
    requires AllShaped(calls, src) && forall c | c in tops :: c in calls
  {
    if tops == [] then map[]
    else
      var last := tops[|tops| - 1];
      var before := Replacements(tops[..|tops| - 1], nodes, calls, src);
      if NodeFor(nodes, last.span).Some? && Lowered(last, calls, src).Some?
      then before[NodeFor(nodes, last.span).value := Lowered(last, calls, src).value]
      else before
  }

  lemma MalformedNext(tops: seq<Call>, i: nat, calls: seq<Call>, src: Text)
    requires AllShaped(calls, src) && (forall c | c in tops :: c in calls) && i < |tops|
    ensures MalformedAmong(tops[i..], calls, src)
         == (if Lowered(tops[i], calls, src).Some? then []
             else [Diagnostic("CPLUS_METHOD_CALL_MALFORMED", tops[i].span)])
            + MalformedAmong(tops[i + 1..], calls, src)
  {
    assert tops[i..][0] == tops[i] && tops[i..][1..] == tops[i + 1..];
  }

  lemma AssocDiagnostics(a: seq<Diagnostic>, b: seq<Diagnostic>, c: seq<Diagnostic>)
    ensures a + b + c == a + (b + c)
  {
  }

  lemma ReplacementsNext(tops: seq<Call>, i: nat, nodes: seq<Node>, calls: seq<Call>, src: Text)
    requires AllShaped(calls, src) && (forall c | c in tops :: c in calls)
    requires i < |tops| && NodeFor(nodes, tops[i].span).Some?
    ensures Replacements(tops[..i + 1], nodes, calls, src)
         == (if Lowered(tops[i], calls, src).Some?
             then Replacements(tops[..i], nodes, calls, src)[
                    NodeFor(nodes, tops[i].span).value := Lowered(tops[i], calls, src).value]
             else Replacements(tops[..i], nodes, calls, src))
  {
    assert tops[..i + 1][..i] == tops[..i];
  }

  lemma RangeNext(nested: seq<Call>, i: nat, cursor: int, range: Span, calls: seq<Call>, src: Text, done: Text)
    requires AllShaped(calls, src) && 0 <= range.start <= cursor <= range.end <= |src| && i < |nested|
    requires forall c | c in nested :: c in calls && Contains(range, c.span)
    requires cursor <= nested[i].span.start
    ensures 0 <= nested[i].span.start <= nested[i].span.end <= range.end
    ensures Prefixed(done, RangeFrom(nested[i..], cursor, range, calls, src))
         == (if Lowered(nested[i], calls, src).None? then None
             else Prefixed(done + (src[cursor..nested[i].span.start] + Lowered(nested[i], calls, src).value),
                           RangeFrom(nested[i + 1..], nested[i].span.end, range, calls, src)))
  {
    assert nested[i..][0] == nested[i] && nested[i..][1..] == nested[i + 1..] && nested[i] in nested;
    if Lowered(nested[i], calls, src).Some? {
      PrefixedTwice(done, src[cursor..nested[i].span.start] + Lowered(nested[i], calls, src).value,
                    RangeFrom(nested[i + 1..], nested[i].span.end, range, calls, src));
    }
  }

  /** What becomes of a file. */
  function LoweringOf(root: Node, src: Text, calls: seq<Call>): Lowering
    requires AllShaped(calls, src)
  {
    var nodes := Descendants(root);
    var missing := FirstMissing(nodes, calls);
    var tops := Outermost(calls, 0, Whole(src));
    if calls == [] then Lowering(src, [])
    else if missing < |calls| then Lowering(src, [Diagnostic("CPLUS_METHOD_CALL_NODE_MISSING", calls[missing].span)])
    else if MalformedAmong(tops, calls, src) != [] then Lowering(src, MalformedAmong(tops, calls, src))
    else
      match EmittedTree(root, src, Changes(Replacements(tops, nodes, calls, src), map[], map[]))
      case None => Lowering(src, [Diagnostic("CPLUS_METHOD_CALL_EMISSION", calls[0].span)])
      case Some(text) => Lowering(text, [])
  }

  class CPlusMethodCallLoweringPass {
    constructor () { }

    method Lower(root: Node, src: Text, calls: seq<Call>) returns (r: Lowering)
      requires AllShaped(calls, src)
      ensures r == LoweringOf(root, src, calls)
    {
      if calls == [] { return Lowering(src, []); }
      var nodes := Descendants(root);
      var missing := FirstMissing(nodes, calls);
      if missing < |calls| {
        return Lowering(src, [Diagnostic("CPLUS_METHOD_CALL_NODE_MISSING", calls[missing].span)]);
      }
      var tops := Outermost(calls, 0, Whole(src));
      var replacements, diagnostics := LowerAll(tops, nodes, calls, src);
      if diagnostics != [] { return Lowering(src, diagnostics); }
      var emitter := new CPlusMappedAstEmitter();
      var text := emitter.Emit(root, src, Changes(replacements, map[], map[]));
      match text
      case Some(t) => r := Lowering(t, []);
      case None => r := Lowering(src, [Diagnostic("CPLUS_METHOD_CALL_EMISSION", calls[0].span)]);
    }

    method LowerAll(tops: seq<Call>, nodes: seq<Node>, calls: seq<Call>, src: Text)
      returns (replacements: map<Node, Text>, diagnostics: seq<Diagnostic>)
      requires AllShaped(calls, src) && forall c | c in tops :: c in calls && NodeFor(nodes, c.span).Some?
      ensures replacements == Replacements(tops, nodes, calls, src)
      ensures diagnostics == MalformedAmong(tops, calls, src)
    {
      replacements, diagnostics := map[], [];
      for i := 0 to |tops|
        invariant replacements == Replacements(tops[..i], nodes, calls, src)
        invariant diagnostics + MalformedAmong(tops[i..], calls, src) == MalformedAmong(tops, calls, src)
      {
        var top := tops[i];
        ReplacementsNext(tops, i, nodes, calls, src);
        MalformedNext(tops, i, calls, src);
        var malformed;
        replacements, malformed := LowerOne(top, NodeFor(nodes, top.span).value, replacements, calls, src);
        AssocDiagnostics(diagnostics, malformed, MalformedAmong(tops[i + 1..], calls, src));
        diagnostics := diagnostics + malformed;
      }
      assert tops[..|tops|] == tops && tops[|tops|..] == [];
    }

    /** Enters the rewritten call as the replacement of its node, or reports the call. */
    method LowerOne(c: Call, node: Node, replacements: map<Node, Text>, calls: seq<Call>, src: Text)
      returns (r: map<Node, Text>, malformed: seq<Diagnostic>)
      requires AllShaped(calls, src) && c in calls
      ensures var text := Lowered(c, calls, src);
              && r == (if text.Some? then replacements[node := text.value] else replacements)
              && malformed == if text.None? then [Diagnostic("CPLUS_METHOD_CALL_MALFORMED", c.span)] else []
    {
      r, malformed := replacements, [];
      var text := LowerCall(c, calls, src);
      if text.Some? {
        r := r[node := text.value];
      } else {
        malformed := [Diagnostic("CPLUS_METHOD_CALL_MALFORMED", c.span)];
      }
    }

    method LowerCall(c: Call, calls: seq<Call>, src: Text) returns (r: Option<Text>)
      requires AllShaped(calls, src) && c in calls
      ensures r == Lowered(c, calls, src)
      decreases c.span.end - c.span.start, 0
    {
      if !(c.span.start <= c.insertion <= c.span.end) { return None; }
      var output := new MappedTextBuilder();
      output.AppendGenerated(TypeStem(c.ownerType) + "__" + c.methodName, OriginAt(src, c.memberStart));
      output.AppendGenerated("(", OriginAt(src, c.span.start));
      assert output.cells == Head(c, src);
      var ok := AppendReceiver(output, c, calls, src);
      if !ok { return None; }
      ok := AppendRange(output, Arguments(c), calls, src);
      r := if ok then Some(output.cells) else None;
    }

    /** Appends the receiver of an instance call as the first argument; it must not be empty. */
    method AppendReceiver(output: MappedTextBuilder, c: Call, calls: seq<Call>, src: Text) returns (ok: bool)
      requires AllShaped(calls, src) && c in calls
      modifies output
      ensures var r := Trimmed(src, c.receiver);
              if !Instance(c) then ok && output.cells == old(output.cells)
              else if r.start >= r.end then !ok
              else ok == RangeText(r, calls, src).Some?
                   && (ok ==> output.cells == old(output.cells) + ReceiverOpen(c, src)
                                            + RangeText(r, calls, src).value + ReceiverClose(c, src))
      decreases c.span.end - c.span.start, -1
    {
      if !Instance(c) { return true; }
      var receiver := Trimmed(src, c.receiver);
      if receiver.start >= receiver.end { return false; }
      output.AppendAll(ReceiverOpen(c, src));
      ok := AppendRange(output, receiver, calls, src);
      if ok { output.AppendAll(ReceiverClose(c, src)); }
    }

    /** Appends a range of the source with the calls inside it rewritten. */
    method AppendRange(output: MappedTextBuilder, range: Span, calls: seq<Call>, src: Text) returns (ok: bool)
      requires AllShaped(calls, src)
      modifies output
      ensures ok <==> RangeText(range, calls, src).Some?
      ensures ok ==> output.cells == old(output.cells) + RangeText(range, calls, src).value
      decreases range.end - range.start, 2
    {
      if !(0 <= range.start <= range.end <= |src|) { return false; }
      var nested := Nested(calls, range);
      var cursor := range.start;
      ghost var start, done: Text := output.cells, [];
      ghost var all := RangeFrom(nested, range.start, range, calls, src);
      PrefixedEmpty(all);
      for i := 0 to |nested|
        invariant range.start <= cursor <= range.end
        invariant output.cells == start + done
        invariant Prefixed(done, RangeFrom(nested[i..], cursor, range, calls, src)) == all
      {
        var call := nested[i];
        if call.span.start < cursor {
          assert nested[i..][0] == call;
          return false;
        }
        RangeNext(nested, i, cursor, range, calls, src, done);
        ok := AppendCall(output, call, cursor, calls, src);
        if !ok { return false; }
        ghost var piece := src[cursor..call.span.start] + Lowered(call, calls, src).value;
        Assoc(start, done, piece);
        done := done + piece;
        cursor := call.span.end;
      }
      assert nested[|nested|..] == [];
      Assoc(start, done, src[cursor..range.end]);
      ok := output.Append(src, cursor, range.end);
    }

    /** Appends the source up to a call and the rewritten call. */
    method AppendCall(output: MappedTextBuilder, c: Call, cursor: int, calls: seq<Call>, src: Text) returns (ok: bool)
      requires AllShaped(calls, src) && c in calls && 0 <= cursor <= c.span.start
      modifies output
      ensures ok <==> Lowered(c, calls, src).Some?
      ensures ok ==> output.cells == old(output.cells) + (src[cursor..c.span.start] + Lowered(c, calls, src).value)
      decreases c.span.end - c.span.start, 1
    {
      var _ := output.Append(src, cursor, c.span.start);
      var text := LowerCall(c, calls, src);
      if text.None? { return false; }
      output.AppendAll(text.value);
      Assoc(old(output.cells), src[cursor..c.span.start], text.value);
      ok := true;
    }
  }
}
