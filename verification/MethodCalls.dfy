/** Rewriting receiver calls into plain calls, by spans over the source text. */
module MethodCalls {
  import opened Wrappers
  import opened MappedText
  import opened MappedAstEmitter

  /** A resolved method call. `insertion` is the offset just inside its argument list. */
  datatype Call = Call(
    span: Span, receiver: Span, memberStart: int, insertion: int, ownerType: string, methodName: string,
    isStatic: bool, explicitReceiver: bool, pointer: bool, hasArguments: bool)

  predicate Contains(a: Span, b: Span) { a.start <= b.start && b.end <= a.end }

  /** The receiver and the argument list are proper parts of the call. */
  predicate Shaped(c: Call, src: Text)
  {
    && 0 <= c.span.start < c.span.end <= |src|
    && c.span.start <= c.receiver.start <= c.receiver.end < c.span.end
    && c.insertion != c.span.start
  }

  predicate AllShaped(calls: seq<Call>, src: Text)
  {
    forall c | c in calls :: Shaped(c, src)
  }

  predicate IsSpace(c: char)
  {
    || '\t' <= c <= '\r' || '\U{1C}' <= c <= ' ' || c == '\U{A0}' || c == '\U{1680}' || '\U{2000}' <= c <= '\U{200A}'
    || c == '\U{2028}' || c == '\U{2029}' || c == '\U{202F}' || c == '\U{205F}' || c == '\U{3000}'
  }

  function SkipSpaces(src: Text, from: int, end: int): (r: int)
    requires 0 <= from <= end <= |src|
    ensures from <= r <= end && (r < end ==> !IsSpace(src[r].ch)) && (forall k | from <= k < r :: IsSpace(src[k].ch))
    decreases end - from
  {
    if from < end && IsSpace(src[from].ch) then SkipSpaces(src, from + 1, end) else from
  }

  function DropSpaces(src: Text, from: int, end: int): (r: int)
    requires 0 <= from <= end <= |src|
    ensures from <= r <= end && (from < r ==> !IsSpace(src[r - 1].ch))
    ensures forall k | r <= k < end :: IsSpace(src[k].ch)
    decreases end - from
  {
    if from < end && IsSpace(src[end - 1].ch) then DropSpaces(src, from, end - 1) else end
  }

  /** The receiver without surrounding white space; empty if there is nothing else. */
  function Trimmed(src: Text, r: Span): (t: Span)
    requires 0 <= r.start <= r.end <= |src|
    ensures r.start <= t.start && t.end <= r.end
  {
    var start := SkipSpaces(src, r.start, r.end);
    if start == r.end then Span(r.start, r.start) else Span(start, DropSpaces(src, start, r.end))
  }

  predicate IsLetter(c: char) { 'a' <= c <= 'z' || 'A' <= c <= 'Z' || c == '_' }

  predicate IsIdentifier(s: string)
  {
    s != "" && IsLetter(s[0]) && forall i | 0 <= i < |s| :: IsLetter(s[i]) || '0' <= s[i] <= '9'
  }

  function TypeStem(name: string): string
  {
    if |name| >= 2 && name[|name| - 2..] == "_t" then name[..|name| - 2] else name
  }

  predicate Instance(c: Call) { !c.isStatic && !c.explicitReceiver }

  /** The new name and the opening parenthesis. */
  function Head(c: Call, src: Text): Text
  {
    Generated(TypeStem(c.ownerType) + "__" + c.methodName, OriginAt(src, c.memberStart))
      + Generated("(", OriginAt(src, c.span.start))
  }

  /** What comes before and after the receiver's own text. */
  function ReceiverOpen(c: Call, src: Text): Text
    requires Shaped(c, src)
  {
    var r := Trimmed(src, c.receiver);
    if c.pointer || r.start >= r.end then []
    else Generated(if IsIdentifier(Chars(src[r.start..r.end])) then "&" else "&(", OriginAt(src, r.start))
  }

  function ReceiverClose(c: Call, src: Text): Text
    requires Shaped(c, src)
  {
    var r := Trimmed(src, c.receiver);
    (if c.pointer || r.start >= r.end || IsIdentifier(Chars(src[r.start..r.end])) then []
     else Generated(")", OriginAt(src, r.end - 1)))
    + if c.hasArguments then Generated(", ", OriginAt(src, c.span.start)) else []
  }

  /** Around the text of the receiver and of the arguments, the rewritten call; nothing if it is malformed. */
  function Wrapped(c: Call, src: Text, receiver: Option<Text>, arguments: Option<Text>): Option<Text>
    requires Shaped(c, src)
  {
    var r := Trimmed(src, c.receiver);
    if !(c.span.start <= c.insertion <= c.span.end) || arguments.None? then None
    else if !Instance(c) then Some(Head(c, src) + arguments.value)
    else if r.start >= r.end || receiver.None? then None
    else Some(Head(c, src) + ReceiverOpen(c, src) + receiver.value + ReceiverClose(c, src) + arguments.value)
  }

  function StartSpan(c: Call): Span { Span(c.span.start, 0) }

  /** Another call of the range contains call `i`. */
  predicate Covered(calls: seq<Call>, i: nat, range: Span)
    requires i < |calls|
  {
    exists j | 0 <= j < |calls| :: j != i && Contains(range, calls[j].span) && Contains(calls[j].span, calls[i].span)
  }

  /** The calls of a range that no other call of the range contains, from position `i` on. */
  function Outermost(calls: seq<Call>, i: nat, range: Span): (r: seq<Call>)
    requires i <= |calls|
    ensures forall c | c in r :: c in calls && Contains(range, c.span)
    decreases |calls| - i
  {
    if i == |calls| then []
    else (if Contains(range, calls[i].span) && !Covered(calls, i, range) then [calls[i]] else [])
           + Outermost(calls, i + 1, range)
  }

  function Nested(calls: seq<Call>, range: Span): (r: seq<Call>)
    ensures forall c | c in r :: c in calls && Contains(range, c.span)
  {
    var r := Sort(Outermost(calls, 0, range), StartSpan);
    assert forall c | c in r :: c in multiset(r);
    r
  }

  /** A call rewritten. The recursion ends because receiver and arguments are shorter than the call. */
  function Lowered(c: Call, calls: seq<Call>, src: Text): Option<Text>
    requires AllShaped(calls, src) && c in calls
    decreases c.span.end - c.span.start, 0, 0
  {
    var r := Trimmed(src, c.receiver);
    if !(c.span.start <= c.insertion <= c.span.end) then None
    else
      var receiver := if Instance(c) && r.start < r.end then RangeText(r, calls, src) else None;
      Wrapped(c, src, receiver, RangeText(Span(c.insertion, c.span.end), calls, src))
  }

  /** A range of the source with the calls inside it rewritten. */
  function RangeText(range: Span, calls: seq<Call>, src: Text): Option<Text>
    requires AllShaped(calls, src)
    decreases range.end - range.start, 2, 0
  {
    if !(0 <= range.start <= range.end <= |src|) then None
    else RangeFrom(Nested(calls, range), range.start, range, calls, src)
  }

  function RangeFrom(nested: seq<Call>, cursor: int, range: Span, calls: seq<Call>, src: Text): Option<Text>
    requires AllShaped(calls, src) && 0 <= range.start <= cursor <= range.end <= |src|
    requires forall c | c in nested :: c in calls && Contains(range, c.span)
    decreases range.end - range.start, 1, |nested|
  {
    if nested == [] then Some(src[cursor..range.end])
    else
      var c := nested[0];
      assert c in nested && Shaped(c, src) && Contains(range, c.span);
      if c.span.start < cursor then None
      else
        var inner := Lowered(c, calls, src);
        if inner.None? then None
        else Prefixed(src[cursor..c.span.start] + inner.value, RangeFrom(nested[1..], c.span.end, range, calls, src))
  }
}
