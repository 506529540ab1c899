/** Emitting C from the terminals of a syntax tree, with the layout made anew. */
module CEmitter {
  import opened Wrappers
  import opened MappedText
  import opened MappedAstEmitter

  const PREPROCESSOR: set<string> := {
    "preproc_include", "preproc_def", "preproc_function_def", "preproc_call", "preproc_if", "preproc_ifdef",
    "preproc_else", "preproc_elif", "preproc_elifdef", "preproc_elifndef", "preproc_endif", "preproc_arg",
    "preproc_params", "preproc_defined", "preproc_directive"}
  const LITERALS: set<string> := {"string_literal", "char_literal", "number_literal"}
  const ATTACHED: set<string> := {";", ",", ")", "]", ".", "->"}
  const CONTINUING: set<string> := {"else", "while"}

  datatype Token = Token(node: Node, ancestors: seq<string>)
  {
    predicate Preprocessor() { node.kind in PREPROCESSOR }
  }

  /** Emitted as they are written, whatever is below them. */
  predicate Verbatim(n: Node) { n.kind in PREPROCESSOR || n.kind in LITERALS }

  /** The terminals of a node from left to right. */
  function Tokens(n: Node, ancestors: seq<string>): seq<Token>
    decreases n, 1, 0
  {
    if Verbatim(n) then [Token(n, ancestors)]
    else if Kids(n) == [] then (if n.span.start < n.span.end then [Token(n, ancestors)] else [])
    else TokensOf(n, Kids(n), ancestors + [n.kind])
  }

  function TokensOf(n: Node, kids: seq<Node>, ancestors: seq<string>): seq<Token>
    requires forall k | k in kids :: k in n.children
    decreases n, 0, |kids|
  {
    if kids == [] then []
    else
      assert kids[0] in n.children && exists i | 0 <= i < |n.children| :: n.children[i] == kids[0];
      Tokens(kids[0], ancestors) + TokensOf(n, kids[1..], ancestors)
  }

  /** Whether two tokens need a space between them: the token two before, the one before, and the current one. */
  type Separator = (Option<Token>, Option<Token>, Token) -> bool

  datatype Layout = Layout(
    output: Text, previous: Option<Token>, previousPrevious: Option<Token>, braceDepth: nat, parenDepth: nat,
    lineStart: bool, closed: bool)

  const EMPTY_LAYOUT := Layout([], None, None, 0, 0, true, false)

  predicate InSource(n: Node, src: Text) { 0 <= n.span.start <= n.span.end <= |src| }

  function Slice(n: Node, src: Text): Text
    requires InSource(n, src)
  {
    src[n.span.start..n.span.end]
  }

  function Spelling(t: Token, src: Text): string
    requires InSource(t.node, src)
  {
    Chars(Slice(t.node, src))
  }

  predicate StartsWith(s: string, prefix: string) { prefix <= s }

  function Spaces(n: nat): (s: string)
    ensures |s| == n && forall i | 0 <= i < n :: s[i] == ' '
  {
    seq(n, _ => ' ')
  }

  function NewlineIf(lineStart: bool, origin: Option<Origin>): Text
  {
    if lineStart then [] else Generated("\n", origin)
  }

  /** The start of the line that holds an offset. */
  function LineStart(src: Text, offset: nat): (r: nat)
    requires offset <= |src|
    ensures r <= offset
  {
    if offset == 0 || src[offset - 1].ch == '\n' then offset else LineStart(src, offset - 1)
  }

  /** The width of a prefix of blanks; none if it holds anything else. */
  function IndentWidth(prefix: Text): Option<nat>
  {
    if prefix == [] then Some(0)
    else
      var rest := IndentWidth(prefix[1..]);
      if rest.None? || (prefix[0].ch != ' ' && prefix[0].ch != '\t') then None
      else Some(rest.value + if prefix[0].ch == '\t' then 4 else 1)
  }

  function Columns(src: Text, offset: nat, braceDepth: nat): nat
    requires offset <= |src|
  {
    var width := IndentWidth(src[LineStart(src, offset)..offset]);
    var own := if width.Some? then width.value else 0;
    if braceDepth * 4 > own then braceDepth * 4 else own
  }

  function Indentation(lineStart: bool, braceDepth: nat, src: Text, offset: nat, origin: Option<Origin>): Text
    requires offset <= |src|
  {
    if lineStart && braceDepth > 0 then Generated(Spaces(Columns(src, offset, braceDepth)), origin) else []
  }

  /** What a pending closing brace asks for before the next token, and whether the line is at its start then. */
  function AfterBrace(l: Layout, spelling: string, origin: Option<Origin>): (Text, bool)
  {
    if !l.closed || spelling in ATTACHED then ([], l.lineStart)
    else if spelling in CONTINUING then (Generated(" ", origin), false)
    else (NewlineIf(l.lineStart, origin), true)
  }

  /** The generated text before a token. */
  function Before(l: Layout, t: Token, src: Text, separate: Separator): Text
    requires InSource(t.node, src)
  {
    var spelling, origin, start := Spelling(t, src), OriginAt(src, t.node.span.start), t.node.span.start;
    if t.Preprocessor() then NewlineIf(l.lineStart, origin)
    else
      var (lead, lineStart) := AfterBrace(l, spelling, origin);
      if spelling == "}" then
        var depth := if l.braceDepth > 0 then l.braceDepth - 1 else 0;
        lead + NewlineIf(lineStart, origin) + Indentation(true, depth, src, start, origin)
      else
        var attached := l.closed && (spelling in ATTACHED || spelling in CONTINUING);
        lead + Indentation(lineStart, l.braceDepth, src, start, origin)
        + if !lineStart && !attached && l.previous.Some? && separate(l.previousPrevious, l.previous, t)
          then Generated(" ", origin)
          else []
  }

  /** A line ends behind an opening brace, a statement and a line comment. */
  predicate EndsLine(parenDepth: nat, spelling: string)
  {
    spelling == "{" || (spelling == ";" && parenDepth == 0) || StartsWith(spelling, "//")
  }

  predicate EndsWithNewline(t: Text) { t != [] && t[|t| - 1].ch == '\n' }

  /** The generated text after a token. */
  function After(l: Layout, t: Token, src: Text): Text
    requires InSource(t.node, src)
  {
    var spelling, origin := Spelling(t, src), OriginAt(src, t.node.span.end - 1);
    if t.Preprocessor() then (if EndsWithNewline(Slice(t.node, src)) then [] else Generated("\n", origin))
    else if spelling != "}" && EndsLine(l.parenDepth, spelling) then Generated("\n", origin)
    else []
  }

  function Placed(l: Layout, t: Token, src: Text, separate: Separator): Layout
    requires InSource(t.node, src)
  {
    var spelling := Spelling(t, src);
    var output := l.output + Before(l, t, src, separate) + Slice(t.node, src) + After(l, t, src);
    if t.Preprocessor() then
      l.(output := output, previous := Some(t), previousPrevious := None, lineStart := true, closed := false)
    else if spelling == "}" then
      l.(output := output, braceDepth := if l.braceDepth > 0 then l.braceDepth - 1 else 0, lineStart := false,
         closed := true)
    else
      Layout(output, Some(t), l.previous, if spelling == "{" then l.braceDepth + 1 else l.braceDepth,
             if spelling == "(" then l.parenDepth + 1
             else if spelling == ")" && l.parenDepth > 0 then l.parenDepth - 1
             else l.parenDepth,
             EndsLine(l.parenDepth, spelling), false)
  }

  predicate AllInSource(tokens: seq<Token>, src: Text)
  {
    forall t | t in tokens :: InSource(t.node, src)
  }

  function LaidOut(tokens: seq<Token>, src: Text, separate: Separator): Layout
    requires AllInSource(tokens, src)
  {
    if tokens == [] then EMPTY_LAYOUT
    else Placed(LaidOut(tokens[..|tokens| - 1], src, separate), tokens[|tokens| - 1], src, separate)
  }

  /** The emitted C; the last line ends. */
  function EmittedC(root: Node, src: Text, separate: Separator): Text
    requires AllInSource(Tokens(root, []), src)
  {
    var l := LaidOut(Tokens(root, []), src, separate);
    l.output + LastNewline(l, src)
  }

  function LastNewline(l: Layout, src: Text): Text
  {
    NewlineIf(l.lineStart, if l.previous.Some? then OriginAt(src, l.previous.value.node.span.end - 1) else None)
  }

  lemma Join(a: Text, b: Text, c: Text)
    ensures a + b + c == a + (b + c)
  {
  }

  lemma AfterOther(l: Layout, t: Token, src: Text)
    requires InSource(t.node, src) && !t.Preprocessor() && Spelling(t, src) != "}"
    ensures After(l, t, src)
         == if EndsLine(l.parenDepth, Spelling(t, src)) then Generated("\n", OriginAt(src, t.node.span.end - 1)) else []
  {
  }

  class CPlusAstCEmitter {
    var output: Text
    var previous: Option<Token>
    var previousPrevious: Option<Token>
    var braceDepth: nat
    var parenDepth: nat
    var lineStart: bool
    var closedBracePending: bool

    constructor ()
      ensures State() == EMPTY_LAYOUT
    {
      output, previous, previousPrevious := [], None, None;
      braceDepth, parenDepth, lineStart, closedBracePending := 0, 0, true, false;
    }

    ghost function State(): Layout
      reads this
    {
      Layout(output, previous, previousPrevious, braceDepth, parenDepth, lineStart, closedBracePending)
    }

    method Newline(origin: Option<Origin>)
      modifies this`output, this`lineStart
      ensures output == old(output) + NewlineIf(old(lineStart), origin) && lineStart
    {
      if !lineStart {
        output := output + Generated("\n", origin);
        lineStart := true;
      }
    }

    method Indent(origin: Option<Origin>, src: Text, offset: nat)
      requires offset <= |src|
      modifies this`output, this`lineStart
      ensures output == old(output) + Indentation(old(lineStart), braceDepth, src, offset, origin)
      ensures lineStart == (old(lineStart) && braceDepth == 0)
    {
      if lineStart && braceDepth > 0 {
        output := output + Generated(Spaces(Columns(src, offset, braceDepth)), origin);
        lineStart := false;
      }
    }

    /** Settles a pending closing brace; reports whether the token stays on its line. */
    method SettleBrace(spelling: string, origin: Option<Origin>) returns (attached: bool)
      modifies this`output, this`lineStart, this`closedBracePending
      ensures var (lead, start) := AfterBrace(old(State()), spelling, origin);
              output == old(output) + lead && lineStart == start && !closedBracePending
      ensures attached <==> old(closedBracePending) && (spelling in ATTACHED || spelling in CONTINUING)
    {
      attached := false;
      if closedBracePending {
        if spelling in ATTACHED || spelling in CONTINUING {
          if spelling !in ATTACHED {
            output := output + Generated(" ", origin);
            lineStart := false;
          }
          attached := true;
        } else {
          Newline(origin);
        }
        closedBracePending := false;
      }
    }

    method PlacePreprocessor(t: Token, src: Text, separate: Separator)
      requires InSource(t.node, src) && t.Preprocessor()
      modifies this
      ensures State() == Placed(old(State()), t, src, separate)
    {
      Newline(OriginAt(src, t.node.span.start));
      output := output + Slice(t.node, src);
      if !EndsWithNewline(Slice(t.node, src)) {
        output := output + Generated("\n", OriginAt(src, t.node.span.end - 1));
      }
      lineStart, previous, previousPrevious, closedBracePending := true, Some(t), None, false;
    }

    method PlaceClosingBrace(t: Token, src: Text, separate: Separator)
      requires InSource(t.node, src) && !t.Preprocessor() && Spelling(t, src) == "}"
      modifies this
      ensures State() == Placed(old(State()), t, src, separate)
    {
      OpenBrace(t, src, separate);
      output := output + Slice(t.node, src);
      lineStart, closedBracePending := false, true;
    }

    method OpenBrace(t: Token, src: Text, separate: Separator)
      requires InSource(t.node, src) && !t.Preprocessor() && Spelling(t, src) == "}"
      modifies this`output, this`lineStart, this`closedBracePending, this`braceDepth
      ensures output == old(output) + Before(old(State()), t, src, separate)
      ensures braceDepth == if old(braceDepth) > 0 then old(braceDepth) - 1 else 0
    {
      var origin := OriginAt(src, t.node.span.start);
      ghost var (lead, start) := AfterBrace(State(), "}", origin);
      var _ := SettleBrace("}", origin);
      Newline(origin);
      Join(old(output), lead, NewlineIf(start, origin));
      braceDepth := if braceDepth > 0 then braceDepth - 1 else 0;
      Join(old(output), lead + NewlineIf(start, origin), Indentation(true, braceDepth, src, t.node.span.start, origin));
      Indent(origin, src, t.node.span.start);
    }

    method PlaceOther(t: Token, src: Text, separate: Separator)
      requires InSource(t.node, src) && !t.Preprocessor() && Spelling(t, src) != "}"
      modifies this
      ensures State() == Placed(old(State()), t, src, separate)
    {
      ghost var l := State();
      OpenToken(t, src, separate);
      var spelling := Spelling(t, src);
      output := output + Slice(t.node, src);
      FinishToken(spelling, OriginAt(src, t.node.span.end - 1));
      AfterOther(l, t, src);
      previousPrevious := previous;
      previous := Some(t);
    }

    method OpenToken(t: Token, src: Text, separate: Separator)
      requires InSource(t.node, src) && !t.Preprocessor() && Spelling(t, src) != "}"
      modifies this`output, this`lineStart, this`closedBracePending
      ensures output == old(output) + Before(old(State()), t, src, separate) && !closedBracePending
    {
      var spelling, origin := Spelling(t, src), OriginAt(src, t.node.span.start);
      ghost var (lead, start) := AfterBrace(State(), spelling, origin);
      var attached := SettleBrace(spelling, origin);
      var startsNewLine := lineStart;
      Indent(origin, src, t.node.span.start);
      ghost var indent := Indentation(start, braceDepth, src, t.node.span.start, origin);
      Join(old(output), lead, indent);
      if !startsNewLine && !attached && previous.Some? && separate(previousPrevious, previous, t) {
        Join(old(output), lead + indent, Generated(" ", origin));
        output := output + Generated(" ", origin);
      }
    }

    /** Counts brackets and ends the line if the token does. */
    method FinishToken(spelling: string, origin: Option<Origin>)
      modifies this`output, this`lineStart, this`braceDepth, this`parenDepth
      ensures output == old(output) + if EndsLine(old(parenDepth), spelling) then Generated("\n", origin) else []
      ensures lineStart == EndsLine(old(parenDepth), spelling)
      ensures braceDepth == if spelling == "{" then old(braceDepth) + 1 else old(braceDepth)
      ensures parenDepth == if spelling == "(" then old(parenDepth) + 1
                            else if spelling == ")" && old(parenDepth) > 0 then old(parenDepth) - 1 else old(parenDepth)
    {
      lineStart := false;
      if spelling == "{" {
        braceDepth := braceDepth + 1;
        Newline(origin);
      } else if spelling == ";" {
        if parenDepth == 0 { Newline(origin); }
      } else if StartsWith(spelling, "//") {
        Newline(origin);
      }
      if spelling == "(" { parenDepth := parenDepth + 1; }
      if spelling == ")" && parenDepth > 0 { parenDepth := parenDepth - 1; }
    }

    method Place(t: Token, src: Text, separate: Separator)
      requires InSource(t.node, src)
      modifies this
      ensures State() == Placed(old(State()), t, src, separate)
    {
      if t.Preprocessor() {
        PlacePreprocessor(t, src, separate);
      } else if Spelling(t, src) == "}" {
        PlaceClosingBrace(t, src, separate);
      } else {
        PlaceOther(t, src, separate);
      }
    }

    method Emit(root: Node, src: Text, separate: Separator) returns (r: Text)
      requires AllInSource(Tokens(root, []), src) && State() == EMPTY_LAYOUT
      modifies this
      ensures r == EmittedC(root, src, separate)
    {
      var tokens := Tokens(root, []);
      for i := 0 to |tokens|
        invariant State() == LaidOut(tokens[..i], src, separate)
      {
        assert tokens[..i + 1][..i] == tokens[..i];
        Place(tokens[i], src, separate);
      }
      assert tokens[..|tokens|] == tokens;
      Newline(if previous.Some? then OriginAt(src, previous.value.node.span.end - 1) else None);
      r := output;
    }
  }
}
