/** What the emitted C holds: every terminal once, in order, and between them only generated blanks. */
module CEmission {
  import opened Wrappers
  import opened MappedText
  import opened MappedAstEmitter
  import opened CEmitter

  // The tokens are the terminals of the tree.

  /** A terminal below a node, on a path of covering children. */
  predicate IsTerminal(n: Node, m: Node)
    decreases n
  {
    if Verbatim(n) then m == n
    else if Kids(n) == [] then m == n && n.span.start < n.span.end
    else exists k | k in n.children :: k.span.start < k.span.end && IsTerminal(k, m)
  }

  ghost predicate HasNode(tokens: seq<Token>, m: Node) { exists t | t in tokens :: t.node == m }

  lemma {:induction false} TokensAreTerminals(n: Node, ancestors: seq<string>, m: Node)
    ensures HasNode(Tokens(n, ancestors), m) <==> IsTerminal(n, m)
    decreases n, 1, 0
  {
    if Verbatim(n) || Kids(n) == [] {
      if IsTerminal(n, m) { assert Token(n, ancestors) in Tokens(n, ancestors); }
    } else {
      TokensOfAreTerminals(n, Kids(n), ancestors + [n.kind], m);
    }
  }

  lemma {:induction false} TokensOfAreTerminals(n: Node, kids: seq<Node>, ancestors: seq<string>, m: Node)
    requires forall k | k in kids :: k in n.children
    ensures HasNode(TokensOf(n, kids, ancestors), m) <==> exists k | k in kids :: k in n.children && IsTerminal(k, m)
    decreases n, 0, |kids|
  {
    if kids != [] {
      assert kids[0] in n.children && exists i | 0 <= i < |n.children| :: n.children[i] == kids[0];
      TokensAreTerminals(kids[0], ancestors, m);
      TokensOfAreTerminals(n, kids[1..], ancestors, m);
      var first, rest := Tokens(kids[0], ancestors), TokensOf(n, kids[1..], ancestors);
      assert HasNode(first + rest, m) <==> HasNode(first, m) || HasNode(rest, m) by {
        if HasNode(first, m) { var t :| t in first && t.node == m; assert t in first + rest; }
        if HasNode(rest, m) { var t :| t in rest && t.node == m; assert t in first + rest; }
      }
      assert forall k | k in kids :: k == kids[0] || k in kids[1..];
    }
  }

  /** Tokens that follow one another between two offsets. */
  ghost predicate InOrder(tokens: seq<Token>, a: int, b: int)
  {
    && (forall t | t in tokens :: a <= t.node.span.start <= t.node.span.end <= b)
    && (forall i, j | 0 <= i < j < |tokens| :: tokens[i].node.span.end <= tokens[j].node.span.start)
  }

  /** Children that cover text follow one another inside their parents. */
  predicate Nests(n: Node)
    decreases n, 1, 0
  {
    n.span.start <= n.span.end && NestsFrom(n, Kids(n), n.span.start)
  }

  predicate NestsFrom(n: Node, kids: seq<Node>, cursor: int)
    requires forall k | k in kids :: k in n.children
    decreases n, 0, |kids|
  {
    if kids == [] then cursor <= n.span.end
    else
      assert kids[0] in n.children && exists i | 0 <= i < |n.children| :: n.children[i] == kids[0];
      cursor <= kids[0].span.start && kids[0].span.end <= n.span.end && Nests(kids[0])
        && NestsFrom(n, kids[1..], kids[0].span.end)
  }

  lemma InOrderAppend(x: seq<Token>, y: seq<Token>, a: int, m: int, c: int, b: int)
    requires InOrder(x, a, m) && InOrder(y, m, b) && c <= a <= m <= b
    ensures InOrder(x + y, c, b)
  {
    forall i, j | 0 <= i < j < |x + y| ensures (x + y)[i].node.span.end <= (x + y)[j].node.span.start {
      if i < |x| <= j { assert x[i] in x && y[j - |x|] in y; }
    }
  }

  lemma {:induction false} TokensInOrder(n: Node, ancestors: seq<string>)
    requires Nests(n)
    ensures InOrder(Tokens(n, ancestors), n.span.start, n.span.end)
    decreases n, 1, 0
  {
    if !Verbatim(n) && Kids(n) != [] { TokensOfInOrder(n, Kids(n), ancestors + [n.kind], n.span.start); }
  }

  lemma {:induction false} TokensOfInOrder(n: Node, kids: seq<Node>, ancestors: seq<string>, cursor: int)
    requires (forall k | k in kids :: k in n.children) && NestsFrom(n, kids, cursor)
    ensures InOrder(TokensOf(n, kids, ancestors), cursor, n.span.end) && cursor <= n.span.end
    decreases n, 0, |kids|
  {
    if kids != [] {
      assert kids[0] in n.children && exists i | 0 <= i < |n.children| :: n.children[i] == kids[0];
      var k := kids[0].span;
      TokensInOrder(kids[0], ancestors);
      TokensOfInOrder(n, kids[1..], ancestors, k.end);
      InOrderAppend(Tokens(kids[0], ancestors), TokensOf(n, kids[1..], ancestors), k.start, k.end, cursor, n.span.end);
    }
  }

  // The layout adds blanks only.

  predicate Blank(t: Text)
  {
    forall c | c in t :: c.ch == ' ' || c.ch == '\n'
  }

  /** The slices in order, with a gap before, between and behind them. */
  function Woven(gaps: seq<Text>, slices: seq<Text>): Text
    requires |gaps| == |slices| + 1
  {
    var n := |slices|;
    if n == 0 then gaps[0] else Woven(gaps[..n], slices[..n - 1]) + slices[n - 1] + gaps[n]
  }

  ghost predicate AllBlank(gaps: seq<Text>)
  {
    forall g | g in gaps :: Blank(g)
  }

  function Slices(tokens: seq<Token>, src: Text): (r: seq<Text>)
    requires AllInSource(tokens, src)
    ensures |r| == |tokens|
  {
    seq(|tokens|, i requires 0 <= i < |tokens| => (assert tokens[i] in tokens; Slice(tokens[i].node, src)))
  }

  lemma BlankAppend(a: Text, b: Text)
    requires Blank(a) && Blank(b)
    ensures Blank(a + b)
  {
  }

  lemma IndentationIsBlank(lineStart: bool, braceDepth: nat, src: Text, offset: nat, origin: Option<Origin>)
    requires offset <= |src|
    ensures Blank(Indentation(lineStart, braceDepth, src, offset, origin))
  {
  }

  lemma GapsAreBlank(l: Layout, t: Token, src: Text, separate: Separator)
    requires InSource(t.node, src)
    ensures Blank(Before(l, t, src, separate)) && Blank(After(l, t, src))
  {
    var origin := OriginAt(src, t.node.span.start);
    var (lead, lineStart) := AfterBrace(l, Spelling(t, src), origin);
    IndentationIsBlank(lineStart, l.braceDepth, src, t.node.span.start, origin);
    IndentationIsBlank(true, if l.braceDepth > 0 then l.braceDepth - 1 else 0, src, t.node.span.start, origin);
  }

  /** The last gap can grow. */
  lemma WovenMore(gaps: seq<Text>, slices: seq<Text>, more: Text)
    requires |gaps| == |slices| + 1 && AllBlank(gaps) && Blank(more)
    ensures var n := |slices|; var grown := gaps[..n] + [gaps[n] + more];
            AllBlank(grown) && Woven(grown, slices) == Woven(gaps, slices) + more
  {
    var n := |slices|;
    var grown := gaps[..n] + [gaps[n] + more];
    assert grown[..n] == gaps[..n];
    BlankAppend(gaps[n], more);
    if n > 0 { Join(Woven(gaps[..n], slices[..n - 1]) + slices[n - 1], gaps[n], more); }
  }

  lemma {:induction false} LayoutIsWoven(tokens: seq<Token>, src: Text, separate: Separator) returns (gaps: seq<Text>)
    requires AllInSource(tokens, src)
    ensures |gaps| == |tokens| + 1 && AllBlank(gaps)
    ensures LaidOut(tokens, src, separate).output == Woven(gaps, Slices(tokens, src))
    decreases |tokens|
  {
    if tokens == [] {
      gaps := [[]];
    } else {
      var n := |tokens| - 1;
      var before, t := tokens[..n], tokens[n];
      var l := LaidOut(before, src, separate);
      var earlier := LayoutIsWoven(before, src, separate);
      GapsAreBlank(l, t, src, separate);
      WovenMore(earlier, Slices(before, src), Before(l, t, src, separate));
      var grown := earlier[..n] + [earlier[n] + Before(l, t, src, separate)];
      gaps := grown + [After(l, t, src)];
      assert gaps[..n + 1] == grown;
      assert Slices(tokens, src)[..n] == Slices(before, src);
    }
  }

  lemma EmissionIsWoven(root: Node, src: Text, separate: Separator) returns (gaps: seq<Text>)
    requires AllInSource(Tokens(root, []), src)
    ensures |gaps| == |Tokens(root, [])| + 1 && AllBlank(gaps)
    ensures EmittedC(root, src, separate) == Woven(gaps, Slices(Tokens(root, []), src))
  {
    var tokens := Tokens(root, []);
    var earlier := LayoutIsWoven(tokens, src, separate);
    var end := LastNewline(LaidOut(tokens, src, separate), src);
    WovenMore(earlier, Slices(tokens, src), end);
    gaps := earlier[..|tokens|] + [earlier[|tokens|] + end];
  }

  /**
     On a tree with properly nested spans the emitted C holds the source text of every terminal, with its origins,
     exactly once and in source order, and between them only generated spaces and line ends.
   */
  lemma EmissionIsTerminals(root: Node, src: Text, separate: Separator) returns (gaps: seq<Text>)
    requires Nests(root) && 0 <= root.span.start && root.span.end <= |src|
    ensures InOrder(Tokens(root, []), root.span.start, root.span.end) && AllInSource(Tokens(root, []), src)
    ensures forall m :: HasNode(Tokens(root, []), m) <==> IsTerminal(root, m)
    ensures |gaps| == |Tokens(root, [])| + 1 && AllBlank(gaps)
    ensures EmittedC(root, src, separate) == Woven(gaps, Slices(Tokens(root, []), src))
  {
    TokensInOrder(root, []);
    forall m { TokensAreTerminals(root, [], m); }
    gaps := EmissionIsWoven(root, src, separate);
  }

  // Lines of preprocessor regions and line comments.

  predicate AtLineStart(t: Text) { t == [] || EndsWithNewline(t) }

  lemma EndsAppend(a: Text, b: Text)
    ensures b != [] ==> (EndsWithNewline(a + b) <==> EndsWithNewline(b))
    ensures b == [] ==> a + b == a
  {
    if b != [] { assert (a + b)[|a + b| - 1] == b[|b| - 1]; }
  }

  lemma StepKnowsLineStart(l: Layout, t: Token, src: Text, separate: Separator)
    requires InSource(t.node, src) && (l.lineStart ==> AtLineStart(l.output))
    ensures Placed(l, t, src, separate).lineStart ==> AtLineStart(Placed(l, t, src, separate).output)
    ensures t.Preprocessor() ==> AtLineStart(l.output + Before(l, t, src, separate))
    ensures t.Preprocessor() ==> EndsWithNewline(Slice(t.node, src)) || After(l, t, src) != []
  {
    var lead, slice, after := Before(l, t, src, separate), Slice(t.node, src), After(l, t, src);
    EndsAppend(l.output, lead);
    EndsAppend(l.output + lead, slice);
    EndsAppend(l.output + lead + slice, after);
  }

  /** The layout knows when it stands at the start of a line. */
  lemma {:induction false} LineStartIsKnown(tokens: seq<Token>, src: Text, separate: Separator)
    requires AllInSource(tokens, src)
    ensures LaidOut(tokens, src, separate).lineStart ==> AtLineStart(LaidOut(tokens, src, separate).output)
    decreases |tokens|
  {
    if tokens != [] {
      LineStartIsKnown(tokens[..|tokens| - 1], src, separate);
      StepKnowsLineStart(LaidOut(tokens[..|tokens| - 1], src, separate), tokens[|tokens| - 1], src, separate);
    }
  }

  /** Where the i-th token begins and ends in the output. */
  function StartOf(tokens: seq<Token>, i: nat, src: Text, separate: Separator): nat
    requires AllInSource(tokens, src) && i < |tokens|
  {
    var l := LaidOut(tokens[..i], src, separate);
    assert tokens[i] in tokens;
    |l.output| + |Before(l, tokens[i], src, separate)|
  }

  function EndOf(tokens: seq<Token>, i: nat, src: Text, separate: Separator): nat
    requires AllInSource(tokens, src) && i < |tokens|
  {
    assert tokens[i] in tokens;
    StartOf(tokens, i, src, separate) + |Slice(tokens[i].node, src)|
  }

  /** What is laid out stays as it is. */
  lemma {:induction false} OutputGrows(tokens: seq<Token>, k: nat, src: Text, separate: Separator)
    requires AllInSource(tokens, src) && k <= |tokens|
    ensures LaidOut(tokens[..k], src, separate).output <= LaidOut(tokens, src, separate).output
    decreases |tokens|
  {
    if k == |tokens| {
      assert tokens[..k] == tokens;
    } else {
      var before, t := tokens[..|tokens| - 1], tokens[|tokens| - 1];
      assert before[..k] == tokens[..k];
      OutputGrows(before, k, src, separate);
      var l := LaidOut(before, src, separate);
      PrefixOfSum(l.output, Before(l, t, src, separate), Slice(t.node, src), After(l, t, src));
    }
  }

  lemma PrefixOfSum(a: Text, b: Text, c: Text, d: Text)
    ensures a <= a + b + c + d
  {
  }

  /** The text around a token in what is laid out up to it. */
  lemma TokenInLayout(tokens: seq<Token>, i: nat, src: Text, separate: Separator)
    requires AllInSource(tokens, src) && i < |tokens|
    ensures var l := LaidOut(tokens[..i], src, separate);
            var a, b := StartOf(tokens, i, src, separate), EndOf(tokens, i, src, separate);
            var text := LaidOut(tokens[..i + 1], src, separate).output;
            && a <= b <= |text| && text[..a] == l.output + Before(l, tokens[i], src, separate)
            && text[a..b] == Slice(tokens[i].node, src) && text[b..] == After(l, tokens[i], src)
  {
    var l, t := LaidOut(tokens[..i], src, separate), tokens[i];
    assert tokens[..i + 1][..i] == tokens[..i] && tokens[..i + 1][i] == t;
    ThreeParts(l.output + Before(l, t, src, separate), Slice(t.node, src), After(l, t, src));
  }

  lemma ThreeParts(x: Text, y: Text, z: Text)
    ensures (x + y + z)[..|x|] == x && (x + y + z)[|x|..|x| + |y|] == y && (x + y + z)[|x| + |y|..] == z
  {
  }

  lemma InPrefix(text: Text, whole: Text, a: nat, b: nat)
    requires text <= whole && a <= b <= |text|
    ensures whole[..a] == text[..a] && whole[a..b] == text[a..b] && text[b..] <= whole[b..]
  {
  }

  /**
     In the whole emitted text, each token stands at a place of its own. Before a preprocessor region
     the text is empty or ends a line, and a line end closes the region or follows it; a line end also
     follows each line comment.
   */
  lemma LinesAreKept(root: Node, src: Text, separate: Separator, i: nat)
    requires AllInSource(Tokens(root, []), src) && i < |Tokens(root, [])|
    ensures var tokens, text := Tokens(root, []), EmittedC(root, src, separate);
            var a, b := StartOf(tokens, i, src, separate), EndOf(tokens, i, src, separate);
            && a <= b <= |text| && text[a..b] == Slice(tokens[i].node, src)
            && (i + 1 < |tokens| ==> b <= StartOf(tokens, i + 1, src, separate))
            && (tokens[i].Preprocessor() ==>
                  AtLineStart(text[..a]) && (EndsWithNewline(text[a..b]) || (b < |text| && text[b].ch == '\n')))
            && (!tokens[i].Preprocessor() && StartsWith(Chars(text[a..b]), "//") ==> b < |text| && text[b].ch == '\n')
  {
    var tokens, text := Tokens(root, []), EmittedC(root, src, separate);
    var a, b := StartOf(tokens, i, src, separate), EndOf(tokens, i, src, separate);
    var l, t, part := LaidOut(tokens[..i], src, separate), tokens[i], LaidOut(tokens[..i + 1], src, separate).output;
    TokenInLayout(tokens, i, src, separate);
    OutputGrows(tokens, i + 1, src, separate);
    assert part <= text;
    InPrefix(part, text, a, b);
    LineStartIsKnown(tokens[..i], src, separate);
    StepKnowsLineStart(l, t, src, separate);
    assert After(l, t, src) != [] ==> After(l, t, src)[0].ch == '\n' && text[b] == After(l, t, src)[0];
  }
}
