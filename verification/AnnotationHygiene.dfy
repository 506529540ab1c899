/** Rewriting annotation words into macros, outside literals and comments. */
module AnnotationHygiene {
  import opened Wrappers
  import opened MappedText

  const MACROS: map<string, string> := map[
    "pub" := "CPLUS_PUB", "priv" := "CPLUS_PRIV", "mut" := "CPLUS_MUT", "borrowed" := "CPLUS_BORROWED",
    "owned" := "CPLUS_OWNED", "stat" := "CPLUS_STAT", "scratch" := "CPLUS_SCRATCH", "hot" := "CPLUS_HOT",
    "warm" := "CPLUS_WARM", "cold" := "CPLUS_COLD"]

  /** Which characters count as letters, and as letters or digits. */
  datatype Alphabet = Alphabet(isLetter: char -> bool, isLetterOrDigit: char -> bool)
  {
    predicate Starts(c: char) { c == '_' || isLetter(c) }
    predicate Continues(c: char) { c == '_' || isLetterOrDigit(c) }

    /** What every character table says about the characters the rewriter looks for. */
    ghost predicate Usual()
    {
      && (forall c :: isLetter(c) ==> isLetterOrDigit(c))
      && (forall c | 'A' <= c <= 'Z' :: isLetter(c))
      && (forall c | c in {'"', '\'', '/', '*', '\n', '\\'} :: !isLetterOrDigit(c))
    }
  }

  datatype Kind = Literal | LineComment | BlockComment | Word | Other

  predicate CharAt(t: Text, i: nat, c: char) { i < |t| && t[i].ch == c }

  function KindOf(t: Text, i: nat, a: Alphabet): Kind
    requires i < |t|
  {
    if t[i].ch == '"' || t[i].ch == '\'' then Literal
    else if t[i].ch == '/' && CharAt(t, i + 1, '/') then LineComment
    else if t[i].ch == '/' && CharAt(t, i + 1, '*') then BlockComment
    else if a.Starts(t[i].ch) then Word
    else Other
  }

  /** Behind the closing quote, from inside a literal; a backslash hides the next character. */
  function LiteralEnd(t: Text, i: nat, quote: char, escaped: bool): (r: nat)
    requires i <= |t|
    ensures i <= r <= |t|
    decreases |t| - i
  {
    if i == |t| then i
    else if escaped then LiteralEnd(t, i + 1, quote, false)
    else if t[i].ch == '\\' then LiteralEnd(t, i + 1, quote, true)
    else if t[i].ch == quote then i + 1
    else LiteralEnd(t, i + 1, quote, false)
  }

  /** The next line end, or the end of the text. */
  function LineEnd(t: Text, i: nat): (r: nat)
    requires i <= |t|
    ensures i <= r <= |t| && (r < |t| ==> t[r].ch == '\n') && forall k | i <= k < r :: t[k].ch != '\n'
    decreases |t| - i
  {
    if i == |t| || t[i].ch == '\n' then i else LineEnd(t, i + 1)
  }

  /** Behind the next end of a block comment, or the end of the text. */
  function CommentEnd(t: Text, i: nat): (r: nat)
    requires i <= |t|
    ensures i <= r <= |t|
    decreases |t| - i
  {
    if i == |t| then i
    else if t[i].ch == '*' && CharAt(t, i + 1, '/') then i + 2
    else CommentEnd(t, i + 1)
  }

  function WordEnd(t: Text, i: nat, a: Alphabet): (r: nat)
    requires i <= |t|
    ensures i <= r <= |t| && (r < |t| ==> !a.Continues(t[r].ch)) && forall k | i <= k < r :: a.Continues(t[k].ch)
    decreases |t| - i
  {
    if i == |t| || !a.Continues(t[i].ch) then i else WordEnd(t, i + 1, a)
  }

  /** The end of the token that starts at `i`. */
  function TokenEnd(t: Text, i: nat, a: Alphabet): (r: nat)
    requires i < |t|
    ensures i < r <= |t|
  {
    match KindOf(t, i, a)
    case Literal => LiteralEnd(t, i + 1, t[i].ch, false)
    case LineComment => LineEnd(t, i + 1)
    case BlockComment => CommentEnd(t, i + 2)
    case Word => WordEnd(t, i + 1, a)
    case Other => i + 1
  }

  /** A word of the table becomes its macro, with the origin of its first character. */
  function RewriteWord(w: Text): Text
  {
    if w != [] && Chars(w) in MACROS then Generated(MACROS[Chars(w)], w[0].origin) else w
  }

  function RewriteToken(token: Text, kind: Kind): Text
  {
    if kind == Word then RewriteWord(token) else token
  }

  /** Token by token from `i` on, only words outside literals and comments change. */
  function Rewritten(t: Text, i: nat, a: Alphabet): Text
    requires i <= |t|
    decreases |t| - i
  {
    if i == |t| then []
    else RewriteToken(t[i..TokenEnd(t, i, a)], KindOf(t, i, a)) + Rewritten(t, TokenEnd(t, i, a), a)
  }

  /** The rest of a rewrite that stands at `i`, inside a literal or not. */
  function Remaining(t: Text, i: nat, quote: Option<char>, escaped: bool, a: Alphabet): Text
    requires i <= |t|
  {
    match quote
    case None => Rewritten(t, i, a)
    case Some(q) => t[i..LiteralEnd(t, i, q, escaped)] + Rewritten(t, LiteralEnd(t, i, q, escaped), a)
  }

  lemma StepLiteral(t: Text, i: nat, q: char, escaped: bool, a: Alphabet)
    requires i < |t|
    ensures var c := t[i].ch;
            Remaining(t, i, Some(q), escaped, a) ==
              var open := if !escaped && c != '\\' && c == q then None else Some(q);
              t[i..i + 1] + Remaining(t, i + 1, open, !escaped && c == '\\', a)
  {
    var end := LiteralEnd(t, i, q, escaped);
    assert t[i..end] == t[i..i + 1] + t[i + 1..end];
  }

  lemma OpenLiteral(t: Text, i: nat, a: Alphabet)
    requires i < |t| && KindOf(t, i, a) == Literal
    ensures Rewritten(t, i, a) == t[i..i + 1] + Remaining(t, i + 1, Some(t[i].ch), false, a)
  {
    var end := TokenEnd(t, i, a);
    SplitFirst(t, i, end);
    Assoc(t[i..i + 1], t[i + 1..end], Rewritten(t, end, a));
  }

  lemma SplitFirst(t: Text, i: nat, end: nat)
    requires i < end <= |t|
    ensures t[i..end] == t[i..i + 1] + t[i + 1..end]
  {
  }

  lemma Assoc(a: Text, b: Text, c: Text)
    ensures a + (b + c) == a + b + c
  {
  }

  /** The end of the token at `i`, when it is not a literal. */
  method ScanToken(source: Text, i: nat, a: Alphabet) returns (end: nat)
    requires i < |source| && KindOf(source, i, a) != Literal
    ensures end == TokenEnd(source, i, a)
  {
    match KindOf(source, i, a)
    case LineComment => end := LineEnd(source, i);
    case BlockComment => end := CommentEnd(source, i + 2);
    case Word =>
      end := i + 1;
      while end < |source| && a.Continues(source[end].ch)
        invariant i < end <= |source|
        invariant WordEnd(source, end, a) == WordEnd(source, i + 1, a)
      {
        end := end + 1;
      }
    case Other => end := i + 1;
  }

  method RewriteCPlusAnnotationMacros(source: Text, a: Alphabet) returns (r: Text)
    ensures r == Rewritten(source, 0, a)
  {
    r := [];
    var index := 0;
    var quote: Option<char> := None;
    var escaped := false;
    while index < |source|
      invariant index <= |source|
      invariant r + Remaining(source, index, quote, escaped, a) == Rewritten(source, 0, a)
      invariant quote.None? ==> !escaped
    {
      var current := source[index];
      if quote.Some? {
        StepLiteral(source, index, quote.value, escaped, a);
        if escaped { escaped := false; }
        else if current.ch == '\\' { escaped := true; }
        else if current.ch == quote.value { quote := None; }
        Assoc(r, source[index..index + 1], Remaining(source, index + 1, quote, escaped, a));
        r := r + source[index..index + 1];
        index := index + 1;
      } else if current.ch == '"' || current.ch == '\'' {
        OpenLiteral(source, index, a);
        quote := Some(current.ch);
        Assoc(r, source[index..index + 1], Remaining(source, index + 1, quote, escaped, a));
        r := r + source[index..index + 1];
        index := index + 1;
      } else {
        var end := ScanToken(source, index, a);
        var token := RewriteToken(source[index..end], KindOf(source, index, a));
        Assoc(r, token, Rewritten(source, end, a));
        r := r + token;
        index := end;
      }
    }
  }

  // Rewriting twice.

  /** Two stretches of text read alike, and the first one ends its text only where the second does. */
  ghost predicate Alike(t: Text, i: nat, e: nat, s: Text, k: nat)
  {
    && i <= e <= |t| && k + (e - i) <= |s| && s[k..k + (e - i)] == t[i..e]
    && (e == |t| ==> k + (e - i) == |s|)
  }

  lemma AlikeNext(t: Text, i: nat, e: nat, s: Text, k: nat)
    requires Alike(t, i, e, s, k) && i < e
    ensures s[k] == t[i] && Alike(t, i + 1, e, s, k + 1)
  {
    assert s[k] == s[k..k + (e - i)][0];
    assert s[k + 1..k + (e - i)] == s[k..k + (e - i)][1..];
    assert t[i + 1..e] == t[i..e][1..];
  }

  lemma {:induction false} SameLiteral(t: Text, i: nat, s: Text, k: nat, quote: char, escaped: bool)
    requires i <= |t| && Alike(t, i, LiteralEnd(t, i, quote, escaped), s, k)
    ensures LiteralEnd(s, k, quote, escaped) == k + (LiteralEnd(t, i, quote, escaped) - i)
    decreases |t| - i
  {
    var e := LiteralEnd(t, i, quote, escaped);
    if i < |t| {
      AlikeNext(t, i, e, s, k);
      if escaped {
        SameLiteral(t, i + 1, s, k + 1, quote, false);
      } else if t[i].ch == '\\' {
        SameLiteral(t, i + 1, s, k + 1, quote, true);
      } else if t[i].ch != quote {
        SameLiteral(t, i + 1, s, k + 1, quote, false);
      }
    }
  }

  lemma {:induction false} SameComment(t: Text, i: nat, s: Text, k: nat)
    requires i <= |t| && Alike(t, i, CommentEnd(t, i), s, k)
    ensures CommentEnd(s, k) == k + (CommentEnd(t, i) - i)
    decreases |t| - i
  {
    var e := CommentEnd(t, i);
    if i < |t| {
      AlikeNext(t, i, e, s, k);
      if i + 1 < e { AlikeNext(t, i + 1, e, s, k + 1); }
      if !(t[i].ch == '*' && CharAt(t, i + 1, '/')) { SameComment(t, i + 1, s, k + 1); }
    }
  }

  lemma {:induction false} SameLine(s: Text, k: nat, e: nat)
    requires k <= e <= |s| && (forall j | k <= j < e :: s[j].ch != '\n') && (e == |s| || s[e].ch == '\n')
    ensures LineEnd(s, k) == e
    decreases e - k
  {
    if k < e { SameLine(s, k + 1, e); }
  }

  lemma {:induction false} SameWord(s: Text, k: nat, e: nat, a: Alphabet)
    requires k <= e <= |s| && (forall j | k <= j < e :: a.Continues(s[j].ch)) && (e == |s| || !a.Continues(s[e].ch))
    ensures WordEnd(s, k, a) == e
    decreases e - k
  {
    if k < e { SameWord(s, k + 1, e, a); }
  }

  /** A rewritten text starts with the same character, or with a letter where a letter was. */
  lemma StartsAlike(t: Text, i: nat, a: Alphabet)
    requires i <= |t| && a.Usual()
    ensures i == |t| <==> Rewritten(t, i, a) == []
    ensures i < |t| ==> Rewritten(t, i, a)[0].ch == t[i].ch || (a.Starts(t[i].ch) && a.Starts(Rewritten(t, i, a)[0].ch))
  {
    if i < |t| {
      var token := t[i..TokenEnd(t, i, a)];
      assert token[0] == t[i];
      MacroShape(token, a);
      assert Rewritten(t, i, a)[0] == RewriteToken(token, KindOf(t, i, a))[0];
    }
  }

  /** Macros are words that start with a letter and are not in the table themselves. */
  lemma MacroShape(w: Text, a: Alphabet)
    requires w != [] && a.Usual()
    ensures var m := RewriteWord(w);
            m != [] && RewriteWord(m) == m
            && (m == w || (m[0].ch == 'C' && forall j | 0 <= j < |m| :: a.Continues(m[j].ch)))
  {
    if Chars(w) in MACROS {
      var m := MACROS[Chars(w)];
      MacroNames(Chars(w));
      assert Chars(Generated(m, w[0].origin)) == m;
    }
  }

  lemma MacroNames(w: string)
    requires w in MACROS
    ensures var m := MACROS[w];
            && m !in MACROS && |m| > 0 && m[0] == 'C'
            && forall j | 0 <= j < |m| :: m[j] == '_' || 'A' <= m[j] <= 'Z'
  {
  }

  lemma SplitAt(s: Text, k: nat, out: Text, rest: Text)
    requires k <= |s| && s[k..] == out + rest
    ensures |s| == k + |out| + |rest| && s[k..k + |out|] == out && s[k + |out|..] == rest
  {
    assert s[k..][..|out|] == out && s[k..][|out|..] == rest;
  }

  lemma LiteralAgain(t: Text, i: nat, s: Text, k: nat, a: Alphabet)
    requires i < |t| && KindOf(t, i, a) == Literal && a.Usual()
    requires var e := TokenEnd(t, i, a); k <= |s| && s[k..] == t[i..e] + Rewritten(t, e, a)
    ensures var e := TokenEnd(t, i, a); k < |s| && KindOf(s, k, a) == Literal && TokenEnd(s, k, a) == k + (e - i)
  {
    var e := TokenEnd(t, i, a);
    SplitAt(s, k, t[i..e], Rewritten(t, e, a));
    StartsAlike(t, e, a);
    AlikeNext(t, i, e, s, k);
    SameLiteral(t, i + 1, s, k + 1, t[i].ch, false);
  }

  lemma LineAgain(t: Text, i: nat, s: Text, k: nat, a: Alphabet)
    requires i < |t| && KindOf(t, i, a) == LineComment && a.Usual()
    requires var e := TokenEnd(t, i, a); k <= |s| && s[k..] == t[i..e] + Rewritten(t, e, a)
    ensures var e := TokenEnd(t, i, a); k < |s| && KindOf(s, k, a) == LineComment && TokenEnd(s, k, a) == k + (e - i)
  {
    var e := TokenEnd(t, i, a);
    SplitAt(s, k, t[i..e], Rewritten(t, e, a));
    StartsAlike(t, e, a);
    AlikeNext(t, i, e, s, k);
    AlikeNext(t, i + 1, e, s, k + 1);
    forall j | k + 1 <= j < k + (e - i) ensures s[j].ch != '\n' {
      assert s[j] == s[k..k + (e - i)][j - k] == t[i..e][j - k];
    }
    if e < |t| { assert s[k + (e - i)] == s[k + (e - i)..][0]; }
    SameLine(s, k + 1, k + (e - i));
  }

  lemma CommentAgain(t: Text, i: nat, s: Text, k: nat, a: Alphabet)
    requires i < |t| && KindOf(t, i, a) == BlockComment && a.Usual()
    requires var e := TokenEnd(t, i, a); k <= |s| && s[k..] == t[i..e] + Rewritten(t, e, a)
    ensures var e := TokenEnd(t, i, a); k < |s| && KindOf(s, k, a) == BlockComment && TokenEnd(s, k, a) == k + (e - i)
  {
    var e := TokenEnd(t, i, a);
    SplitAt(s, k, t[i..e], Rewritten(t, e, a));
    StartsAlike(t, e, a);
    AlikeNext(t, i, e, s, k);
    AlikeNext(t, i + 1, e, s, k + 1);
    SameComment(t, i + 2, s, k + 2);
  }

  lemma WordAgain(t: Text, i: nat, s: Text, k: nat, a: Alphabet)
    requires i < |t| && KindOf(t, i, a) == Word && a.Usual()
    requires var e := TokenEnd(t, i, a); k <= |s| && s[k..] == RewriteWord(t[i..e]) + Rewritten(t, e, a)
    ensures k < |s| && KindOf(s, k, a) == Word && TokenEnd(s, k, a) == k + |RewriteWord(t[i..TokenEnd(t, i, a)])|
  {
    var e := TokenEnd(t, i, a);
    var out := RewriteWord(t[i..e]);
    MacroShape(t[i..e], a);
    SplitAt(s, k, out, Rewritten(t, e, a));
    StartsAlike(t, e, a);
    assert s[k] == s[k..k + |out|][0];
    assert t[i..e][0] == t[i];
    forall j | k <= j < k + |out| ensures a.Continues(s[j].ch) {
      assert s[j] == s[k..k + |out|][j - k] == out[j - k];
      assert out == t[i..e] ==> out[j - k] == t[i + (j - k)];
    }
    if e < |t| { assert s[k + |out|] == s[k + |out|..][0]; }
    SameWord(s, k + 1, k + |out|, a);
  }

  lemma OtherAgain(t: Text, i: nat, s: Text, k: nat, a: Alphabet)
    requires i < |t| && KindOf(t, i, a) == Other && a.Usual()
    requires k <= |s| && s[k..] == [t[i]] + Rewritten(t, i + 1, a)
    ensures k < |s| && KindOf(s, k, a) == Other && TokenEnd(s, k, a) == k + 1
  {
    SplitAt(s, k, [t[i]], Rewritten(t, i + 1, a));
    StartsAlike(t, i + 1, a);
    assert s[k] == s[k..k + 1][0];
    if i + 1 < |t| { assert s[k + 1] == s[k + 1..][0]; }
  }

  /** What becomes of the token at `i`. */
  function Out(t: Text, i: nat, a: Alphabet): Text
    requires i < |t|
  {
    RewriteToken(t[i..TokenEnd(t, i, a)], KindOf(t, i, a))
  }

  /** A rewritten token, followed by what its rest becomes, is one token again. */
  lemma TokenAgain(t: Text, i: nat, s: Text, k: nat, a: Alphabet)
    requires i < |t| && k <= |s| && a.Usual() && s[k..] == Out(t, i, a) + Rewritten(t, TokenEnd(t, i, a), a)
    ensures k < |s| && KindOf(s, k, a) == KindOf(t, i, a) && TokenEnd(s, k, a) == k + |Out(t, i, a)|
  {
    match KindOf(t, i, a)
    case Literal => LiteralAgain(t, i, s, k, a);
    case LineComment => LineAgain(t, i, s, k, a);
    case BlockComment => CommentAgain(t, i, s, k, a);
    case Word => WordAgain(t, i, s, k, a);
    case Other => assert t[i..i + 1] == [t[i]]; OtherAgain(t, i, s, k, a);
  }

  lemma OutAgain(t: Text, i: nat, a: Alphabet)
    requires i < |t| && a.Usual()
    ensures RewriteToken(Out(t, i, a), KindOf(t, i, a)) == Out(t, i, a)
  {
    MacroShape(t[i..TokenEnd(t, i, a)], a);
  }

  lemma AgainStep(t: Text, i: nat, s: Text, k: nat, a: Alphabet)
    requires i < |t| && k <= |s| && a.Usual() && s[k..] == Out(t, i, a) + Rewritten(t, TokenEnd(t, i, a), a)
    ensures k < |s| && TokenEnd(s, k, a) == k + |Out(t, i, a)| && Out(s, k, a) == Out(t, i, a)
    ensures s[TokenEnd(s, k, a)..] == Rewritten(t, TokenEnd(t, i, a), a)
  {
    TokenAgain(t, i, s, k, a);
    SplitAt(s, k, Out(t, i, a), Rewritten(t, TokenEnd(t, i, a), a));
    OutAgain(t, i, a);
    OutIs(s, k, a, Out(t, i, a));
  }

  lemma OutIs(s: Text, k: nat, a: Alphabet, text: Text)
    requires k < |s| && TokenEnd(s, k, a) == k + |text| && s[k..k + |text|] == text
    ensures Out(s, k, a) == RewriteToken(text, KindOf(s, k, a))
  {
  }

  lemma {:induction false} RewrittenAgain(t: Text, i: nat, s: Text, k: nat, a: Alphabet)
    requires i <= |t| && k <= |s| && a.Usual() && s[k..] == Rewritten(t, i, a)
    ensures Rewritten(s, k, a) == Rewritten(t, i, a)
    decreases |t| - i
  {
    if i < |t| {
      AgainStep(t, i, s, k, a);
      RewrittenAgain(t, TokenEnd(t, i, a), s, TokenEnd(s, k, a), a);
    } else {
      assert s[k..] == [];
    }
  }

  /** Rewriting a rewritten text changes nothing, not even an origin. */
  lemma RewriteIsIdempotent(t: Text, a: Alphabet)
    requires a.Usual()
    ensures Rewritten(Rewritten(t, 0, a), 0, a) == Rewritten(t, 0, a)
  {
    RewrittenAgain(t, 0, Rewritten(t, 0, a), 0, a);
  }
}
