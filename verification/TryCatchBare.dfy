/**
 Parts without braces. The lowering replaces a statement whose call is checked by several, of which only
 the first stays where it was. Exactly when that changes nothing.
 */
module TryCatchBare {
  import opened Wrappers
  import opened TryCatchSource
  import opened TryCatchTarget
  import opened TryCatchLowering
  import opened TryCatchMeaning

  /** What is emitted is C and, whatever the environment does, does what the statement does. */
  ghost predicate KeepsMeaning(s: Stmt, h: Option<Handler>, names: Names, user: set<string>)
  {
    && AllC(LowerStmt(s, h, names).items)
    && forall env: Env, fuel: nat, st: State, ct: State | Agree(st, ct, user) && Clear(ct, h) ::
         Corresponds(ExecStmt(env, user, s, h.Some?, fuel, st),
                     CExecFrom(env, user, LowerStmt(s, h, names).items, 0, fuel, ct), ct, h, user)
  }

  /** Complete statements, and what `if`, `while`, `do` and `for` make of them without braces. */
  predicate Plain(s: Stmt)
  {
    match s
    case Simple(_) => true
    case If(_, thn, els) => Plain(thn) && (els.Some? ==> Plain(els.value))
    case While(_, _, _, pass) => Plain(pass)
    case For(_, _, loop) => Plain(loop)
    case _ => false
  }

  ghost predicate PlainAccepted(s: Stmt, h: Option<Handler>, user: set<string>)
  {
    Plain(s) && WellFormed(s, h.Some?) && Parsed(s, user)
  }

  lemma FittingKeepsMeaning(s: Stmt, h: Option<Handler>, names: Names, user: set<string>)
    requires PlainAccepted(s, h, user) && HandlerFits(h, user, names) && Fits(s, h.Some?)
    ensures KeepsMeaning(s, h, names, user)
  {
    StmtIsC(s, h, names, user);
    forall env: Env, fuel: nat, st: State, ct: State | Agree(st, ct, user) && Clear(ct, h)
      ensures Corresponds(ExecStmt(env, user, s, h.Some?, fuel, st),
                          CExecFrom(env, user, LowerStmt(s, h, names).items, 0, fuel, ct), ct, h, user)
    {
      StmtCorresponds(env, user, s, h, names, fuel, st, ct);
    }
  }

  /* ---------- environments that tell the two apart ---------- */

  /** The texts at these places of the trace report 1, all others 0, and no error pointer is written through. */
  ghost function Routed(ones: set<nat>): Env
  {
    Env((text: string, vars: map<string, int>, trace: seq<string>) =>
          Effect(map[], if |trace| in ones then 1 else 0, None),
        (code: string) => 0)
  }

  lemma TextRuns(ones: set<nat>, user: set<string>, text: string, st: State)
    ensures var (st', eff) := RunText(Routed(ones), user, text, st);
            && |st'.trace| == |st.trace| + 1
            && eff.returned == (if |st.trace| in ones then 1 else 0) && eff.written.None?
            && Keeps(st, st', {}, user)
  {
    RunAgrees(Routed(ones), user, text, st, st);
  }

  /** Loop passes of a run in which every condition is false. */
  function Rounds(s: Stmt): nat
  {
    match s
    case If(_, thn, els) => Rounds(thn) + if els.Some? then Rounds(els.value) else 0
    case While(_, _, _, pass) => 1 + Rounds(pass)
    case For(_, _, loop) => Rounds(loop)
    case _ => 0
  }

  /** The run comes to its end, and `n` texts have run since the first. */
  ghost predicate Ended(r: Result, n: nat) { r.Some? && r.value.0 == Normal && |r.value.1.trace| == n }

  ghost predicate Stops(c: CResult, n: nat) { c.Some? && c.value.0 == CNormal && |c.value.1.trace| == n }

  /** From here on every text reports 0: each statement runs at least one text and completes. */
  lemma {:induction false} QuietRun(ones: set<nat>, user: set<string>, s: Stmt, checked: bool, fuel: nat, st: State)
    requires Plain(s) && fuel >= Rounds(s) && forall k <- ones :: k < |st.trace|
    ensures var r := ExecStmt(Routed(ones), user, s, checked, fuel, st);
            r.Some? && r.value.0 == Normal && |r.value.1.trace| > |st.trace|
    decreases s
  {
    match s
    case Simple(code) => TextRuns(ones, user, code.text, st);
    case If(cond, thn, els) =>
      TextRuns(ones, user, cond.text, st);
      if els.Some? {
        QuietRun(ones, user, els.value, checked, fuel, RunText(Routed(ones), user, cond.text, st).0);
      }
    case While(post, cond, step, pass) => QuietLoop(ones, user, s, checked, fuel, st);
    case For(_, start, loop) =>
      TextRuns(ones, user, start.code.text, st);
      QuietRun(ones, user, loop, checked, fuel, RunText(Routed(ones), user, start.code.text, st).0);
  }

  lemma {:induction false} QuietLoop(ones: set<nat>, user: set<string>, s: Stmt, checked: bool, fuel: nat, st: State)
    requires s.While? && Plain(s) && fuel >= Rounds(s) && forall k <- ones :: k < |st.trace|
    ensures var r := ExecStmt(Routed(ones), user, s, checked, fuel, st);
            r.Some? && r.value.0 == Normal && |r.value.1.trace| > |st.trace|
    decreases s, 0
  {
    TextRuns(ones, user, s.cond.text, st);
    if s.post {
      QuietRun(ones, user, s.pass, checked, fuel - 1, st);
      var st1 := ExecStmt(Routed(ones), user, s.pass, checked, fuel - 1, st).value.1;
      if s.step.Some? { TextRuns(ones, user, s.step.value.text, st1); }
      TextRuns(ones, user, s.cond.text, Stepped(Routed(ones), user, TextOf(s.step), st1));
    }
  }

  /** So does what replaces a statement whose parts fit. */
  lemma QuietCode(ones: set<nat>, user: set<string>, s: Stmt, h: Option<Handler>, names: Names, fuel: nat, ct: State)
    requires PlainAccepted(s, h, user) && Fits(s, h.Some?) && HandlerFits(h, user, names) && Clear(ct, h)
    requires fuel >= Rounds(s) && forall k <- ones :: k < |ct.trace|
    ensures var c := CExecFrom(Routed(ones), user, LowerStmt(s, h, names).items, 0, fuel, ct);
            var r := ExecStmt(Routed(ones), user, s, h.Some?, fuel, ct);
            && r.Some? && Stops(c, |r.value.1.trace|) && Clear(c.value.1, h) && |r.value.1.trace| > |ct.trace|
  {
    QuietRun(ones, user, s, h.Some?, fuel, ct);
    StmtCorresponds(Routed(ones), user, s, h, names, fuel, ct, ct);
  }

  /** What the lowering of a call through an error pointer leaves behind its first statement makes the call. */
  lemma WrittenTail(ones: set<nat>, user: set<string>, text: string, h: Handler, fuel: nat, ct: State)
    ensures var c := CExecFrom(Routed(ones), user, [CRunWritten(h.status, text)] + [TestStatus(h)], 0, fuel, ct);
            c.Some? && |c.value.1.trace| == |ct.trace| + 1
  {
    TextRuns(ones, user, text, ct);
    ExecHead(Routed(ones), user, CRunWritten(h.status, text), [TestStatus(h)], fuel, ct);
    TestJumps(Routed(ones), user, [TestStatus(h)], h, fuel, RunText(Routed(ones), user, text, ct).0);
  }

  lemma PointerItems(s: Stmt, h: Option<Handler>, names: Names)
    requires ByPointer(s, h.Some?)
    ensures var items := LowerStmt(s, h, names).items;
            && First(items) == CSet(h.value.status, 0)
            && Others(items) == [CRunWritten(h.value.status, s.code.text)] + [TestStatus(h.value)]
  {
  }

  /** A spilled test is the last of the statements. */
  lemma SpillsTest(s: Stmt, h: Option<Handler>, names: Names, user: set<string>)
    requires PlainAccepted(s, h, user) && Fits(s, h.Some?) && Spills(s, h.Some?)
    ensures var items := LowerStmt(s, h, names).items;
            && h.Some? && |items| > 1 && items == items[..|items| - 1] + [TestStatus(h.value)]
  {
    Shape(s, h, names, user);
    if ByPointer(s, h.Some?) { PointerItems(s, h, names); }
  }

  lemma Differs(s: Stmt, h: Option<Handler>, names: Names, user: set<string>, env: Env, fuel: nat, n: nat)
    requires var r := ExecStmt(env, user, s, h.Some?, fuel, State(map[], []));
             r.Some? && |r.value.1.trace| == n
    requires var c := CExecFrom(env, user, LowerStmt(s, h, names).items, 0, fuel, State(map[], []));
             c.Some? && |c.value.1.trace| > n
    ensures !KeepsMeaning(s, h, names, user)
  {
    var st := State(map[], []);
    assert Agree(st, st, user) && Clear(st, h);
    assert !Corresponds(ExecStmt(env, user, s, h.Some?, fuel, st),
                        CExecFrom(env, user, LowerStmt(s, h, names).items, 0, fuel, st), st, h, user);
  }

  /* ---------- if ---------- */

  /** Without an `else`: the condition is false, and the call is made all the same. */
  lemma MisplacedCall(s: Stmt, h: Option<Handler>, names: Names, user: set<string>)
    requires s.If? && s.els.None? && ByPointer(s.thn, h.Some?) && HandlerFits(h, user, names)
    ensures !KeepsMeaning(s, h, names, user)
  {
    var env, st := Routed({}), State(map[], []);
    PointerItems(s.thn, h, names);
    TextRuns({}, user, s.cond.text, st);
    var ct := RunText(env, user, s.cond.text, st).0;
    var tail := [CRunWritten(h.value.status, s.thn.code.text)] + [TestStatus(h.value)];
    ExecHead(env, user, CIf(Text(s.cond.text), CSet(h.value.status, 0), CSkip), tail, 0, st);
    WrittenTail({}, user, s.thn.code.text, h.value, 0, ct);
    Differs(s, h, names, user, env, 0, 1);
  }

  /** The `else` behind a spilled test belongs to the test, and runs after a call without a status. */
  lemma MisplacedElse(s: Stmt, h: Option<Handler>, names: Names, user: set<string>)
    requires s.If? && s.els.Some? && PlainAccepted(s, h, user) && HandlerFits(h, user, names)
    requires Fits(s.thn, h.Some?) && Spills(s.thn, h.Some?) && Fits(s.els.value, h.Some?)
    ensures !KeepsMeaning(s, h, names, user)
  {
    var env, fuel, st := Routed({0}), Rounds(s), State(map[], []);
    var l := LowerStmt(s.thn, h, names);
    var els := LowerStmt(s.els.value, h, l.names).items;
    TextRuns({0}, user, s.cond.text, st);
    var ct := RunText(env, user, s.cond.text, st).0;
    SpillsTest(s.thn, h, names, user);
    Shape(s.els.value, h, l.names, user);
    NoLabelEmitted(s.thn, h, names);
    QuietCode({0}, user, s.thn, h, names, fuel, ct);
    var c := CExecFrom(env, user, l.items, 0, fuel, ct);
    StmtNamesGrow(s.thn, h, names);
    QuietCode({0}, user, s.els.value, h, l.names, fuel, c.value.1);
    ElseRuns(env, user, s.cond.text, l.items, els, h.value, fuel, st, c.value.1);
    Differs(s, h, names, user, env, fuel, |c.value.1.trace|);
  }

  /** With a true condition the branch runs, and then the `else` of its test. */
  lemma ElseRuns(env: Env, user: set<string>, cond: string, thn: seq<CStmt>, els: seq<CStmt>, h: Handler, fuel: nat,
                 ct: State, after: State)
    requires |thn| > 1 && thn == thn[..|thn| - 1] + [TestStatus(h)] && NoLabels(thn) && els != [] && NoLabels(els)
    requires RunText(env, user, cond, ct).1.returned != 0
    requires CExecFrom(env, user, thn, 0, fuel, RunText(env, user, cond, ct).0) == Some((CNormal, after))
    requires Read(after, h.status) == 0
    ensures CExecFrom(env, user, IfElseItems(cond, thn, els), 0, fuel, ct) == CExecFrom(env, user, els, 0, fuel, after)
  {
    var run, ct' := thn[..|thn| - 1], RunText(env, user, cond, ct).0;
    var tail := [CIf(NonZero(h.status), CGoto(h.target), els[0])] + els[1..];
    BeforeTest(env, user, run, h, fuel, ct', after);
    IfElseSpilled(cond, thn, run, els, h);
    assert NoLabels(run + tail) by {
      forall i | 0 <= i < |run + tail| ensures !(run + tail)[i].CLabel? {
        assert i < |run| ==> run[i] == thn[i];
      }
    }
    RunTakesOver(env, user, cond, run, tail, fuel, ct);
    TestElse(env, user, els, h, fuel, after);
  }

  lemma TestElse(env: Env, user: set<string>, els: seq<CStmt>, h: Handler, fuel: nat, ct: State)
    requires els != [] && NoLabels(els) && Read(ct, h.status) == 0
    ensures CExecFrom(env, user, [CIf(NonZero(h.status), CGoto(h.target), els[0])] + els[1..], 0, fuel, ct)
         == CExecFrom(env, user, els, 0, fuel, ct)
  {
    ExecHead(env, user, CIf(NonZero(h.status), CGoto(h.target), els[0]), els[1..], fuel, ct);
    assert els == [els[0]] + els[1..];
    ExecHead(env, user, els[0], els[1..], fuel, ct);
  }

  lemma IfElseSpilled(cond: string, thn: seq<CStmt>, run: seq<CStmt>, els: seq<CStmt>, h: Handler)
    requires run != [] && thn == run + [TestStatus(h)] && els != []
    ensures IfElseItems(cond, thn, els)
         == [CIf(Text(cond), run[0], CSkip)]
              + (run[1..] + ([CIf(NonZero(h.status), CGoto(h.target), els[0])] + els[1..]))
  {
    var up := IfItems(cond, thn);
    assert up == [CIf(Text(cond), run[0], CSkip)] + run[1..] + [TestStatus(h)];
    assert up[|up| - 1] == TestStatus(h);
    assert up[..|up| - 1] == [CIf(Text(cond), run[0], CSkip)] + run[1..];
  }

  /** What completes with a test at its end completes without it. */
  lemma BeforeTest(env: Env, user: set<string>, run: seq<CStmt>, h: Handler, fuel: nat, ct: State, after: State)
    requires NoLabels(run + [TestStatus(h)])
    requires CExecFrom(env, user, run + [TestStatus(h)], 0, fuel, ct) == Some((CNormal, after))
    ensures CExecFrom(env, user, run, 0, fuel, ct) == Some((CNormal, after))
  {
    ExecAppendFrom(env, user, run, [TestStatus(h)], 0, fuel, ct);
    var c := CExecFrom(env, user, run, 0, fuel, ct);
    if c.Some? { TestJumps(env, user, [TestStatus(h)], h, fuel, c.value.1); }
  }

  /** With a true condition the branch and what has left it run as if they had no `if`. */
  lemma RunTakesOver(env: Env, user: set<string>, cond: string, run: seq<CStmt>, tail: seq<CStmt>, fuel: nat, ct: State)
    requires run != [] && NoLabels(run + tail)
    requires RunText(env, user, cond, ct).1.returned != 0
    ensures CExecFrom(env, user, [CIf(Text(cond), run[0], CSkip)] + (run[1..] + tail), 0, fuel, ct)
         == AndThen(env, user, CExecFrom(env, user, run, 0, fuel, RunText(env, user, cond, ct).0), tail, fuel)
  {
    var ct' := RunText(env, user, cond, ct).0;
    assert NoLabels(run[1..] + tail) by {
      forall i | 0 <= i < |run[1..] + tail| ensures !(run[1..] + tail)[i].CLabel? {
        assert (run[1..] + tail)[i] == (run + tail)[i + 1];
      }
    }
    ExecHead(env, user, CIf(Text(cond), run[0], CSkip), run[1..] + tail, fuel, ct);
    assert [run[0]] + (run[1..] + tail) == run + tail;
    ExecHead(env, user, run[0], run[1..] + tail, fuel, ct');
    ExecAppendFrom(env, user, run, tail, 0, fuel, ct');
  }

  lemma ThenRuns(env: Env, user: set<string>, cond: string, thn: CStmt, els: CStmt, tail: seq<CStmt>, fuel: nat,
                 ct: State)
    requires NoLabels(tail) && RunText(env, user, cond, ct).1.returned != 0
    ensures CExecFrom(env, user, [CIf(Text(cond), thn, els)] + tail, 0, fuel, ct)
         == AndThen(env, user, CExec(env, user, thn, fuel, RunText(env, user, cond, ct).0), tail, fuel)
  {
    ExecHead(env, user, CIf(Text(cond), thn, els), tail, fuel, ct);
  }

  /** The other branch's call is made although the condition is true. */
  lemma MisplacedOther(s: Stmt, h: Option<Handler>, names: Names, user: set<string>)
    requires s.If? && s.els.Some? && PlainAccepted(s, h, user) && HandlerFits(h, user, names)
    requires Fits(s.thn, h.Some?) && !Spills(s.thn, h.Some?) && ByPointer(s.els.value, h.Some?)
    ensures !KeepsMeaning(s, h, names, user)
  {
    var env, fuel, st := Routed({0}), Rounds(s), State(map[], []);
    var l := LowerStmt(s.thn, h, names);
    var tail := [CRunWritten(h.value.status, s.els.value.code.text)] + [TestStatus(h.value)];
    TextRuns({0}, user, s.cond.text, st);
    var ct := RunText(env, user, s.cond.text, st).0;
    Shape(s.thn, h, names, user);
    PointerItems(s.els.value, h, l.names);
    IfElseIs(s.cond.text, l.items, LowerStmt(s.els.value, h, l.names).items);
    QuietCode({0}, user, s.thn, h, names, fuel, ct);
    ExecOne(env, user, l.items[0], fuel, ct);
    assert l.items == [l.items[0]];
    var c := CExec(env, user, l.items[0], fuel, ct);
    ThenRuns(env, user, s.cond.text, l.items[0], CSet(h.value.status, 0), tail, fuel, st);
    WrittenTail({0}, user, s.els.value.code.text, h.value, fuel, c.value.1);
    Differs(s, h, names, user, env, fuel, |c.value.1.trace|);
  }

  /**
   An `if` of statements without braces, whose branches fit, keeps its meaning exactly when no branch is a
   call through an error pointer and, if there is an `else`, nothing checked comes before it.
   */
  lemma BareIfIff(s: Stmt, h: Option<Handler>, names: Names, user: set<string>)
    requires s.If? && PlainAccepted(s, h, user) && HandlerFits(h, user, names)
    requires Fits(s.thn, h.Some?) && (s.els.Some? ==> Fits(s.els.value, h.Some?))
    ensures KeepsMeaning(s, h, names, user)
       <==> && (if s.els.None? then !ByPointer(s.thn, h.Some?) else !Spills(s.thn, h.Some?))
            && (s.els.Some? ==> !ByPointer(s.els.value, h.Some?))
  {
    if Fits(s, h.Some?) {
      FittingKeepsMeaning(s, h, names, user);
    } else if s.els.None? {
      MisplacedCall(s, h, names, user);
    } else if Spills(s.thn, h.Some?) {
      MisplacedElse(s, h, names, user);
    } else {
      MisplacedOther(s, h, names, user);
    }
  }

  /* ---------- loops ---------- */

  /** The places, counted from `n`, at which to answer 1 so that the statement raises a status. */
  function Route(s: Stmt, n: nat): set<nat>
  {
    match s
    case Simple(_) => {n}
    case If(_, thn, els) => if els.None? then {n} + Route(thn, n + 1) else Route(els.value, n + 1)
    case _ => {}
  }

  function Length(s: Stmt): (n: nat)
    ensures n > 0
  {
    match s
    case If(_, thn, els) => 1 + if els.None? then Length(thn) else Length(els.value)
    case _ => 1
  }

  lemma {:induction false} RouteIsInside(s: Stmt, n: nat)
    ensures forall k <- Route(s, n) :: n <= k < n + Length(s)
    decreases s
  {
    match s
    case If(_, thn, els) => if els.None? { RouteIsInside(thn, n + 1); } else { RouteIsInside(els.value, n + 1); }
    case _ =>
  }

  ghost predicate Follows(ones: set<nat>, s: Stmt, n: nat)
  {
    forall k | n <= k < n + Length(s) :: k in ones <==> k in Route(s, n)
  }

  /** A statement with a checked call that has left its place, though not through an error pointer. */
  ghost predicate Overlooks(s: Stmt, h: Option<Handler>, user: set<string>)
  {
    && h.Some? && PlainAccepted(s, h, user)
    && Fits(s, true) && Spills(s, true) && !ByPointer(s, true)
  }

  lemma {:induction false} SpillsChecked(s: Stmt, checked: bool)
    ensures Spills(s, checked) ==> checked
    decreases s
  {
    match s
    case If(_, thn, els) =>
      SpillsChecked(thn, checked);
      if els.Some? { SpillsChecked(els.value, checked); }
    case While(_, _, _, pass) => SpillsChecked(pass, checked);
    case For(_, _, loop) => SpillsChecked(loop, checked);
    case _ =>
  }

  function OnRoute(s: Stmt): Stmt
    requires s.If?
  {
    if s.els.None? then s.thn else s.els.value
  }

  lemma OverlooksPart(s: Stmt, h: Option<Handler>, user: set<string>)
    requires Overlooks(s, h, user)
    ensures s.Simple? || s.If?
    ensures s.If? ==> Overlooks(OnRoute(s), h, user)
    ensures s.Simple? ==> CheckedCall(s.code.calls) == Some(ErrorReturn)
  {
    LoopsKeepIn(s, true, user);
    if s.Simple? { assert !CheckedCall(s.code.calls).value.ErrorOut?; }
  }

  /** Nothing leaves a loop whose parts fit. */
  lemma LoopsKeepIn(s: Stmt, checked: bool, user: set<string>)
    requires Fits(s, checked) && Parsed(s, user)
    ensures s.While? || s.For? ==> !Spills(s, checked)
  {
    if s.For? { assert Fits(s.loop, checked); }
  }

  lemma FollowsOn(ones: set<nat>, s: Stmt, n: nat)
    requires s.If? && Follows(ones, s, n)
    ensures n in ones <==> s.els.None?
    ensures Follows(ones, OnRoute(s), n + 1)
  {
    var next := OnRoute(s);
    RouteIsInside(next, n + 1);
    assert n in ones <==> n in Route(s, n);
    forall k | n + 1 <= k < n + 1 + Length(next) ensures k in ones <==> k in Route(next, n + 1) {
      assert k in ones <==> k in Route(s, n);
    }
  }

  lemma {:induction false} RouteRaises(ones: set<nat>, user: set<string>, s: Stmt, h: Option<Handler>, fuel: nat,
                                       st: State)
    requires Overlooks(s, h, user) && Follows(ones, s, |st.trace|)
    ensures var r := ExecStmt(Routed(ones), user, s, true, fuel, st);
            r.Some? && r.value.0 == Raised(1) && |r.value.1.trace| == |st.trace| + Length(s)
    decreases s
  {
    OverlooksPart(s, h, user);
    if s.Simple? {
      assert |st.trace| in Route(s, |st.trace|);
      TextRuns(ones, user, s.code.text, st);
    } else {
      FollowsOn(ones, s, |st.trace|);
      TextRuns(ones, user, s.cond.text, st);
      RouteRaises(ones, user, OnRoute(s), h, fuel, RunText(Routed(ones), user, s.cond.text, st).0);
    }
  }

  /** The first of the statements stores the status and goes on. */
  lemma {:induction false} RouteStores(ones: set<nat>, user: set<string>, s: Stmt, h: Option<Handler>, names: Names,
                                       fuel: nat, ct: State)
    requires Overlooks(s, h, user) && Follows(ones, s, |ct.trace|)
    ensures var c := CExec(Routed(ones), user, First(LowerStmt(s, h, names).items), fuel, ct);
            Stops(c, |ct.trace| + Length(s)) && Read(c.value.1, h.value.status) == 1
    decreases s
  {
    OverlooksPart(s, h, user);
    if s.Simple? {
      LeafStores(ones, user, s, h, names, fuel, ct);
    } else {
      FollowsOn(ones, s, |ct.trace|);
      TextRuns(ones, user, s.cond.text, ct);
      var next := if s.els.None? then names else LowerStmt(s.thn, h, names).names;
      RouteStores(ones, user, OnRoute(s), h, next, fuel, RunText(Routed(ones), user, s.cond.text, ct).0);
      RouteHead(s, h, names, user);
      IfTakes(Routed(ones), user, First(LowerStmt(s, h, names).items), s.cond.text, fuel, ct);
    }
  }

  lemma IfTakes(env: Env, user: set<string>, c: CStmt, cond: string, fuel: nat, ct: State)
    requires c.CIf? && c.test == Text(cond)
    ensures var (ct', eff) := RunText(env, user, cond, ct);
            CExec(env, user, c, fuel, ct) == CExec(env, user, if eff.returned != 0 then c.thn else c.els, fuel, ct')
  {
  }

  lemma LeafStores(ones: set<nat>, user: set<string>, s: Stmt, h: Option<Handler>, names: Names, fuel: nat, ct: State)
    requires Overlooks(s, h, user) && s.Simple? && Follows(ones, s, |ct.trace|)
    ensures var c := CExec(Routed(ones), user, First(LowerStmt(s, h, names).items), fuel, ct);
            Stops(c, |ct.trace| + Length(s)) && Read(c.value.1, h.value.status) == 1
  {
    OverlooksPart(s, h, user);
    assert |ct.trace| in Route(s, |ct.trace|);
    TextRuns(ones, user, s.code.text, ct);
  }

  lemma RouteHead(s: Stmt, h: Option<Handler>, names: Names, user: set<string>)
    requires s.If? && Overlooks(s, h, user)
    ensures var head := First(LowerStmt(s, h, names).items);
            && head.CIf? && head.test == Text(s.cond.text)
            && (if s.els.None? then head.thn == First(LowerStmt(s.thn, h, names).items)
                else head.els == First(LowerStmt(s.els.value, h, LowerStmt(s.thn, h, names).names).items))
  {
    if s.els.Some? {
      var l := LowerStmt(s.thn, h, names);
      Shape(s.thn, h, names, user);
      IfElseIs(s.cond.text, l.items, LowerStmt(s.els.value, h, l.names).items);
    }
  }

  /** The answers that make a loop overlook a status, or make a call that it should not make. */
  function LoopRoute(s: Stmt, checked: bool, n: nat): set<nat>
    requires s.While?
  {
    if ByPointer(s.pass, checked) then {} else {n} + Route(s.pass, n + 1)
  }

  /** A loop whose body has left it in part. */
  ghost predicate Leaks(s: Stmt, h: Option<Handler>, user: set<string>)
  {
    s.While? && !s.post && PlainAccepted(s, h, user) && Fits(s.pass, h.Some?) && Spills(s.pass, h.Some?)
  }

  /** Where the loop's own run is at its end. */
  function Leaves(s: Stmt, checked: bool, n: nat): nat
    requires s.While?
  {
    if ByPointer(s.pass, checked) then n + 1 else n + 1 + Length(s.pass)
  }

  lemma LoopRouted(s: Stmt, h: Option<Handler>, n: nat, user: set<string>)
    requires Leaks(s, h, user) && !ByPointer(s.pass, h.Some?)
    ensures var ones := LoopRoute(s, h.Some?, n);
            && n in ones && Follows(ones, s.pass, n + 1) && Overlooks(s.pass, h, user)
            && forall k | k >= Leaves(s, h.Some?, n) :: k !in ones
  {
    RouteIsInside(s.pass, n + 1);
    SpillsChecked(s.pass, h.Some?);
  }

  lemma LeakingRun(user: set<string>, s: Stmt, h: Option<Handler>, st: State)
    requires Leaks(s, h, user)
    ensures var n := |st.trace|;
            var r := ExecStmt(Routed(LoopRoute(s, h.Some?, n)), user, s, true, 1, st);
            r.Some? && |r.value.1.trace| == Leaves(s, h.Some?, n)
  {
    var n := |st.trace|;
    var ones := LoopRoute(s, h.Some?, n);
    TextRuns(ones, user, s.cond.text, st);
    if !ByPointer(s.pass, h.Some?) {
      LoopRouted(s, h, n, user);
      RouteRaises(ones, user, s.pass, h, 0, RunText(Routed(ones), user, s.cond.text, st).0);
    }
  }

  /** What is left in the loop completes: at once, or one text too late. */
  lemma LeakingLoop(user: set<string>, s: Stmt, h: Option<Handler>, names: Names, ct: State) returns (ct': State)
    requires Leaks(s, h, user)
    ensures var n := |ct.trace|;
            var loop := First(LowerStmt(s, h, names).items);
            && CExec(Routed(LoopRoute(s, h.Some?, n)), user, loop, 1, ct) == Some((CNormal, ct'))
            && |ct'.trace| + (if ByPointer(s.pass, h.Some?) then 1 else 0) > Leaves(s, h.Some?, n)
  {
    var n := |ct.trace|;
    var ones := LoopRoute(s, h.Some?, n);
    var env, body := Routed(ones), First(LowerStmt(s.pass, h, names).items);
    var loop := CWhile(false, s.cond.text, TextOf(s.step), body);
    TextRuns(ones, user, s.cond.text, ct);
    ct' := RunText(env, user, s.cond.text, ct).0;
    if !ByPointer(s.pass, h.Some?) {
      LoopRouted(s, h, n, user);
      RouteStores(ones, user, s.pass, h, names, 0, ct');
      var c := CExec(env, user, body, 0, ct');
      if s.step.Some? { TextRuns(ones, user, s.step.value.text, c.value.1); }
      var next := Stepped(env, user, TextOf(s.step), c.value.1);
      TextRuns(ones, user, s.cond.text, next);
      CLoopUnfolds(env, user, loop, body, 1, ct, ct');
      ct' := RunText(env, user, s.cond.text, next).0;
    }
  }

  /** What has left the loop runs behind it. */
  lemma LeakedTail(ones: set<nat>, user: set<string>, s: Stmt, h: Option<Handler>, names: Names, fuel: nat, ct: State)
    requires Leaks(s, h, user)
    ensures var items := LowerStmt(s, h, names).items;
            && items == [First(items)] + Others(items) && NoLabels(items)
            && First(items) == CWhile(false, s.cond.text, TextOf(s.step), First(LowerStmt(s.pass, h, names).items))
    ensures var c := CExecFrom(Routed(ones), user, Others(LowerStmt(s, h, names).items), 0, fuel, ct);
            c.Some? && |c.value.1.trace| == |ct.trace| + if ByPointer(s.pass, h.Some?) then 1 else 0
  {
    NoLabelEmitted(s, h, names);
    Shape(s.pass, h, names, user);
    var tail := Others(LowerStmt(s.pass, h, names).items);
    if ByPointer(s.pass, h.Some?) {
      PointerItems(s.pass, h, names);
      WrittenTail(ones, user, s.pass.code.text, h.value, fuel, ct);
    } else {
      TestJumps(Routed(ones), user, tail, h.value, fuel, ct);
    }
  }

  lemma LeakingWhile(s: Stmt, h: Option<Handler>, names: Names, user: set<string>)
    requires Leaks(s, h, user)
    ensures !KeepsMeaning(s, h, names, user)
  {
    var st, ones := State(map[], []), LoopRoute(s, h.Some?, 0);
    var items := LowerStmt(s, h, names).items;
    SpillsChecked(s.pass, h.Some?);
    LeakingRun(user, s, h, st);
    var ct := LeakingLoop(user, s, h, names, st);
    LeakedTail(ones, user, s, h, names, 1, ct);
    ExecHead(Routed(ones), user, First(items), Others(items), 1, st);
    Differs(s, h, names, user, Routed(ones), 1, Leaves(s, h.Some?, 0));
  }

  lemma NotC(s: Stmt, h: Option<Handler>, names: Names, user: set<string>)
    requires LowerStmt(s, h, names).items == [CNotC]
    ensures !KeepsMeaning(s, h, names, user)
  {
    assert !IsC(LowerStmt(s, h, names).items[0]);
  }

  /** A loop without braces, whose body fits, keeps its meaning exactly when nothing checked is in it. */
  lemma BareLoopIff(s: Stmt, h: Option<Handler>, names: Names, user: set<string>)
    requires s.While? && PlainAccepted(s, h, user) && HandlerFits(h, user, names) && Fits(s.pass, h.Some?)
    ensures KeepsMeaning(s, h, names, user) <==> !Spills(s.pass, h.Some?)
  {
    if Fits(s, h.Some?) {
      FittingKeepsMeaning(s, h, names, user);
    } else if s.post {
      Shape(s.pass, h, names, user);
      NotC(s, h, names, user);
    } else {
      LeakingWhile(s, h, names, user);
    }
  }

  lemma LeakingFor(s: Stmt, h: Option<Handler>, names: Names, user: set<string>)
    requires s.For? && PlainAccepted(s, h, user) && HandlerFits(h, user, names)
    requires !Starts(s.start, h.Some?) && Leaks(s.loop, h, user)
    ensures !KeepsMeaning(s, h, names, user)
  {
    var st, ones := State(map[], []), LoopRoute(s.loop, h.Some?, 1);
    var items, text := LowerStmt(s.loop, h, names).items, s.start.code.text;
    TextRuns(ones, user, text, st);
    var st' := RunText(Routed(ones), user, text, st).0;
    LeakingRun(user, s.loop, h, st');
    var ct := LeakingLoop(user, s.loop, h, names, st');
    LeakedTail(ones, user, s.loop, h, names, 1, Leave(st, ct, s.decls));
    SpillsChecked(s.loop.pass, h.Some?);
    ForRuns(Routed(ones), user, s.decls, text, items, 1, st, ct);
    assert LowerStmt(s, h, names).items == [CFor(s.decls, text, First(items))] + Others(items);
    Differs(s, h, names, user, Routed(ones), 1, Leaves(s.loop, h.Some?, 1));
  }

  lemma ForRuns(env: Env, user: set<string>, decls: set<string>, text: string, items: seq<CStmt>, fuel: nat, st: State,
                ct: State)
    requires items == [First(items)] + Others(items) && NoLabels(items)
    requires CExec(env, user, First(items), fuel, RunText(env, user, text, st).0) == Some((CNormal, ct))
    ensures CExecFrom(env, user, [CFor(decls, text, First(items))] + Others(items), 0, fuel, st)
         == CExecFrom(env, user, Others(items), 0, fuel, Leave(st, ct, decls))
  {
    ExecHead(env, user, CFor(decls, text, First(items)), Others(items), fuel, st);
  }

  /**
   A `for` loop without braces, whose body fits, keeps its meaning exactly when nothing checked is in it,
   nor in the declaration it starts with.
   */
  lemma BareForIff(s: Stmt, h: Option<Handler>, names: Names, user: set<string>)
    requires s.For? && PlainAccepted(s, h, user) && HandlerFits(h, user, names) && Fits(s.loop.pass, h.Some?)
    ensures KeepsMeaning(s, h, names, user) <==> !Starts(s.start, h.Some?) && !Spills(s.loop.pass, h.Some?)
  {
    assert Fits(s.loop, h.Some?) <==> !Spills(s.loop.pass, h.Some?);
    if Fits(s, h.Some?) {
      FittingKeepsMeaning(s, h, names, user);
    } else if Starts(s.start, h.Some?) {
      NotC(s, h, names, user);
    } else {
      LeakingFor(s, h, names, user);
    }
  }
}
