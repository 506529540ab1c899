/** The @try lowering as the pass performs it: counters and reports are fields that the recursion updates. */
module TryCatchPass {
  import opened Wrappers
  import opened FreshNames
  import opened TryCatchSource
  import opened TryCatchTarget
  import L = TryCatchLowering

  class CPlusTryCatchLoweringPass {
    var serial: nat
    var reservedNames: set<string>
    var diagnostics: seq<L.Diagnostic>

    constructor ()
      ensures serial == 0 && reservedNames == {} && diagnostics == []
    {
      serial, reservedNames, diagnostics := 0, {}, [];
    }

    ghost function Supply(): L.Names
      reads this
    {
      L.Names(serial, reservedNames)
    }

    /** What a step that lowers to `l` does to the pass; call diagnostics are left to the region. */
    twostate predicate Took(l: L.Lowered)
      reads this
    {
      Supply() == l.names && diagnostics == old(diagnostics) + l.tries
    }

    /** Counts up to the first name that is not reserved, and reserves it. */
    method Fresh(prefix: string) returns (name: string)
      modifies this`serial, this`reservedNames
      ensures (name, Supply()) == L.Fresh(prefix, old(Supply()))
    {
      name := Numbered(prefix, serial);
      serial := serial + 1;
      while name in reservedNames
        invariant serial >= 1 && name == Numbered(prefix, serial - 1)
        invariant FirstFree(prefix, serial - 1, reservedNames) == FirstFree(prefix, old(serial), reservedNames)
        invariant reservedNames == old(reservedNames)
        decreases Ahead(prefix, serial - 1, reservedNames)
      {
        AheadShrinks(prefix, serial - 1, reservedNames);
        name := Numbered(prefix, serial);
        serial := serial + 1;
      }
      reservedNames := reservedNames + {name};
    }

    /** One function body. Any report leaves the source as it is. */
    method Lower(body: Block, identifiers: set<string>) returns (out: Option<CStmt>)
      modifies this
      ensures var l := L.LowerStmts(body.items, None, L.Names(0, identifiers));
              && diagnostics == L.Diagnostics(l)
              && out == if diagnostics == [] then Some(CBlock(body.decls, l.items)) else None
    {
      reservedNames, serial, diagnostics := identifiers, 0, [];
      var items := LowerRegion(body.items, None);
      out := if diagnostics == [] then Some(CBlock(body.decls, items)) else None;
    }

    /** Nested @try statements report first, the region's own calls after them. */
    method LowerRegion(items: seq<Stmt>, h: Option<L.Handler>) returns (out: seq<CStmt>)
      modifies this
      ensures var l := L.LowerStmts(items, h, old(Supply()));
              && Supply() == l.names && diagnostics == old(diagnostics) + L.Diagnostics(l)
              && (diagnostics == [] ==> out == l.items)
      decreases items, 1
    {
      var calls;
      out, calls := LowerItems(items, h);
      diagnostics := diagnostics + calls;
    }

    method LowerItems(items: seq<Stmt>, h: Option<L.Handler>) returns (out: seq<CStmt>, calls: seq<L.Diagnostic>)
      modifies this
      ensures var l := L.LowerStmts(items, h, old(Supply()));
              Took(l) && calls == l.calls && (diagnostics == [] ==> out == l.items)
      decreases items, 0
    {
      out, calls := [], [];
      ghost var names0 := Supply();
      ghost var done := L.Lowered([], names0, [], []);
      ThenUnit(L.LowerStmts(items, h, names0), names0);
      assert items[0..] == items;
      for i := 0 to |items|
        invariant L.LowerStmts(items, h, names0) == L.Then(done, L.LowerStmts(items[i..], h, done.names))
        invariant Supply() == done.names && diagnostics == old(diagnostics) + done.tries
        invariant calls == done.calls && (diagnostics == [] ==> out == done.items)
      {
        ghost var l := L.LowerStmt(items[i], h, done.names);
        ExtendRun(items, i, h, done);
        var o, c := LowerStatement(items[i], h);
        assert diagnostics == old(diagnostics) + (done.tries + l.tries);
        out, calls, done := out + o, calls + c, L.Then(done, l);
      }
      ThenEnd(done);
    }

    method LowerStatement(s: Stmt, h: Option<L.Handler>) returns (out: seq<CStmt>, calls: seq<L.Diagnostic>)
      modifies this
      ensures var l := L.LowerStmt(s, h, old(Supply()));
              Took(l) && calls == l.calls && (diagnostics == [] ==> out == l.items)
      decreases s, 1
    {
      match s
      case Simple(code) =>
        out, calls := LowerSimple(code, h);
      case Nested(block) =>
        out, calls := LowerItems(block.items, h);
        out := [CBlock(block.decls, out)];
      case If(cond, thn, els) =>
        out, calls := LowerIf(s, h);
      case While(post, cond, step, pass) =>
        var o, c := LowerStatement(pass, h);
        out, calls := L.LoopItems(post, cond.text, TextOf(step), o), L.LoopCalls(post, cond, step, h, c);
      case For(decls, start, loop) =>
        var o, c := LowerStatement(loop, h);
        out, calls := L.ForItems(decls, start, h, o), L.StartCalls(start, h) + c;
      case Switch(cond, body) =>
        var o, c := LowerItems(body.items, h);
        out, calls := [CSwitch(cond.text, body.decls, o)], L.ExpressionCalls(cond, h) + c;
      case Case(choice) =>
        out, calls := [CCase(choice)], [];
      case JumpTo(jump) =>
        out, calls := [CJump(jump)], [];
      case Return(code) =>
        out, calls := [CReturn(code.text)], L.ExpressionCalls(code, h);
      case Try(_, _, _) =>
        var o := LowerTry(s, h);
        out, calls := if o.Some? then [o.value] else [], [];
    }

    method LowerIf(s: Stmt, h: Option<L.Handler>) returns (out: seq<CStmt>, calls: seq<L.Diagnostic>)
      requires s.If?
      modifies this
      ensures var l := L.LowerStmt(s, h, old(Supply()));
              Took(l) && calls == l.calls && (diagnostics == [] ==> out == l.items)
      decreases s, 0
    {
      ghost var names0, before := Supply(), diagnostics;
      var o, c := LowerStatement(s.thn, h);
      calls := L.ExpressionCalls(s.cond, h) + c;
      if s.els.None? {
        out := L.IfItems(s.cond.text, o);
      } else {
        ghost var l1 := L.LowerStmt(s.thn, h, names0);
        var o2, c2 := LowerStatement(s.els.value, h);
        assert diagnostics == before + (l1.tries + L.LowerStmt(s.els.value, h, l1.names).tries);
        IfElseUnfolds(s, h, names0);
        out, calls := L.IfElseItems(s.cond.text, o, o2), calls + c2;
      }
    }

    method LowerSimple(code: Code, h: Option<L.Handler>) returns (out: seq<CStmt>, calls: seq<L.Diagnostic>)
      ensures out == L.SimpleItems(code, h) && calls == L.SimpleCalls(code, h)
    {
      out, calls := [CRun(code.text)], [];
      if h.Some? {
        var call;
        call, calls := CheckStatement(code.calls);
        if call.Some? { out := L.CheckedStatement(code.text, call.value, h.value); }
      }
    }

    /** The loop over the throwing calls of one statement. */
    method CheckStatement(calls: seq<ThrowingCall>) returns (checked: Option<Convention>, reports: seq<L.Diagnostic>)
      ensures checked == CheckedCall(calls) && reports == L.StatementDiagnostics(calls, false)
    {
      checked, reports := None, [];
      for i := 0 to |calls|
        invariant CheckedCall(calls) == if checked.Some? then checked else CheckedCall(calls[i..])
        invariant L.StatementDiagnostics(calls, false) == reports + L.StatementDiagnostics(calls[i..], checked.Some?)
      {
        var call := calls[i];
        assert calls[i..][0] == call && calls[i..][1..] == calls[i + 1..];
        if IsManual(call) { continue; }
        if checked.Some? {
          reports := reports + [L.MultipleCheckedCalls];
        } else {
          checked := Some(call.convention);
          if !L.InContext(call) {
            reports := reports + [L.CallContext];
          } else if call.convention == ErrorOut && call.actual != call.declared - 1 {
            reports := reports + [L.ArgumentCount];
          }
        }
      }
    }

    method LowerTry(s: Stmt, h: Option<L.Handler>) returns (out: Option<CStmt>)
      requires s.Try?
      modifies this
      ensures var l := L.LowerStmt(s, h, old(Supply()));
              Took(l) && (diagnostics == [] ==> out.Some? && [out.value] == l.items)
      decreases s, 0
    {
      var complaint := L.Complaints(s.braced, s.arms, h);
      if complaint != [] {
        diagnostics := diagnostics + complaint;
        return None;
      }
      ghost var names0 := Supply();
      var status := Fresh("cplus_status");
      var catchLabel := Fresh("cplus_catch");
      var endLabel := Fresh("cplus_end");
      L.TryUnfolds(s, h, names0, status, catchLabel, endLabel, Supply());
      var body, dispatch := LowerTryParts(s, h, status, catchLabel);
      if diagnostics != [] { return None; }
      out := Some(L.TryStatement(status, catchLabel, endLabel, CBlock(s.body.decls, body), [dispatch]));
    }

    /** The body under the new handler, then the arms under the enclosing one. */
    method LowerTryParts(s: Stmt, h: Option<L.Handler>, status: string, catchLabel: string)
      returns (body: seq<CStmt>, dispatch: CStmt)
      requires s.Try?
      modifies this
      ensures var l := L.LowerStmts(s.body.items, Some(L.Handler(status, catchLabel)), old(Supply()));
              var la := L.LowerArms(s.arms, status, h, l.names);
              && Supply() == la.names && diagnostics == old(diagnostics) + (L.Diagnostics(l) + la.tries)
              && (diagnostics == [] ==> body == l.items && [dispatch] == la.items)
      decreases s, -1
    {
      body := LowerRegion(s.body.items, Some(L.Handler(status, catchLabel)));
      dispatch := LowerCatches(s.arms, status, h);
    }

    method LowerCatches(arms: seq<Arm>, status: string, h: Option<L.Handler>) returns (out: CStmt)
      modifies this
      ensures var l := L.LowerArms(arms, status, h, old(Supply()));
              Took(l) && (diagnostics == [] ==> [out] == l.items)
      decreases arms, 0
    {
      if arms == [] {
        out := if h.None? then CSkip
               else CBlock({}, [CCopy(h.value.status, status), CGoto(h.value.target)]);
        return;
      }
      var body := LowerCatchBody(arms[0], h);
      var test := if arms[0].codes.None? then Always else OneOf(status, arms[0].codes.value);
      var thn := L.ArmStatement(arms[0], status, body);
      if |arms| == 1 && arms[0].codes.None? {
        out := CIf(test, thn, CSkip);
      } else {
        var rest := LowerCatches(arms[1..], status, h);
        out := CIf(test, thn, CBlock({}, [rest]));
      }
    }

    method LowerCatchBody(arm: Arm, h: Option<L.Handler>) returns (out: seq<CStmt>)
      modifies this
      ensures var l := L.LowerArmBody(arm, h, old(Supply()));
              && Supply() == l.names && diagnostics == old(diagnostics) + L.Diagnostics(l)
              && (diagnostics == [] ==> out == l.items)
      decreases arm, 0
    {
      out := LowerRegion(arm.body.items, h);
    }
  }

  lemma IfElseUnfolds(s: Stmt, h: Option<L.Handler>, names: L.Names)
    requires s.If? && s.els.Some?
    ensures var l1 := L.LowerStmt(s.thn, h, names);
            var l2 := L.LowerStmt(s.els.value, h, l1.names);
            L.LowerStmt(s, h, names) ==
              L.Lowered(L.IfElseItems(s.cond.text, l1.items, l2.items), l2.names, l1.tries + l2.tries,
                        L.ExpressionCalls(s.cond, h) + l1.calls + l2.calls)
  {
  }

  /** One more statement moves from the part still to be lowered to the part done. */
  lemma ExtendRun(items: seq<Stmt>, i: nat, h: Option<L.Handler>, done: L.Lowered)
    requires i < |items|
    ensures var next := L.Then(done, L.LowerStmt(items[i], h, done.names));
            L.Then(done, L.LowerStmts(items[i..], h, done.names))
              == L.Then(next, L.LowerStmts(items[i + 1..], h, next.names))
  {
    assert items[i..][0] == items[i] && items[i..][1..] == items[i + 1..];
    var l := L.LowerStmt(items[i], h, done.names);
    ThenAssoc(done, l, L.LowerStmts(items[i + 1..], h, l.names));
  }

  lemma ThenAssoc(a: L.Lowered, b: L.Lowered, c: L.Lowered)
    ensures L.Then(a, L.Then(b, c)) == L.Then(L.Then(a, b), c)
  {
    assert a.items + (b.items + c.items) == a.items + b.items + c.items;
    assert a.tries + (b.tries + c.tries) == a.tries + b.tries + c.tries;
    assert a.calls + (b.calls + c.calls) == a.calls + b.calls + c.calls;
  }

  lemma ThenUnit(l: L.Lowered, names: L.Names)
    ensures L.Then(L.Lowered([], names, [], []), l) == l
  {
  }

  lemma ThenEnd(l: L.Lowered)
    ensures L.Then(l, L.LowerStmts([], None, l.names)) == l
  {
  }
}
