/**
 The @try lowering as a function of the tree, the enclosing handler and the name supply:
 what it emits, which names it takes and what it complains about.
 */
module TryCatchLowering {
  import opened Wrappers
  import opened FreshNames
  import opened TryCatchSource
  import opened TryCatchTarget

  datatype Diagnostic =
    | TryMalformed | CatchBinding | CatchAllOrder | CatchAllRequired
    | CallContext | MultipleCheckedCalls | ArgumentCount

  datatype Handler = Handler(status: string, target: string)

  datatype Names = Names(serial: nat, reserved: set<string>)

  ghost function Fresh(prefix: string, names: Names): (r: (string, Names))
    ensures r.0 !in names.reserved
    ensures r.1.reserved == names.reserved + {r.0}
  {
    var n := FirstFree(prefix, names.serial, names.reserved);
    (Numbered(prefix, n), Names(n + 1, names.reserved + {Numbered(prefix, n)}))
  }

  /**
   Result of lowering statements of one region. Diagnostics of nested @try statements are reported
   before those about calls of the region itself.
   */
  datatype Lowered = Lowered(items: seq<CStmt>, names: Names, tries: seq<Diagnostic>, calls: seq<Diagnostic>)

  function Diagnostics(l: Lowered): seq<Diagnostic>
  {
    l.tries + l.calls
  }

  function Then(a: Lowered, b: Lowered): Lowered
  {
    Lowered(a.items + b.items, b.names, a.tries + b.tries, a.calls + b.calls)
  }

  /* ---------- checked calls ---------- */

  predicate InContext(call: ThrowingCall)
  {
    call.suffixEmpty && (call.prefix == NoPrefix || (call.convention == ErrorOut && call.prefix == Assignment))
  }

  /** Diagnostics about the throwing calls of one complete statement. */
  function StatementDiagnostics(calls: seq<ThrowingCall>, handled: bool): seq<Diagnostic>
  {
    if calls == [] then []
    else if IsManual(calls[0]) then StatementDiagnostics(calls[1..], handled)
    else
      (if handled then [MultipleCheckedCalls]
       else if !InContext(calls[0]) then [CallContext]
       else if calls[0].convention == ErrorOut && calls[0].actual != calls[0].declared - 1 then [ArgumentCount]
       else [])
      + StatementDiagnostics(calls[1..], true)
  }

  /** Every throwing call outside a complete statement is rejected. */
  function ExpressionDiagnostics(calls: seq<ThrowingCall>): seq<Diagnostic>
  {
    seq(|calls|, i => CallContext)
  }

  /** A checked call with its status stored. */
  function CheckedRun(text: string, convention: Convention, h: Handler): (r: seq<CStmt>)
    ensures r != []
  {
    match convention
    case ErrorReturn => [CRunReturned(h.status, text)]
    case ErrorOut => [CSet(h.status, 0), CRunWritten(h.status, text)]
  }

  function TestStatus(h: Handler): CStmt
  {
    CIf(NonZero(h.status), CGoto(h.target), CSkip)
  }

  /** The statements that replace a statement whose call is checked. */
  function CheckedStatement(text: string, convention: Convention, h: Handler): seq<CStmt>
  {
    CheckedRun(text, convention, h) + [TestStatus(h)]
  }

  /* ---------- statements ---------- */

  /** The call that a complete statement checks under this handler. */
  function Checks(code: Code, h: Option<Handler>): Option<Convention>
  {
    if h.None? then None else CheckedCall(code.calls)
  }

  /** A complete statement, which is replaced by several if its call is checked. */
  function SimpleItems(code: Code, h: Option<Handler>): (r: seq<CStmt>)
    ensures r != []
  {
    if Checks(code, h).None? then [CRun(code.text)]
    else CheckedStatement(code.text, Checks(code, h).value, h.value)
  }

  function SimpleCalls(code: Code, h: Option<Handler>): seq<Diagnostic>
  {
    if h.None? then [] else StatementDiagnostics(code.calls, false)
  }

  /** Of the statements that replace a part without braces only the first stays where the part was. */
  function First(items: seq<CStmt>): CStmt
  {
    if items == [] then CSkip else items[0]
  }

  function Others(items: seq<CStmt>): seq<CStmt>
  {
    if items == [] then [] else items[1..]
  }

  function IfItems(cond: string, thn: seq<CStmt>): (r: seq<CStmt>)
    ensures r != []
  {
    [CIf(Text(cond), First(thn), CSkip)] + Others(thn)
  }

  /** The `else` belongs to whatever stands right before it. */
  function IfElseItems(cond: string, thn: seq<CStmt>, els: seq<CStmt>): seq<CStmt>
  {
    var up := IfItems(cond, thn);
    up[..|up| - 1] + [Attach(up[|up| - 1], First(els))] + Others(els)
  }

  /** Behind the body of a `do` loop stands its condition, and nothing else may. */
  function LoopItems(post: bool, cond: string, step: Option<string>, pass: seq<CStmt>): seq<CStmt>
  {
    if post && |pass| > 1 then [CNotC] else [CWhile(post, cond, step, First(pass))] + Others(pass)
  }

  /** A declaration that starts a `for` loop has to stay one. */
  function ForItems(decls: set<string>, start: Start, h: Option<Handler>, loop: seq<CStmt>): seq<CStmt>
  {
    if start.Declaration? && Checks(start.code, h).Some? then [CNotC]
    else [CFor(decls, start.code.text, First(loop))] + Others(loop)
  }

  ghost function LowerStmt(s: Stmt, h: Option<Handler>, names: Names): Lowered
    decreases s, 1
  {
    match s
    case Simple(code) => Lowered(SimpleItems(code, h), names, [], SimpleCalls(code, h))
    case Nested(block) =>
      var l := LowerStmts(block.items, h, names);
      l.(items := [CBlock(block.decls, l.items)])
    case If(cond, thn, els) =>
      var l1 := LowerStmt(thn, h, names);
      if els.None? then l1.(items := IfItems(cond.text, l1.items), calls := ExpressionCalls(cond, h) + l1.calls)
      else
        var l2 := LowerStmt(els.value, h, l1.names);
        Lowered(IfElseItems(cond.text, l1.items, l2.items), l2.names, l1.tries + l2.tries,
                ExpressionCalls(cond, h) + l1.calls + l2.calls)
    case While(post, cond, step, pass) =>
      var l := LowerStmt(pass, h, names);
      l.(items := LoopItems(post, cond.text, TextOf(step), l.items), calls := LoopCalls(post, cond, step, h, l.calls))
    case For(decls, start, loop) =>
      var l := LowerStmt(loop, h, names);
      l.(items := ForItems(decls, start, h, l.items), calls := StartCalls(start, h) + l.calls)
    case Switch(cond, body) =>
      var l := LowerStmts(body.items, h, names);
      Lowered([CSwitch(cond.text, body.decls, l.items)], l.names, l.tries, ExpressionCalls(cond, h) + l.calls)
    case Case(choice) => Lowered([CCase(choice)], names, [], [])
    case JumpTo(jump) => Lowered([CJump(jump)], names, [], [])
    case Return(code) => Lowered([CReturn(code.text)], names, [], ExpressionCalls(code, h))
    case Try(braced, body, arms) =>
      var complaint := Complaints(braced, arms, h);
      if complaint != [] then Lowered([], names, complaint, [])
      else
        var (status, n1) := Fresh("cplus_status", names);
        var (catchLabel, n2) := Fresh("cplus_catch", n1);
        var (endLabel, n3) := Fresh("cplus_end", n2);
        var l := LowerStmts(body.items, Some(Handler(status, catchLabel)), n3);
        var la := LowerArms(arms, status, h, l.names);
        Lowered([TryStatement(status, catchLabel, endLabel, CBlock(body.decls, l.items), la.items)],
                la.names, Diagnostics(l) + la.tries, [])
  }

  ghost function LowerStmts(items: seq<Stmt>, h: Option<Handler>, names: Names): Lowered
    decreases items, 0
  {
    if items == [] then Lowered([], names, [], [])
    else
      var l := LowerStmt(items[0], h, names);
      Then(l, LowerStmts(items[1..], h, l.names))
  }

  function ExpressionCalls(code: Code, h: Option<Handler>): seq<Diagnostic>
  {
    if h.None? then [] else ExpressionDiagnostics(code.calls)
  }

  /** A declaration counts as a complete statement. */
  function StartCalls(start: Start, h: Option<Handler>): seq<Diagnostic>
  {
    if start.Declaration? then SimpleCalls(start.code, h) else ExpressionCalls(start.code, h)
  }

  /** Calls are reported in the order in which they stand: a `do` loop tests behind its body. */
  function LoopCalls(post: bool, cond: Code, step: Option<Code>, h: Option<Handler>,
                     body: seq<Diagnostic>): seq<Diagnostic>
  {
    var own := ExpressionCalls(cond, h) + if step.None? then [] else ExpressionCalls(step.value, h);
    if post then body + own else own + body
  }

  /** What a @try is rejected for before its parts are looked at. */
  function Complaints(braced: bool, arms: seq<Arm>, h: Option<Handler>): seq<Diagnostic>
  {
    if !braced || arms == [] then [TryMalformed]
    else if BindingComplaints(arms) != [] then BindingComplaints(arms)
    else if exists i :: 0 <= i < |arms| - 1 && arms[i].codes.None? then [CatchAllOrder]
    else if h.None? && arms[|arms| - 1].codes.Some? then [CatchAllRequired]
    else []
  }

  function BindingComplaints(arms: seq<Arm>): seq<Diagnostic>
  {
    if arms == [] then []
    else (if arms[0].binding.None? then [CatchBinding] else []) + BindingComplaints(arms[1..])
  }

  function TryStatement(status: string, catchLabel: string, endLabel: string, body: CStmt, dispatch: seq<CStmt>): CStmt
  {
    CBlock({status}, [CSet(status, 0), body, CGoto(endLabel), CLabel(catchLabel)] + dispatch + [CLabel(endLabel)])
  }

  /**
   The if/else-if chain over the arms, as one statement; the arms' bodies are lowered in the scope
   of the enclosing handler. Without a catch-all the chain ends by forwarding to that handler.
   */
  ghost function LowerArms(arms: seq<Arm>, status: string, h: Option<Handler>, names: Names): Lowered
    decreases arms, 0
  {
    if arms == [] then
      Lowered([if h.None? then CSkip
               else CBlock({}, [CCopy(h.value.status, status), CGoto(h.value.target)])], names, [], [])
    else
      var l := LowerArmBody(arms[0], h, names);
      var test := if arms[0].codes.None? then Always else OneOf(status, arms[0].codes.value);
      var thn := ArmStatement(arms[0], status, l.items);
      if |arms| == 1 && arms[0].codes.None? then
        Lowered([CIf(test, thn, CSkip)], l.names, Diagnostics(l), [])
      else
        var rest := LowerArms(arms[1..], status, h, l.names);
        Lowered([CIf(test, thn, CBlock({}, rest.items))], rest.names, Diagnostics(l) + rest.tries, [])
  }

  ghost function LowerArmBody(arm: Arm, h: Option<Handler>, names: Names): Lowered
    decreases arm, 0
  {
    LowerStmts(arm.body.items, h, names)
  }

  /** The arm's braces belong to the if statement and also hold the binding. */
  function ArmStatement(arm: Arm, status: string, items: seq<CStmt>): CStmt
  {
    var name := if arm.binding.Some? then arm.binding.value else "";
    CBlock({name} + arm.body.decls, [CCopy(name, status)] + items)
  }

  /** The parts of an accepted @try under its three fresh names. */
  lemma TryUnfolds(s: Stmt, h: Option<Handler>, names0: Names, status: string, catchLabel: string, endLabel: string,
                   names: Names)
    requires s.Try? && Complaints(s.braced, s.arms, h) == []
    requires var (a, n1) := Fresh("cplus_status", names0); var (b, n2) := Fresh("cplus_catch", n1);
             (status, catchLabel) == (a, b) && Fresh("cplus_end", n2) == (endLabel, names)
    ensures var l := LowerStmts(s.body.items, Some(Handler(status, catchLabel)), names);
            var la := LowerArms(s.arms, status, h, l.names);
            LowerStmt(s, h, names0) ==
              Lowered([TryStatement(status, catchLabel, endLabel, CBlock(s.body.decls, l.items), la.items)],
                        la.names, Diagnostics(l) + la.tries, [])
  {
  }
}
