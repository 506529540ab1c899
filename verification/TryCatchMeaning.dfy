/**
 The lowering preserves meaning: on every accepted program, environment, input and loop bound, the
 emitted C makes the same calls and ends in the same way as the structured reading.
 */
module TryCatchMeaning {
  import opened Wrappers
  import opened TryCatchSource
  import opened TryCatchTarget
  import opened TryCatchLowering

  /* ---------- which programs are accepted ---------- */

  predicate ThrowsNothing(code: Code) { code.calls == [] }

  /** At most one call is left to the compiler, and it stands where its status can be taken. */
  ghost predicate Checkable(calls: seq<ThrowingCall>)
  {
    && (forall i, j | 0 <= i < j < |calls| :: IsManual(calls[i]) || IsManual(calls[j]))
    && (forall i | 0 <= i < |calls| && !IsManual(calls[i]) ::
          InContext(calls[i]) && (calls[i].convention == ErrorOut ==> calls[i].actual == calls[i].declared - 1))
  }

  ghost predicate WellFormed(s: Stmt, checked: bool)
    decreases s, 1
  {
    match s
    case Simple(code) => checked ==> Checkable(code.calls)
    case Nested(block) => AllWellFormed(block.items, checked)
    case If(cond, thn, els) =>
      && (checked ==> ThrowsNothing(cond)) && WellFormed(thn, checked)
      && (els.Some? ==> WellFormed(els.value, checked))
    case While(_, cond, step, pass) =>
      (checked ==> ThrowsNothing(cond) && (step.Some? ==> ThrowsNothing(step.value))) && WellFormed(pass, checked)
    case For(_, start, loop) =>
      && (checked ==> if start.Declaration? then Checkable(start.code.calls) else ThrowsNothing(start.code))
      && WellFormed(loop, checked)
    case Switch(cond, body) => (checked ==> ThrowsNothing(cond)) && AllWellFormed(body.items, checked)
    case Case(_) => true
    case JumpTo(_) => true
    case Return(code) => checked ==> ThrowsNothing(code)
    case Try(braced, body, arms) =>
      && braced && arms != []
      && AllWellFormed(body.items, true)
      && ArmsWellFormed(arms, checked)
  }

  ghost predicate AllWellFormed(items: seq<Stmt>, checked: bool)
    decreases items, 0
  {
    items != [] ==> WellFormed(items[0], checked) && AllWellFormed(items[1..], checked)
  }

  /** Each arm binds the status, only the last may catch all, and outside any @try the last one must. */
  ghost predicate ArmsWellFormed(arms: seq<Arm>, checked: bool)
    decreases arms, 0
  {
    if arms == [] then checked
    else
      && arms[0].binding.Some?
      && ArmBodyWellFormed(arms[0], checked)
      && (if arms[0].codes.None? then |arms| == 1 else ArmsWellFormed(arms[1..], checked))
  }

  ghost predicate ArmBodyWellFormed(arm: Arm, checked: bool)
    decreases arm, 0
  {
    AllWellFormed(arm.body.items, checked)
  }

  /* ---------- parts without braces ---------- */

  /** A complete statement whose checked call is made through an error pointer. */
  predicate ByPointer(s: Stmt, checked: bool)
  {
    checked && s.Simple? && CheckedCall(s.code.calls) == Some(ErrorOut)
  }

  /** What replaces the statement ends in a test of the status that no brace holds together with the call. */
  predicate Spills(s: Stmt, checked: bool)
  {
    match s
    case Simple(code) => checked && CheckedCall(code.calls).Some?
    case If(_, thn, els) => Spills(thn, checked) || (els.Some? && Spills(els.value, checked))
    case While(_, _, _, pass) => Spills(pass, checked)
    case For(_, _, loop) => Spills(loop, checked)
    case _ => false
  }

  /** The declaration that starts a loop makes a checked call. */
  predicate Starts(start: Start, checked: bool)
  {
    checked && start.Declaration? && CheckedCall(start.code.calls).Some?
  }

  /** Parts without braces stay what they are when a checked call among them is replaced. */
  ghost predicate Fits(s: Stmt, checked: bool)
    decreases s, 1
  {
    match s
    case Nested(block) => AllFit(block.items, checked)
    case If(_, thn, els) =>
      && Fits(thn, checked) && !ByPointer(thn, checked)
      && (els.Some? ==> !Spills(thn, checked) && Fits(els.value, checked) && !ByPointer(els.value, checked))
    case While(_, _, _, pass) => Fits(pass, checked) && !Spills(pass, checked)
    case For(_, start, loop) => Fits(loop, checked) && !Starts(start, checked)
    case Switch(_, body) => AllFit(body.items, checked)
    case Try(_, body, arms) => AllFit(body.items, true) && forall a <- arms :: ArmFits(a, checked)
    case _ => true
  }

  ghost predicate AllFit(items: seq<Stmt>, checked: bool)
    decreases items, 0
  {
    forall s <- items :: Fits(s, checked)
  }

  ghost predicate ArmFits(arm: Arm, checked: bool)
    decreases arm, 0
  {
    AllFit(arm.body.items, checked)
  }

  /* ---------- what a parser hands over ---------- */

  /** An `else` behind the statement would belong to an `if` in it. */
  predicate Dangles(s: Stmt)
  {
    match s
    case If(_, _, els) => els.None? || Dangles(els.value)
    case While(post, _, _, pass) => !post && Dangles(pass)
    case For(_, _, loop) => Dangles(loop)
    case _ => false
  }

  /** Names that are declared are among the program's, an `else` has its `if`, and `for` starts a loop. */
  ghost predicate Parsed(s: Stmt, user: set<string>)
    decreases s, 1
  {
    match s
    case Nested(block) => BlockParsed(block, user)
    case If(_, thn, els) => Parsed(thn, user) && (els.Some? ==> Parsed(els.value, user) && !Dangles(thn))
    case While(_, _, _, pass) => Parsed(pass, user)
    case For(decls, _, loop) => decls <= user && loop.While? && !loop.post && Parsed(loop, user)
    case Switch(_, body) => BlockParsed(body, user)
    case Try(_, body, arms) => BlockParsed(body, user) && forall a <- arms :: ArmParsed(a, user)
    case _ => true
  }

  ghost predicate BlockParsed(b: Block, user: set<string>)
    decreases b, 0
  {
    b.decls <= user && forall s <- b.items :: Parsed(s, user)
  }

  ghost predicate ArmParsed(a: Arm, user: set<string>)
    decreases a, 0
  {
    (a.binding.Some? ==> a.binding.value in user) && BlockParsed(a.body, user)
  }

  /* ---------- corresponding states and results ---------- */

  ghost predicate Agree(a: State, b: State, user: set<string>)
  {
    Restrict(a.vars, user) == Restrict(b.vars, user) && a.trace == b.trace
  }

  /** The handler's variable holds no status. */
  ghost predicate Clear(ct: State, h: Option<Handler>)
  {
    h.Some? ==> Read(ct, h.value.status) == 0
  }

  ghost function Own(h: Option<Handler>): set<string>
  {
    if h.None? then {} else {h.value.status}
  }

  /** Variables that are neither the program's nor in `own` keep their values. */
  ghost predicate Keeps(before: State, after: State, own: set<string>, user: set<string>)
  {
    forall x | x !in user && x !in own :: Read(after, x) == Read(before, x)
  }

  /** A raised status appears in the emitted C as a jump to the handler with the status in its variable. */
  ghost predicate Ends(r: Result, c: CResult, h: Option<Handler>, user: set<string>)
  {
    && (r.None? <==> c.None?)
    && (r.Some? ==>
          && Agree(r.value.1, c.value.1, user)
          && (!r.value.0.Raised? ==> Clear(c.value.1, h))
          && match r.value.0
             case Normal => c.value.0 == CNormal
             case Jumped(j) => c.value.0 == CJumped(j)
             case Returned(v) => c.value.0 == CReturned(v)
             case Raised(s) =>
               h.Some? && s != 0 && c.value.0 == CWent(h.value.target) && Read(c.value.1, h.value.status) == s)
  }

  /** The emitted C started at `ct` ends as it should and touches no generated variable but the handler's. */
  ghost predicate Corresponds(r: Result, c: CResult, ct: State, h: Option<Handler>, user: set<string>)
  {
    Ends(r, c, h, user) && (c.Some? ==> Keeps(ct, c.value.1, Own(h), user))
  }

  ghost predicate HandlerFits(h: Option<Handler>, user: set<string>, names: Names)
  {
    && user <= names.reserved
    && (h.Some? ==> h.value.status in names.reserved - user && h.value.target in names.reserved)
  }

  lemma RunAgrees(env: Env, user: set<string>, text: string, a: State, b: State)
    requires Agree(a, b, user)
    ensures RunText(env, user, text, a).1 == RunText(env, user, text, b).1
    ensures Agree(RunText(env, user, text, a).0, RunText(env, user, text, b).0, user)
    ensures Keeps(b, RunText(env, user, text, b).0, {}, user)
  {
    var eff := RunText(env, user, text, a).1;
    assert Restrict((a.vars - user) + Restrict(eff.vars, user), user) == Restrict(eff.vars, user);
    assert Restrict((b.vars - user) + Restrict(eff.vars, user), user) == Restrict(eff.vars, user);
  }

  lemma TestedAgrees(env: Env, user: set<string>, post: bool, cond: string, a: State, b: State)
    requires Agree(a, b, user)
    ensures Tested(env, user, post, cond, a).0 == Tested(env, user, post, cond, b).0
    ensures Agree(Tested(env, user, post, cond, a).1, Tested(env, user, post, cond, b).1, user)
    ensures Keeps(b, Tested(env, user, post, cond, b).1, {}, user)
  {
    RunAgrees(env, user, cond, a, b);
  }

  lemma SteppedAgrees(env: Env, user: set<string>, step: Option<string>, a: State, b: State)
    requires Agree(a, b, user)
    ensures Agree(Stepped(env, user, step, a), Stepped(env, user, step, b), user)
    ensures Keeps(b, Stepped(env, user, step, b), {}, user)
  {
    if step.Some? { RunAgrees(env, user, step.value, a, b); }
  }

  lemma AgreeAt(a: State, b: State, user: set<string>, x: string)
    requires Agree(a, b, user) && x in user
    ensures x in a.vars <==> x in b.vars
    ensures x in a.vars ==> a.vars[x] == b.vars[x]
  {
    assert x in a.vars <==> x in Restrict(a.vars, user);
    assert x in b.vars <==> x in Restrict(b.vars, user);
    if x in a.vars {
      assert Restrict(a.vars, user)[x] == Restrict(b.vars, user)[x];
    }
  }

  lemma PointwiseAgree(a: State, b: State, user: set<string>)
    requires a.trace == b.trace
    requires forall x | x in user :: (x in a.vars <==> x in b.vars) && (x in a.vars ==> a.vars[x] == b.vars[x])
    ensures Agree(a, b, user)
  {
    assert Restrict(a.vars, user) == Restrict(b.vars, user);
  }

  lemma AssignAgrees(a: State, b: State, user: set<string>, name: string, value: int)
    requires Agree(a, b, user)
    ensures Agree(Assign(a, name, value), Assign(b, name, value), user)
    ensures name !in user ==> Agree(a, Assign(b, name, value), user)
  {
    forall x | x in user { AgreeAt(a, b, user, x); }
    PointwiseAgree(Assign(a, name, value), Assign(b, name, value), user);
    if name !in user { PointwiseAgree(a, Assign(b, name, value), user); }
  }

  lemma LeaveAgrees(a0: State, b0: State, a1: State, b1: State, decls: set<string>, user: set<string>)
    requires Agree(a0, b0, user) && Agree(a1, b1, user)
    ensures Agree(Leave(a0, a1, decls), Leave(b0, b1, decls), user)
    ensures forall x :: Read(Leave(b0, b1, decls), x) == Read(if x in decls then b0 else b1, x)
    ensures decls !! user ==> Agree(a1, Leave(b0, b1, decls), user)
  {
    forall x | x in user { AgreeAt(a0, b0, user, x); }
    forall x | x in user { AgreeAt(a1, b1, user, x); }
    PointwiseAgree(Leave(a0, a1, decls), Leave(b0, b1, decls), user);
    if decls !! user { PointwiseAgree(a1, Leave(b0, b1, decls), user); }
  }

  /* ---------- running emitted lists ---------- */

  ghost predicate NoLabels(items: seq<CStmt>)
  {
    forall i | 0 <= i < |items| :: !items[i].CLabel?
  }

  ghost function AndThen(env: Env, user: set<string>, r: CResult, rest: seq<CStmt>, fuel: nat): CResult
  {
    if r.Some? && r.value.0.CNormal? then CExecFrom(env, user, rest, 0, fuel, r.value.1) else r
  }

  lemma {:induction false} ExecShift(env: Env, user: set<string>, a: seq<CStmt>, b: seq<CStmt>, i: nat, fuel: nat,
                                     st: State)
    requires NoLabels(a + b) && i <= |b|
    ensures CExecFrom(env, user, a + b, |a| + i, fuel, st) == CExecFrom(env, user, b, i, fuel, st)
    decreases |b| - i
  {
    if i < |b| {
      assert (a + b)[|a| + i] == b[i];
      var r := CExec(env, user, b[i], fuel, st);
      if r.Some? && r.value.0.CNormal? {
        ExecShift(env, user, a, b, i + 1, fuel, r.value.1);
      }
      assert NoLabels(b) by { forall k | 0 <= k < |b| ensures !b[k].CLabel? { assert (a + b)[|a| + k] == b[k]; } }
    }
  }

  lemma {:induction false} ExecAppendFrom(env: Env, user: set<string>, a: seq<CStmt>, b: seq<CStmt>, i: nat, fuel: nat,
                                          st: State)
    requires NoLabels(a + b) && i <= |a|
    ensures CExecFrom(env, user, a + b, i, fuel, st)
         == AndThen(env, user, CExecFrom(env, user, a, i, fuel, st), b, fuel)
    decreases |a| - i
  {
    if i == |a| {
      ExecShift(env, user, a, b, 0, fuel, st);
    } else {
      assert (a + b)[i] == a[i];
      var r := CExec(env, user, a[i], fuel, st);
      if r.Some? && r.value.0.CNormal? {
        ExecAppendFrom(env, user, a, b, i + 1, fuel, r.value.1);
      }
      assert NoLabels(a) by { forall k | 0 <= k < |a| ensures !a[k].CLabel? { assert (a + b)[k] == a[k]; } }
    }
  }

  lemma ExecOne(env: Env, user: set<string>, c: CStmt, fuel: nat, st: State)
    requires !c.CLabel?
    ensures CExecFrom(env, user, [c], 0, fuel, st) == CExec(env, user, c, fuel, st)
  {
    var r := CExec(env, user, c, fuel, st);
    if r.Some? && r.value.0.CNormal? {
      assert CExecFrom(env, user, [c], 1, fuel, r.value.1) == Some((CNormal, r.value.1));
    }
  }

  lemma ExecHead(env: Env, user: set<string>, c: CStmt, tail: seq<CStmt>, fuel: nat, st: State)
    requires NoLabels([c] + tail)
    ensures CExecFrom(env, user, [c] + tail, 0, fuel, st)
         == AndThen(env, user, CExec(env, user, c, fuel, st), tail, fuel)
  {
    assert ([c] + tail)[0] == c;
    ExecAppendFrom(env, user, [c], tail, 0, fuel, st);
    ExecOne(env, user, c, fuel, st);
  }

  lemma NoLabelInSimple(code: Code, h: Option<Handler>)
    ensures forall c <- SimpleItems(code, h) :: !c.CLabel? && !c.CCase?
  {
  }

  lemma AttachIsNoLabel(c: CStmt, els: CStmt)
    ensures !Attach(c, els).CLabel? && !Attach(c, els).CCase?
  {
  }

  lemma {:induction false} NoLabelEmitted(s: Stmt, h: Option<Handler>, names: Names)
    ensures NoLabels(LowerStmt(s, h, names).items)
    ensures forall c <- LowerStmt(s, h, names).items :: c.CCase? ==> s.Case? && c.choice == s.choice
    decreases s
  {
    match s
    case Simple(code) => NoLabelInSimple(code, h);
    case If(cond, thn, els) =>
      var l := LowerStmt(thn, h, names);
      NoLabelEmitted(thn, h, names);
      NoneBehindFirst(thn, l.items);
      if els.Some? {
        var l2 := LowerStmt(els.value, h, l.names);
        NoLabelEmitted(els.value, h, l.names);
        NoneBehindFirst(els.value, l2.items);
        NoLabelInIf(cond.text, l.items, l2.items);
      }
    case While(post, cond, step, pass) =>
      NoLabelEmitted(pass, h, names);
      NoneBehindFirst(pass, LowerStmt(pass, h, names).items);
    case For(decls, start, loop) =>
      NoLabelEmitted(loop, h, names);
      NoneBehindFirst(loop, LowerStmt(loop, h, names).items);
    case Nested(_) =>
    case Switch(_, _) =>
    case Case(_) =>
    case JumpTo(_) =>
    case Return(_) =>
    case Try(_, _, _) =>
  }

  /** A case label is all that it is replaced by. */
  lemma NoneBehindFirst(s: Stmt, items: seq<CStmt>)
    requires NoLabels(items) && (forall c <- items :: c.CCase? ==> s.Case? && c.choice == s.choice)
    requires s.Case? ==> items == [CCase(s.choice)]
    ensures NoLabels(Others(items)) && NoCases(Others(items))
  {
  }

  ghost predicate NoCases(items: seq<CStmt>)
  {
    forall c <- items :: !c.CCase?
  }

  lemma NoLabelInIf(cond: string, thn: seq<CStmt>, els: seq<CStmt>)
    requires NoLabels(Others(thn)) && NoCases(Others(thn)) && NoLabels(Others(els)) && NoCases(Others(els))
    ensures NoLabels(IfElseItems(cond, thn, els)) && NoCases(IfElseItems(cond, thn, els))
  {
    var up := IfItems(cond, thn);
    AttachIsNoLabel(up[|up| - 1], First(els));
    assert NoCases(up);
  }

  lemma {:induction false} LoweredHasNoLabels(items: seq<Stmt>, h: Option<Handler>, names: Names)
    ensures NoLabels(LowerStmts(items, h, names).items)
  {
    if items != [] {
      NoLabelEmitted(items[0], h, names);
      LoweredHasNoLabels(items[1..], h, LowerStmt(items[0], h, names).names);
    }
  }

  /* ---------- the name supply only grows ---------- */

  lemma {:induction false} StmtNamesGrow(s: Stmt, h: Option<Handler>, names: Names)
    ensures names.reserved <= LowerStmt(s, h, names).names.reserved
    decreases s, 1
  {
    match s
    case Nested(block) => NamesGrow(block.items, h, names);
    case If(_, thn, els) =>
      StmtNamesGrow(thn, h, names);
      if els.Some? { StmtNamesGrow(els.value, h, LowerStmt(thn, h, names).names); }
    case While(_, _, _, pass) => StmtNamesGrow(pass, h, names);
    case For(_, _, loop) => StmtNamesGrow(loop, h, names);
    case Switch(_, body) => NamesGrow(body.items, h, names);
    case Try(braced, body, arms) =>
      if Complaints(braced, arms, h) == [] {
        var (status, n1) := Fresh("cplus_status", names);
        var (catchLabel, n2) := Fresh("cplus_catch", n1);
        var (endLabel, n3) := Fresh("cplus_end", n2);
        NamesGrow(body.items, Some(Handler(status, catchLabel)), n3);
        ArmNamesGrow(arms, status, h, LowerStmts(body.items, Some(Handler(status, catchLabel)), n3).names);
      }
    case _ =>
  }

  lemma {:induction false} NamesGrow(items: seq<Stmt>, h: Option<Handler>, names: Names)
    ensures names.reserved <= LowerStmts(items, h, names).names.reserved
    decreases items, 0
  {
    if items != [] {
      StmtNamesGrow(items[0], h, names);
      NamesGrow(items[1..], h, LowerStmt(items[0], h, names).names);
    }
  }

  lemma {:induction false} ArmNamesGrow(arms: seq<Arm>, status: string, h: Option<Handler>, names: Names)
    ensures names.reserved <= LowerArms(arms, status, h, names).names.reserved
    decreases arms, 0
  {
    if arms != [] {
      ArmBodyNamesGrow(arms[0], h, names);
      ArmNamesGrow(arms[1..], status, h, LowerArmBody(arms[0], h, names).names);
    }
  }

  lemma {:induction false} ArmBodyNamesGrow(arm: Arm, h: Option<Handler>, names: Names)
    ensures names.reserved <= LowerArmBody(arm, h, names).names.reserved
    decreases arm, 0
  {
    NamesGrow(arm.body.items, h, names);
  }

  /* ---------- simulation ---------- */

  lemma LeaveCorresponds(user: set<string>, decls: set<string>, h: Option<Handler>, r: Result, c: CResult, st: State,
                         ct: State)
    requires decls <= user && Agree(st, ct, user)
    requires h.Some? ==> h.value.status !in user
    requires Corresponds(r, c, ct, h, user)
    ensures Corresponds(LeaveResult(st, r, decls), CLeaveResult(ct, c, decls), ct, h, user)
  {
    if r.Some? {
      LeaveAgrees(st, ct, r.value.1, c.value.1, decls, user);
    }
  }

  lemma CheckedCorresponds(env: Env, user: set<string>, code: Code, convention: Convention, h: Handler, fuel: nat,
                           st: State, ct: State)
    requires CheckedCall(code.calls) == Some(convention)
    requires Agree(st, ct, user) && h.status !in user
    ensures Corresponds(ExecSimple(env, user, code, true, st),
                        CExecFrom(env, user, CheckedStatement(code.text, convention, h), 0, fuel, ct), ct, Some(h),
                        user)
  {
    var run, test := CheckedRun(code.text, convention, h), TestStatus(h);
    var ct' := CallIsStored(env, user, code.text, convention, h, fuel, st, ct);
    ExecAppendFrom(env, user, run, [test], 0, fuel, ct);
    TestJumps(env, user, [test], h, fuel, ct');
  }

  /** The call leaves its status, or that it has none, in the handler's variable. */
  lemma CallIsStored(env: Env, user: set<string>, text: string, convention: Convention, h: Handler, fuel: nat,
                     st: State, ct: State) returns (ct': State)
    requires Agree(st, ct, user) && h.status !in user
    ensures CExecFrom(env, user, CheckedRun(text, convention, h), 0, fuel, ct) == Some((CNormal, ct'))
    ensures Agree(RunText(env, user, text, st).0, ct', user) && Keeps(ct, ct', {h.status}, user)
    ensures Read(ct', h.status) == StatusOf(convention, RunText(env, user, text, st).1)
  {
    var run := CheckedRun(text, convention, h);
    var ct0 := if convention == ErrorOut then Assign(ct, h.status, 0) else ct;
    AssignAgrees(st, ct, user, h.status, 0);
    RunAgrees(env, user, text, st, ct0);
    var (st1, eff) := RunText(env, user, text, st);
    var ct1 := RunText(env, user, text, ct0).0;
    var status := StatusOf(convention, eff);
    AssignAgrees(st1, ct1, user, h.status, status);
    ct' := CExec(env, user, run[|run| - 1], fuel, ct0).value.1;
    assert ct' == Assign(ct1, h.status, status) || ct' == ct1;
    if convention == ErrorOut { StepOn(env, user, run, 0, fuel, ct, ct0); }
    StepOn(env, user, run, |run| - 1, fuel, ct0, ct');
  }

  /** The test after a checked call leaves for the handler exactly when the status is not zero. */
  lemma TestJumps(env: Env, user: set<string>, items: seq<CStmt>, h: Handler, fuel: nat, st: State)
    requires NoLabels(items) && items != []
    requires items[|items| - 1] == TestStatus(h)
    ensures CExecFrom(env, user, items, |items| - 1, fuel, st)
         == Some((if Read(st, h.status) != 0 then CWent(h.target) else CNormal, st))
  {
    if Read(st, h.status) != 0 {
      assert CExec(env, user, CGoto(h.target), fuel, st) == Some((CWent(h.target), st));
    } else {
      StepOn(env, user, items, |items| - 1, fuel, st, st);
    }
  }

  lemma SimpleCorresponds(env: Env, user: set<string>, code: Code, h: Option<Handler>, fuel: nat, st: State, ct: State)
    requires Agree(st, ct, user) && Clear(ct, h) && (h.Some? ==> h.value.status !in user)
    ensures Corresponds(ExecSimple(env, user, code, h.Some?, st),
                        CExecFrom(env, user, SimpleItems(code, h), 0, fuel, ct), ct, h, user)
  {
    if Checks(code, h).Some? {
      CheckedCorresponds(env, user, code, CheckedCall(code.calls).value, h.value, fuel, st, ct);
    } else {
      ExecOne(env, user, CRun(code.text), fuel, ct);
      RunAgrees(env, user, code.text, st, ct);
    }
  }

  /** Behind a call without a brace stands nothing, or a test that does nothing while there is no status. */
  ghost predicate Idle(items: seq<CStmt>, h: Option<Handler>)
  {
    items == [] || (h.Some? && items == [TestStatus(h.value)])
  }

  lemma IdleRuns(env: Env, user: set<string>, items: seq<CStmt>, h: Option<Handler>, fuel: nat, st: State)
    requires Idle(items, h) && Clear(st, h)
    ensures CExecFrom(env, user, items, 0, fuel, st) == Some((CNormal, st))
  {
    if items != [] { TestJumps(env, user, items, h.value, fuel, st); }
  }

  /** One statement, or one with an idle test behind it. */
  ghost predicate Shapes(s: Stmt, h: Option<Handler>, items: seq<CStmt>)
  {
    && items != [] && NoLabels(items) && !items[0].CSkip?
    && (Spills(s, h.Some?) <==> |items| > 1)
    && (!ByPointer(s, h.Some?) ==> Idle(Others(items), h))
    && (|items| == 1 && !Dangles(s) ==> !Open(items[0]))
  }

  lemma ShapeOfSimple(code: Code, h: Option<Handler>)
    ensures Shapes(Simple(code), h, SimpleItems(code, h))
  {
    match Checks(code, h)
    case None =>
    case Some(ErrorReturn) =>
      assert SimpleItems(code, h) == [CRunReturned(h.value.status, code.text), TestStatus(h.value)];
    case Some(ErrorOut) =>
      assert SimpleItems(code, h)
          == [CSet(h.value.status, 0), CRunWritten(h.value.status, code.text), TestStatus(h.value)];
  }

  lemma ShapeOfIf(s: Stmt, h: Option<Handler>, thn: seq<CStmt>)
    requires s.If? && s.els.None? && Shapes(s.thn, h, thn) && !ByPointer(s.thn, h.Some?)
    ensures Shapes(s, h, IfItems(s.cond.text, thn))
  {
    assert IfItems(s.cond.text, thn) == [CIf(Text(s.cond.text), thn[0], CSkip)] + Others(thn);
  }

  lemma ShapeOfIfElse(s: Stmt, h: Option<Handler>, thn: seq<CStmt>, els: seq<CStmt>)
    requires s.If? && s.els.Some? && Shapes(s.thn, h, thn) && Shapes(s.els.value, h, els) && !Dangles(s.thn)
    requires !ByPointer(s.thn, h.Some?) && !Spills(s.thn, h.Some?) && !ByPointer(s.els.value, h.Some?)
    ensures Shapes(s, h, IfElseItems(s.cond.text, thn, els))
  {
    IfElseIs(s.cond.text, thn, els);
    assert NoLabels([CIf(Text(s.cond.text), thn[0], els[0])] + els[1..]);
  }

  lemma ShapeOfLoop(s: Stmt, h: Option<Handler>, pass: seq<CStmt>)
    requires s.While? && Shapes(s.pass, h, pass) && !Spills(s.pass, h.Some?)
    ensures Shapes(s, h, LoopItems(s.post, s.cond.text, TextOf(s.step), pass))
  {
    assert LoopItems(s.post, s.cond.text, TextOf(s.step), pass)
        == [CWhile(s.post, s.cond.text, TextOf(s.step), pass[0])];
  }

  lemma ShapeOfFor(s: Stmt, h: Option<Handler>, loop: seq<CStmt>)
    requires s.For? && s.loop.While? && Shapes(s.loop, h, loop) && !Starts(s.start, h.Some?)
    ensures Shapes(s, h, ForItems(s.decls, s.start, h, loop))
  {
    assert ForItems(s.decls, s.start, h, loop) == [CFor(s.decls, s.start.code.text, loop[0])] + Others(loop);
  }

  /** How a statement whose parts fit is replaced. */
  lemma {:induction false} Shape(s: Stmt, h: Option<Handler>, names: Names, user: set<string>)
    requires WellFormed(s, h.Some?) && Fits(s, h.Some?) && Parsed(s, user)
    ensures Shapes(s, h, LowerStmt(s, h, names).items)
    decreases s
  {
    match s
    case Simple(code) => ShapeOfSimple(code, h);
    case If(cond, thn, els) =>
      var l := LowerStmt(thn, h, names);
      Shape(thn, h, names, user);
      if els.Some? {
        Shape(els.value, h, l.names, user);
        ShapeOfIfElse(s, h, l.items, LowerStmt(els.value, h, l.names).items);
      } else {
        ShapeOfIf(s, h, l.items);
      }
    case While(_, _, _, pass) =>
      Shape(pass, h, names, user);
      ShapeOfLoop(s, h, LowerStmt(pass, h, names).items);
    case For(_, _, loop) =>
      Shape(loop, h, names, user);
      ShapeOfFor(s, h, LowerStmt(loop, h, names).items);
    case Try(braced, _, arms) => NoComplaints(braced, arms, h);
    case _ =>
  }

  lemma IfElseIs(cond: string, thn: seq<CStmt>, els: seq<CStmt>)
    requires |thn| == 1 && !Open(thn[0])
    ensures IfElseItems(cond, thn, els) == [CIf(Text(cond), thn[0], First(els))] + Others(els)
  {
    assert IfItems(cond, thn) == [CIf(Text(cond), thn[0], CSkip)];
  }

  lemma {:induction false} StmtCorresponds(env: Env, user: set<string>, s: Stmt, h: Option<Handler>, names: Names,
                                           fuel: nat, st: State, ct: State)
    requires WellFormed(s, h.Some?) && Fits(s, h.Some?) && Parsed(s, user) && HandlerFits(h, user, names)
    requires Agree(st, ct, user) && Clear(ct, h)
    ensures Corresponds(ExecStmt(env, user, s, h.Some?, fuel, st),
                        CExecFrom(env, user, LowerStmt(s, h, names).items, 0, fuel, ct), ct, h, user)
    decreases fuel, s, 2
  {
    match s
    case Simple(code) => SimpleCorresponds(env, user, code, h, fuel, st, ct);
    case Nested(block) =>
      BlockCorresponds(env, user, block, h, names, fuel, st, ct);
      ExecOne(env, user, CBlock(block.decls, LowerStmts(block.items, h, names).items), fuel, ct);
    case If(_, _, _) => IfCorresponds(env, user, s, h, names, fuel, st, ct);
    case While(_, _, _, _) => WhileCorresponds(env, user, s, h, names, fuel, st, ct);
    case For(_, _, _) => ForCorresponds(env, user, s, h, names, fuel, st, ct);
    case Switch(_, _) => SwitchCorresponds(env, user, s, h, names, fuel, st, ct);
    case Case(choice) => ExecOne(env, user, CCase(choice), fuel, ct);
    case JumpTo(jump) => ExecOne(env, user, CJump(jump), fuel, ct);
    case Return(code) =>
      RunAgrees(env, user, code.text, st, ct);
      ExecOne(env, user, CReturn(code.text), fuel, ct);
    case Try(_, _, _) => TryCorresponds(env, user, s, h, names, fuel, st, ct);
  }

  lemma {:induction false} IfCorresponds(env: Env, user: set<string>, s: Stmt, h: Option<Handler>, names: Names,
                                         fuel: nat, st: State, ct: State)
    requires s.If? && WellFormed(s, h.Some?) && Fits(s, h.Some?) && Parsed(s, user)
    requires HandlerFits(h, user, names) && Agree(st, ct, user) && Clear(ct, h)
    ensures Corresponds(ExecStmt(env, user, s, h.Some?, fuel, st),
                        CExecFrom(env, user, LowerStmt(s, h, names).items, 0, fuel, ct), ct, h, user)
    decreases fuel, s, 1
  {
    RunAgrees(env, user, s.cond.text, st, ct);
    var (st', eff) := RunText(env, user, s.cond.text, st);
    var ct' := RunText(env, user, s.cond.text, ct).0;
    var l := LowerStmt(s.thn, h, names);
    StmtNamesGrow(s.thn, h, names);
    if eff.returned != 0 {
      StmtCorresponds(env, user, s.thn, h, names, fuel, st', ct');
    } else if s.els.Some? {
      StmtCorresponds(env, user, s.els.value, h, l.names, fuel, st', ct');
    }
    Shape(s.thn, h, names, user);
    if s.els.Some? {
      var els := LowerStmt(s.els.value, h, l.names).items;
      Shape(s.els.value, h, l.names, user);
      IfElseIs(s.cond.text, l.items, els);
      var taken := if eff.returned != 0 then s.thn else s.els.value;
      IfElseRuns(env, user, s.cond.text, l.items, els, h, fuel, ct, ExecStmt(env, user, taken, h.Some?, fuel, st'));
    } else {
      IfRuns(env, user, s.cond.text, l.items, h, fuel, ct);
    }
  }

  /** Without an `else`: the branch runs whole, or not at all. */
  lemma IfRuns(env: Env, user: set<string>, cond: string, thn: seq<CStmt>, h: Option<Handler>, fuel: nat, ct: State)
    requires thn != [] && NoLabels(thn) && Idle(Others(thn), h)
    requires Clear(RunText(env, user, cond, ct).0, h)
    ensures var (ct', eff) := RunText(env, user, cond, ct);
            CExecFrom(env, user, IfItems(cond, thn), 0, fuel, ct)
              == if eff.returned != 0 then CExecFrom(env, user, thn, 0, fuel, ct') else Some((CNormal, ct'))
  {
    var (ct', eff) := RunText(env, user, cond, ct);
    ExecHead(env, user, CIf(Text(cond), thn[0], CSkip), thn[1..], fuel, ct);
    assert thn == [thn[0]] + thn[1..];
    ExecHead(env, user, thn[0], thn[1..], fuel, ct');
    if eff.returned == 0 { IdleRuns(env, user, thn[1..], h, fuel, ct'); }
  }

  /** With an `else`: what stands behind it does nothing after the first branch. */
  lemma IfElseRuns(env: Env, user: set<string>, cond: string, thn: seq<CStmt>, els: seq<CStmt>, h: Option<Handler>,
                   fuel: nat, ct: State, r: Result)
    requires |thn| == 1 && els != [] && NoLabels(thn) && NoLabels(els) && Idle(Others(els), h)
    requires IfElseItems(cond, thn, els) == [CIf(Text(cond), thn[0], els[0])] + els[1..]
    requires var (ct', eff) := RunText(env, user, cond, ct);
             Corresponds(r, CExecFrom(env, user, if eff.returned != 0 then thn else els, 0, fuel, ct'), ct', h, user)
    ensures var (ct', eff) := RunText(env, user, cond, ct);
            CExecFrom(env, user, IfElseItems(cond, thn, els), 0, fuel, ct)
              == CExecFrom(env, user, if eff.returned != 0 then thn else els, 0, fuel, ct')
  {
    var (ct', eff) := RunText(env, user, cond, ct);
    ExecHead(env, user, CIf(Text(cond), thn[0], els[0]), els[1..], fuel, ct);
    if eff.returned != 0 {
      assert thn == [thn[0]];
      ExecOne(env, user, thn[0], fuel, ct');
      var c := CExec(env, user, thn[0], fuel, ct');
      if c.Some? && c.value.0.CNormal? { IdleRuns(env, user, els[1..], h, fuel, c.value.1); }
    } else {
      assert els == [els[0]] + els[1..];
      ExecHead(env, user, els[0], els[1..], fuel, ct');
    }
  }

  lemma {:induction false} ForCorresponds(env: Env, user: set<string>, s: Stmt, h: Option<Handler>, names: Names,
                                          fuel: nat, st: State, ct: State)
    requires s.For? && WellFormed(s, h.Some?) && Fits(s, h.Some?) && Parsed(s, user)
    requires HandlerFits(h, user, names) && Agree(st, ct, user) && Clear(ct, h)
    ensures Corresponds(ExecStmt(env, user, s, h.Some?, fuel, st),
                        CExecFrom(env, user, LowerStmt(s, h, names).items, 0, fuel, ct), ct, h, user)
    decreases fuel, s, 1
  {
    var text := s.start.code.text;
    RunAgrees(env, user, text, st, ct);
    var st', ct' := RunText(env, user, text, st).0, RunText(env, user, text, ct).0;
    var loop := LoopIs(s.loop, h, names, user);
    LoopCorresponds(env, user, s.loop, loop, h, names, fuel, st', ct');
    var r, c := ExecStmt(env, user, s.loop, h.Some?, fuel, st'), CExec(env, user, loop, fuel, ct');
    StartsAndLeaves(user, s.decls, h, r, c, st, ct, st', ct');
    ExecOne(env, user, CFor(s.decls, text, loop), fuel, ct);
  }

  /** The scope of a `for` loop is left for the state before its start. */
  lemma StartsAndLeaves(user: set<string>, decls: set<string>, h: Option<Handler>, r: Result, c: CResult, st: State,
                        ct: State, st': State, ct': State)
    requires decls <= user && Agree(st, ct, user) && Keeps(ct, ct', {}, user)
    requires h.Some? ==> h.value.status !in user
    requires Corresponds(r, c, ct', h, user)
    ensures Corresponds(LeaveResult(st, r, decls), CLeaveResult(ct, c, decls), ct, h, user)
  {
    LeaveCorresponds(user, decls, h, r, c, st, ct);
  }

  lemma {:induction false} WhileCorresponds(env: Env, user: set<string>, s: Stmt, h: Option<Handler>, names: Names,
                                            fuel: nat, st: State, ct: State)
    requires s.While? && WellFormed(s, h.Some?) && Fits(s, h.Some?) && Parsed(s, user)
    requires HandlerFits(h, user, names) && Agree(st, ct, user) && Clear(ct, h)
    ensures Corresponds(ExecStmt(env, user, s, h.Some?, fuel, st),
                        CExecFrom(env, user, LowerStmt(s, h, names).items, 0, fuel, ct), ct, h, user)
    decreases fuel, s, 1
  {
    var loop := LoopIs(s, h, names, user);
    LoopCorresponds(env, user, s, loop, h, names, fuel, st, ct);
    ExecOne(env, user, loop, fuel, ct);
  }

  /** A loop whose body fits is replaced by one loop. */
  lemma LoopIs(s: Stmt, h: Option<Handler>, names: Names, user: set<string>) returns (loop: CStmt)
    requires s.While? && WellFormed(s, h.Some?) && Fits(s, h.Some?) && Parsed(s, user)
    ensures LowerStmt(s, h, names).items == [loop] && Loops(s, loop, h, names)
  {
    Shape(s.pass, h, names, user);
    loop := CWhile(s.post, s.cond.text, TextOf(s.step), LowerStmt(s.pass, h, names).items[0]);
  }

  ghost predicate Loops(s: Stmt, loop: CStmt, h: Option<Handler>, names: Names)
    requires s.While?
  {
    && loop.CWhile? && loop == CWhile(s.post, s.cond.text, TextOf(s.step), loop.body)
    && LowerStmt(s.pass, h, names).items == [loop.body] && !loop.body.CLabel?
  }

  lemma {:induction false} LoopCorresponds(env: Env, user: set<string>, s: Stmt, loop: CStmt, h: Option<Handler>,
                                           names: Names, fuel: nat, st: State, ct: State)
    requires s.While? && WellFormed(s, h.Some?) && Fits(s, h.Some?) && Parsed(s, user) && Loops(s, loop, h, names)
    requires HandlerFits(h, user, names) && Agree(st, ct, user) && Clear(ct, h)
    ensures Corresponds(ExecStmt(env, user, s, h.Some?, fuel, st), CExec(env, user, loop, fuel, ct), ct, h, user)
    decreases fuel, s, 0
  {
    TestedAgrees(env, user, s.post, s.cond.text, st, ct);
    if Tested(env, user, s.post, s.cond.text, st).0 && fuel != 0 {
      LoopGoes(env, user, s, loop, h, names, fuel, st, ct);
    }
  }

  lemma {:induction false} LoopGoes(env: Env, user: set<string>, s: Stmt, loop: CStmt, h: Option<Handler>,
                                    names: Names, fuel: nat, st: State, ct: State)
    requires s.While? && WellFormed(s, h.Some?) && Fits(s, h.Some?) && Parsed(s, user) && Loops(s, loop, h, names)
    requires HandlerFits(h, user, names) && Agree(st, ct, user) && Clear(ct, h)
    requires Tested(env, user, s.post, s.cond.text, st).0 && fuel != 0
    ensures Corresponds(ExecStmt(env, user, s, h.Some?, fuel, st), CExec(env, user, loop, fuel, ct), ct, h, user)
    decreases fuel, s, -1
  {
    TestedAgrees(env, user, s.post, s.cond.text, st, ct);
    var st', ct' := Tested(env, user, s.post, s.cond.text, st).1, Tested(env, user, s.post, s.cond.text, ct).1;
    PassCorresponds(env, user, s, loop, h, names, fuel - 1, st', ct');
    LoopGoesOn(env, user, s, loop, h, names, fuel - 1, ExecStmt(env, user, s.pass, h.Some?, fuel - 1, st'),
               CExec(env, user, loop.body, fuel - 1, ct'), ct');
    LoopRound(env, user, s, loop, h, fuel, st, ct, st', ct');
  }

  lemma {:induction false} LoopGoesOn(env: Env, user: set<string>, s: Stmt, loop: CStmt, h: Option<Handler>,
                                      names: Names, fuel: nat, r: Result, c: CResult, ct: State)
    requires s.While? && WellFormed(s, h.Some?) && Fits(s, h.Some?) && Parsed(s, user) && Loops(s, loop, h, names)
    requires HandlerFits(h, user, names) && Corresponds(r, c, ct, h, user)
    ensures Corresponds(AfterPass(r, Rest(env, user, s, h.Some?, fuel, r)),
                        CAfterPass(c, CRest(env, user, loop, fuel, c)), ct, h, user)
    decreases fuel, While(false, s.cond, s.step, s.pass), 2
  {
    if GoesOn(r) { RestCorresponds(env, user, s, h, names, fuel, r, c, loop); }
    PassesCorrespond(r, c, Rest(env, user, s, h.Some?, fuel, r), CRest(env, user, loop, fuel, c), ct, h, user);
  }

  lemma {:induction false} PassCorresponds(env: Env, user: set<string>, s: Stmt, loop: CStmt, h: Option<Handler>,
                                           names: Names, fuel: nat, st: State, ct: State)
    requires s.While? && WellFormed(s, h.Some?) && Fits(s, h.Some?) && Parsed(s, user) && Loops(s, loop, h, names)
    requires HandlerFits(h, user, names) && Agree(st, ct, user) && Clear(ct, h)
    ensures Corresponds(ExecStmt(env, user, s.pass, h.Some?, fuel, st), CExec(env, user, loop.body, fuel, ct), ct, h,
                        user)
    decreases fuel, s, -2
  {
    StmtCorresponds(env, user, s.pass, h, names, fuel, st, ct);
    ExecOne(env, user, loop.body, fuel, ct);
  }

  /** A loop whose first pass and the passes after it correspond. */
  lemma LoopRound(env: Env, user: set<string>, s: Stmt, loop: CStmt, h: Option<Handler>, fuel: nat, st: State,
                  ct: State, st': State, ct': State)
    requires s.While? && fuel != 0 && Tested(env, user, s.post, s.cond.text, st) == (true, st')
    requires loop.CWhile? && Tested(env, user, loop.post, loop.cond, ct) == (true, ct') && Keeps(ct, ct', {}, user)
    requires var r := ExecStmt(env, user, s.pass, h.Some?, fuel - 1, st');
             var c := CExec(env, user, loop.body, fuel - 1, ct');
             Corresponds(AfterPass(r, Rest(env, user, s, h.Some?, fuel - 1, r)),
                         CAfterPass(c, CRest(env, user, loop, fuel - 1, c)), ct', h, user)
    ensures Corresponds(ExecStmt(env, user, s, h.Some?, fuel, st), CExec(env, user, loop, fuel, ct), ct, h, user)
  {
    LoopUnfolds(env, user, s, h.Some?, fuel, st, st');
    CLoopUnfolds(env, user, loop, loop.body, fuel, ct, ct');
  }

  lemma {:induction false} RestCorresponds(env: Env, user: set<string>, s: Stmt, h: Option<Handler>, names: Names,
                                           fuel: nat, r: Result, c: CResult, loop: CStmt)
    requires s.While? && WellFormed(s, h.Some?) && Fits(s, h.Some?) && Parsed(s, user) && Loops(s, loop, h, names)
    requires HandlerFits(h, user, names) && GoesOn(r) && Ends(r, c, h, user)
    ensures Corresponds(Rest(env, user, s, h.Some?, fuel, r), CRest(env, user, loop, fuel, c), c.value.1, h, user)
    decreases fuel, While(false, s.cond, s.step, s.pass), 1
  {
    var st, ct := Stepped(env, user, loop.step, r.value.1), Stepped(env, user, loop.step, c.value.1);
    var again := While(false, s.cond, s.step, s.pass);
    SteppedAgrees(env, user, loop.step, r.value.1, c.value.1);
    assert Loops(again, loop.(post := false), h, names);
    LoopCorresponds(env, user, again, loop.(post := false), h, names, fuel, st, ct);
  }

  predicate GoesOn(r: Result) { r.Some? && (r.value.0 == Normal || r.value.0 == Jumped(Continue)) }

  /** What a loop makes of one pass and of the passes after it. */
  function AfterPass(r: Result, rest: Result): Result
  {
    if GoesOn(r) then rest else EndSwitch(r)
  }

  function CAfterPass(c: CResult, rest: CResult): CResult
  {
    if c.Some? && (c.value.0 == CNormal || c.value.0 == CJumped(Continue)) then rest else CEndSwitch(c)
  }

  function Rest(env: Env, user: set<string>, s: Stmt, checked: bool, fuel: nat, r: Result): Result
    requires s.While?
  {
    if !GoesOn(r) then None
    else
      ExecStmt(env, user, While(false, s.cond, s.step, s.pass), checked, fuel,
               Stepped(env, user, TextOf(s.step), r.value.1))
  }

  function CRest(env: Env, user: set<string>, loop: CStmt, fuel: nat, c: CResult): CResult
    requires loop.CWhile?
  {
    if c.None? then None
    else CExec(env, user, loop.(post := false), fuel, Stepped(env, user, loop.step, c.value.1))
  }

  lemma PassesCorrespond(r: Result, c: CResult, rest: Result, crest: CResult, ct: State, h: Option<Handler>,
                         user: set<string>)
    requires Corresponds(r, c, ct, h, user)
    requires GoesOn(r) ==> Corresponds(rest, crest, c.value.1, h, user)
    ensures Corresponds(AfterPass(r, rest), CAfterPass(c, crest), ct, h, user)
  {
  }

  /** One more pass on either side. */
  lemma LoopUnfolds(env: Env, user: set<string>, s: Stmt, checked: bool, fuel: nat, st: State, st': State)
    requires s.While? && fuel != 0 && Tested(env, user, s.post, s.cond.text, st) == (true, st')
    ensures var r := ExecStmt(env, user, s.pass, checked, fuel - 1, st');
            ExecStmt(env, user, s, checked, fuel, st) == AfterPass(r, Rest(env, user, s, checked, fuel - 1, r))
  {
  }

  lemma CLoopUnfolds(env: Env, user: set<string>, loop: CStmt, body: CStmt, fuel: nat, ct: State, ct': State)
    requires loop.CWhile? && loop == CWhile(loop.post, loop.cond, loop.step, body) && fuel != 0
    requires Tested(env, user, loop.post, loop.cond, ct) == (true, ct')
    ensures var c := CExec(env, user, body, fuel - 1, ct');
            CExec(env, user, loop, fuel, ct) == CAfterPass(c, CRest(env, user, loop, fuel - 1, c))
  {
  }

  lemma {:induction false} SwitchCorresponds(env: Env, user: set<string>, s: Stmt, h: Option<Handler>, names: Names,
                                             fuel: nat, st: State, ct: State)
    requires s.Switch? && WellFormed(s, h.Some?) && Fits(s, h.Some?) && Parsed(s, user)
    requires HandlerFits(h, user, names) && Agree(st, ct, user) && Clear(ct, h)
    ensures Corresponds(ExecStmt(env, user, s, h.Some?, fuel, st),
                        CExecFrom(env, user, LowerStmt(s, h, names).items, 0, fuel, ct), ct, h, user)
    decreases fuel, s, 1
  {
    RunAgrees(env, user, s.cond.text, st, ct);
    var (st', eff) := RunText(env, user, s.cond.text, st);
    var ct' := RunText(env, user, s.cond.text, ct).0;
    var pick := Pick(env, s.body.items, eff.returned);
    CasesCorrespond(env, user, s.body.items, pick, h, names, fuel, st', ct');
    SwitchRuns(env, user, s, h, names, fuel, ct);
    var items := LowerStmts(s.body.items, h, names).items;
    SwitchEnds(user, s.body.decls, h, ExecCases(env, user, s.body.items, pick, h.Some?, fuel, st'),
               CExecFrom(env, user, items, CaseAt(env, items, pick), fuel, ct'), st', ct');
  }

  /** The emitted `switch` goes to the label that the source chooses. */
  lemma SwitchRuns(env: Env, user: set<string>, s: Stmt, h: Option<Handler>, names: Names, fuel: nat, ct: State)
    requires s.Switch?
    ensures var (ct', eff) := RunText(env, user, s.cond.text, ct);
            var items := LowerStmts(s.body.items, h, names).items;
            var k := CaseAt(env, items, Pick(env, s.body.items, eff.returned));
            CExecFrom(env, user, LowerStmt(s, h, names).items, 0, fuel, ct)
              == CEndSwitch(CLeaveResult(ct', CExecFrom(env, user, items, k, fuel, ct'), s.body.decls))
  {
    var items := LowerStmts(s.body.items, h, names).items;
    var value := RunText(env, user, s.cond.text, ct).1.returned;
    CaseIsFound(env, s.body.items, Some(value), h, names);
    assert SwitchAt(env, items, value) == CaseAt(env, items, Pick(env, s.body.items, value));
    SwitchEnters(env, user, s.cond.text, s.body.decls, items, fuel, ct);
  }

  lemma SwitchEnters(env: Env, user: set<string>, cond: string, decls: set<string>, items: seq<CStmt>, fuel: nat,
                     ct: State)
    ensures var (ct', eff) := RunText(env, user, cond, ct);
            CExecFrom(env, user, [CSwitch(cond, decls, items)], 0, fuel, ct)
              == var c := CExecFrom(env, user, items, SwitchAt(env, items, eff.returned), fuel, ct');
                 CEndSwitch(CLeaveResult(ct', c, decls))
  {
    ExecOne(env, user, CSwitch(cond, decls, items), fuel, ct);
  }

  lemma SwitchEnds(user: set<string>, decls: set<string>, h: Option<Handler>, r: Result, c: CResult, st: State,
                   ct: State)
    requires decls <= user && Agree(st, ct, user)
    requires h.Some? ==> h.value.status !in user
    requires Corresponds(r, c, ct, h, user)
    ensures Corresponds(EndSwitch(LeaveResult(st, r, decls)), CEndSwitch(CLeaveResult(ct, c, decls)), ct, h, user)
  {
    LeaveCorresponds(user, decls, h, r, c, st, ct);
  }

  /** The items from a case label on, wherever the label has moved to. */
  lemma {:induction false} CasesCorrespond(env: Env, user: set<string>, items: seq<Stmt>, pick: Option<int>,
                                           h: Option<Handler>, names: Names, fuel: nat, st: State, ct: State)
    requires AllWellFormed(items, h.Some?) && AllFit(items, h.Some?) && (forall s <- items :: Parsed(s, user))
    requires HandlerFits(h, user, names) && Agree(st, ct, user) && Clear(ct, h)
    ensures var l := LowerStmts(items, h, names).items;
            Corresponds(ExecCases(env, user, items, pick, h.Some?, fuel, st),
                        CExecFrom(env, user, l, CaseAt(env, l, pick), fuel, ct), ct, h, user)
    decreases fuel, items, 1
  {
    if items != [] {
      var l := LowerStmt(items[0], h, names);
      if items[0].Case? && Picked(env, items[0].choice, pick) {
        StmtsCorrespond(env, user, items, h, names, fuel, st, ct);
      } else {
        StmtNamesGrow(items[0], h, names);
        CasesCorrespond(env, user, items[1..], pick, h, l.names, fuel, st, ct);
        FirstSkipped(env, user, items, pick, h, names, fuel, ct);
      }
    }
  }

  lemma FirstSkipped(env: Env, user: set<string>, items: seq<Stmt>, pick: Option<int>, h: Option<Handler>,
                     names: Names, fuel: nat, ct: State)
    requires items != [] && !(items[0].Case? && Picked(env, items[0].choice, pick))
    ensures var all := LowerStmts(items, h, names).items;
            var rest := LowerStmts(items[1..], h, LowerStmt(items[0], h, names).names).items;
            CExecFrom(env, user, all, CaseAt(env, all, pick), fuel, ct)
              == CExecFrom(env, user, rest, CaseAt(env, rest, pick), fuel, ct)
  {
    var l := LowerStmt(items[0], h, names);
    CaseMoves(env, items, pick, h, names);
    LoweredHasNoLabels(items, h, names);
    CaseSkipped(env, user, LowerStmts(items, h, names).items, l.items, LowerStmts(items[1..], h, l.names).items, pick,
                fuel, ct);
  }

  lemma CaseSkipped(env: Env, user: set<string>, all: seq<CStmt>, a: seq<CStmt>, b: seq<CStmt>, pick: Option<int>,
                    fuel: nat, ct: State)
    requires all == a + b && NoLabels(all) && CaseAt(env, all, pick) == |a| + CaseAt(env, b, pick)
    ensures CExecFrom(env, user, all, CaseAt(env, all, pick), fuel, ct)
         == CExecFrom(env, user, b, CaseAt(env, b, pick), fuel, ct)
  {
    ExecShift(env, user, a, b, CaseAt(env, b, pick), fuel, ct);
  }

  /** A label that is looked for further on stands behind what the first statement has become. */
  lemma CaseMoves(env: Env, items: seq<Stmt>, pick: Option<int>, h: Option<Handler>, names: Names)
    requires items != [] && !(items[0].Case? && Picked(env, items[0].choice, pick))
    ensures var l := LowerStmt(items[0], h, names);
            var rest := LowerStmts(items[1..], h, l.names).items;
            && LowerStmts(items, h, names).items == l.items + rest
            && CaseAt(env, l.items + rest, pick) == |l.items| + CaseAt(env, rest, pick)
  {
    var l := LowerStmt(items[0], h, names);
    NoLabelEmitted(items[0], h, names);
    CaseAtAppend(env, l.items, LowerStmts(items[1..], h, l.names).items, pick);
  }

  lemma {:induction false} CaseAtAppend(env: Env, a: seq<CStmt>, b: seq<CStmt>, pick: Option<int>)
    requires forall c <- a :: c.CCase? ==> !Picked(env, c.choice, pick)
    ensures CaseAt(env, a + b, pick) == |a| + CaseAt(env, b, pick)
  {
    if a == [] {
      assert a + b == b;
    } else {
      assert (a + b)[0] == a[0] && (a + b)[1..] == a[1..] + b;
      CaseAtAppend(env, a[1..], b, pick);
    }
  }

  /** The emitted body has the label exactly when the source has it. */
  lemma {:induction false} CaseIsFound(env: Env, items: seq<Stmt>, pick: Option<int>, h: Option<Handler>, names: Names)
    ensures var l := LowerStmts(items, h, names).items;
            (CaseAt(env, l, pick) < |l|)
            <==> exists i :: 0 <= i < |items| && items[i].Case? && Picked(env, items[i].choice, pick)
  {
    if items != [] {
      var l := LowerStmt(items[0], h, names);
      if !(items[0].Case? && Picked(env, items[0].choice, pick)) {
        CaseIsFound(env, items[1..], pick, h, l.names);
        CaseMoves(env, items, pick, h, names);
        forall i | 0 <= i < |items| - 1 ensures items[1..][i] == items[i + 1] {}
        if i :| 0 <= i < |items| && items[i].Case? && Picked(env, items[i].choice, pick) {
          assert items[1..][i - 1] == items[i];
        }
      }
    }
  }

  lemma {:induction false} BlockCorresponds(env: Env, user: set<string>, b: Block, h: Option<Handler>, names: Names,
                                            fuel: nat, st: State, ct: State)
    requires AllWellFormed(b.items, h.Some?) && AllFit(b.items, h.Some?) && BlockParsed(b, user)
    requires HandlerFits(h, user, names) && Agree(st, ct, user) && Clear(ct, h)
    ensures Corresponds(ExecBlock(env, user, b, h.Some?, fuel, st),
                        CExec(env, user, CBlock(b.decls, LowerStmts(b.items, h, names).items), fuel, ct), ct, h, user)
    decreases fuel, b, 1
  {
    StmtsCorrespond(env, user, b.items, h, names, fuel, st, ct);
    LeaveCorresponds(user, b.decls, h, ExecStmts(env, user, b.items, h.Some?, fuel, st),
                     CExecFrom(env, user, LowerStmts(b.items, h, names).items, 0, fuel, ct), st, ct);
  }

  lemma {:induction false} StmtsCorrespond(env: Env, user: set<string>, items: seq<Stmt>, h: Option<Handler>,
                                           names: Names, fuel: nat, st: State, ct: State)
    requires AllWellFormed(items, h.Some?) && AllFit(items, h.Some?) && (forall s <- items :: Parsed(s, user))
    requires HandlerFits(h, user, names) && Agree(st, ct, user) && Clear(ct, h)
    ensures Corresponds(ExecStmts(env, user, items, h.Some?, fuel, st),
                        CExecFrom(env, user, LowerStmts(items, h, names).items, 0, fuel, ct), ct, h, user)
    decreases fuel, items, 0
  {
    if items != [] {
      StmtCorresponds(env, user, items[0], h, names, fuel, st, ct);
      StmtNamesGrow(items[0], h, names);
      var l := LowerStmt(items[0], h, names);
      var rest := LowerStmts(items[1..], h, l.names);
      LoweredHasNoLabels(items, h, names);
      ExecAppendFrom(env, user, l.items, rest.items, 0, fuel, ct);
      var r := ExecStmt(env, user, items[0], h.Some?, fuel, st);
      var c := CExecFrom(env, user, l.items, 0, fuel, ct);
      if r.Some? && r.value.0.Normal? {
        StmtsCorrespond(env, user, items[1..], h, l.names, fuel, r.value.1, c.value.1);
      }
    }
  }

  lemma {:induction false} TryCorresponds(env: Env, user: set<string>, s: Stmt, h: Option<Handler>, names: Names,
                                          fuel: nat, st: State, ct: State)
    requires s.Try? && WellFormed(s, h.Some?) && Fits(s, h.Some?) && Parsed(s, user)
    requires HandlerFits(h, user, names) && Agree(st, ct, user) && Clear(ct, h)
    ensures Corresponds(ExecStmt(env, user, s, h.Some?, fuel, st),
                        CExecFrom(env, user, LowerStmt(s, h, names).items, 0, fuel, ct), ct, h, user)
    decreases fuel, s, 1
  {
    NoComplaints(s.braced, s.arms, h);
    var (status, n1) := Fresh("cplus_status", names);
    var (catchLabel, n2) := Fresh("cplus_catch", n1);
    var (endLabel, n3) := Fresh("cplus_end", n2);
    var inner := Handler(status, catchLabel);
    var l := LowerStmts(s.body.items, Some(inner), n3);
    var la := LowerArms(s.arms, status, h, l.names);
    var body := CBlock(s.body.decls, l.items);
    var ct1 := Assign(ct, status, 0);
    AssignAgrees(st, ct, user, status, 0);
    BlockCorresponds(env, user, s.body, Some(inner), n3, fuel, st, ct1);
    var r := ExecBlock(env, user, s.body, true, fuel, st);
    var c := CExec(env, user, body, fuel, ct1);
    var dispatch := la.items[0];
    var whole := TryStatement(status, catchLabel, endLabel, body, la.items);
    assert la.items == [dispatch];
    if r.Some? && r.value.0.Raised? {
      NamesGrow(s.body.items, Some(inner), n3);
      ArmsCorrespond(env, user, s.arms, status, r.value.0.status, h, l.names, fuel, r.value.1, c.value.1);
    }
    TryWhole(env, user, s, h, whole.items, status, catchLabel, endLabel, body, dispatch, fuel, st, ct);
    ExecOne(env, user, whole, fuel, ct);
  }

  lemma TryWhole(env: Env, user: set<string>, s: Stmt, h: Option<Handler>, items: seq<CStmt>, status: string,
                 catchLabel: string, endLabel: string, body: CStmt, dispatch: CStmt, fuel: nat, st: State, ct: State)
    requires s.Try? && TryItems(items, status, catchLabel, endLabel, body, dispatch) && status !in user
    requires h.Some? ==> h.value.target != catchLabel && h.value.target != endLabel && h.value.status != status
    requires Clear(ct, h) && (h.Some? ==> h.value.status !in user)
    requires var ct1 := Assign(ct, status, 0);
             Corresponds(ExecBlock(env, user, s.body, true, fuel, st), CExec(env, user, body, fuel, ct1), ct1,
                         Some(Handler(status, catchLabel)), user)
    requires var r := ExecBlock(env, user, s.body, true, fuel, st);
             var c := CExec(env, user, body, fuel, Assign(ct, status, 0));
             r.Some? && r.value.0.Raised? ==>
               Corresponds(ExecArms(env, user, s.arms, r.value.0.status, h.Some?, fuel, r.value.1),
                           CExecFrom(env, user, [dispatch], 0, fuel, c.value.1), c.value.1, h, user)
    ensures Corresponds(ExecStmt(env, user, s, h.Some?, fuel, st),
                        CExec(env, user, CBlock({status}, items), fuel, ct), ct, h, user)
  {
    var r, c := ExecBlock(env, user, s.body, true, fuel, st), CExec(env, user, body, fuel, Assign(ct, status, 0));
    var raised := r.Some? && r.value.0.Raised?;
    var arms := if raised then ExecArms(env, user, s.arms, r.value.0.status, h.Some?, fuel, r.value.1) else None;
    var d := if raised then CExecFrom(env, user, [dispatch], 0, fuel, c.value.1) else None;
    TryRuns(env, user, items, status, catchLabel, endLabel, body, dispatch, fuel, ct, c, d);
    TryEnds(user, h, status, catchLabel, ct, r, c, arms, d);
    StatusLeaves(env, user, ExecStmt(env, user, s, h.Some?, fuel, st), status, items, h, fuel, ct);
  }

  /** The labels around a body and its dispatch: a jump to the handler reaches the dispatch, all else passes it by. */
  lemma TryRuns(env: Env, user: set<string>, items: seq<CStmt>, status: string, catchLabel: string, endLabel: string,
                body: CStmt, dispatch: CStmt, fuel: nat, ct: State, c: CResult, d: CResult)
    requires TryItems(items, status, catchLabel, endLabel, body, dispatch)
    requires c == CExec(env, user, body, fuel, Assign(ct, status, 0))
    requires c.Some? && c.value.0.CWent? ==>
               && c.value.0.target == catchLabel && d == CExecFrom(env, user, [dispatch], 0, fuel, c.value.1)
               && (d.Some? && d.value.0.CWent? ==> d.value.0.target != catchLabel && d.value.0.target != endLabel)
    ensures CExecFrom(env, user, items, 0, fuel, ct) == if c.Some? && c.value.0.CWent? then d else c
  {
    if c.Some? && c.value.0.CWent? {
      ExecOne(env, user, dispatch, fuel, c.value.1);
      TryRunsDispatch(env, user, items, status, catchLabel, endLabel, body, dispatch, fuel, ct, c.value.1);
    } else {
      TrySkipsDispatch(env, user, items, status, catchLabel, endLabel, body, dispatch, fuel, ct);
    }
  }

  /** The structured reading connects body and arms in the same way. */
  lemma TryEnds(user: set<string>, h: Option<Handler>, status: string, catchLabel: string, ct: State, r: Result,
                c: CResult, arms: Result, d: CResult)
    requires h.Some? ==> h.value.status != status && h.value.status !in user
    requires Clear(ct, h) && Corresponds(r, c, Assign(ct, status, 0), Some(Handler(status, catchLabel)), user)
    requires r.Some? && r.value.0.Raised? ==> Corresponds(arms, d, c.value.1, h, user)
    ensures var result := if r.Some? && r.value.0.Raised? then arms else r;
            var whole := if c.Some? && c.value.0.CWent? then d else c;
            Ends(result, whole, h, user) && (whole.Some? ==> Keeps(ct, whole.value.1, Own(h) + {status}, user))
  {
  }

  /** Leaving the emitted block drops its status variable, which no source text can see. */
  lemma StatusLeaves(env: Env, user: set<string>, r: Result, status: string, items: seq<CStmt>, h: Option<Handler>,
                     fuel: nat, ct: State)
    requires status !in user && (h.Some? ==> h.value.status != status)
    requires var c := CExecFrom(env, user, items, 0, fuel, ct);
             Ends(r, c, h, user) && (c.Some? ==> Keeps(ct, c.value.1, Own(h) + {status}, user))
    ensures Corresponds(r, CExec(env, user, CBlock({status}, items), fuel, ct), ct, h, user)
  {
    var inside := CExecFrom(env, user, items, 0, fuel, ct);
    if r.Some? {
      LeaveAgrees(ct, ct, r.value.1, inside.value.1, {status}, user);
    }
  }

  lemma StepOn(env: Env, user: set<string>, items: seq<CStmt>, i: nat, fuel: nat, st: State, st': State)
    requires i < |items| && CExec(env, user, items[i], fuel, st) == Some((CNormal, st'))
    ensures CExecFrom(env, user, items, i, fuel, st) == CExecFrom(env, user, items, i + 1, fuel, st')
  {
  }

  lemma StepTo(env: Env, user: set<string>, items: seq<CStmt>, i: nat, k: nat, target: string, fuel: nat, st: State,
               st': State)
    requires i < k < |items| && LabelAt(items, target) == k
    requires CExec(env, user, items[i], fuel, st) == Some((CWent(target), st'))
    ensures CExecFrom(env, user, items, i, fuel, st) == CExecFrom(env, user, items, k, fuel, st')
  {
  }

  /** The items of an emitted @try: zero, body, goto end, catch label, dispatch, end label. */
  ghost predicate TryItems(items: seq<CStmt>, status: string, catchLabel: string, endLabel: string, body: CStmt,
                           dispatch: CStmt)
  {
    && items == [CSet(status, 0), body, CGoto(endLabel), CLabel(catchLabel), dispatch, CLabel(endLabel)]
    && !body.CLabel? && !dispatch.CLabel? && catchLabel != endLabel
  }

  lemma TryLabels(items: seq<CStmt>, status: string, catchLabel: string, endLabel: string, body: CStmt, dispatch: CStmt)
    requires TryItems(items, status, catchLabel, endLabel, body, dispatch)
    ensures LabelAt(items, catchLabel) == 3 && LabelAt(items, endLabel) == 5
    ensures forall t | t != catchLabel && t != endLabel :: LabelAt(items, t) == 6
  {
    assert items[3] == CLabel(catchLabel) && items[5] == CLabel(endLabel);
    assert !items[0].CLabel? && !items[1].CLabel? && !items[2].CLabel? && !items[4].CLabel?;
  }

  /** A body that does not raise steers around the dispatch. */
  lemma TrySkipsDispatch(env: Env, user: set<string>, items: seq<CStmt>, status: string, catchLabel: string,
                         endLabel: string, body: CStmt, dispatch: CStmt, fuel: nat, ct: State)
    requires TryItems(items, status, catchLabel, endLabel, body, dispatch)
    requires var c := CExec(env, user, body, fuel, Assign(ct, status, 0)); c.Some? ==> !c.value.0.CWent?
    ensures CExecFrom(env, user, items, 0, fuel, ct) == CExec(env, user, body, fuel, Assign(ct, status, 0))
  {
    var ct1 := Assign(ct, status, 0);
    var c := CExec(env, user, body, fuel, ct1);
    StepOn(env, user, items, 0, fuel, ct, ct1);
    if c.Some? && c.value.0.CNormal? {
      TryLabels(items, status, catchLabel, endLabel, body, dispatch);
      StepOn(env, user, items, 1, fuel, ct1, c.value.1);
      TryJumpsToEnd(env, user, items, endLabel, fuel, c.value.1);
    }
  }

  lemma TryJumpsToEnd(env: Env, user: set<string>, items: seq<CStmt>, endLabel: string, fuel: nat, st: State)
    requires |items| == 6 && items[2] == CGoto(endLabel) && items[5] == CLabel(endLabel)
    requires LabelAt(items, endLabel) == 5
    ensures CExecFrom(env, user, items, 2, fuel, st) == Some((CNormal, st))
  {
    StepTo(env, user, items, 2, 5, endLabel, fuel, st, st);
    StepOn(env, user, items, 5, fuel, st, st);
  }

  /** A body that raises ends as the dispatch does. */
  lemma TryRunsDispatch(env: Env, user: set<string>, items: seq<CStmt>, status: string, catchLabel: string,
                        endLabel: string, body: CStmt, dispatch: CStmt, fuel: nat, ct: State, ct2: State)
    requires TryItems(items, status, catchLabel, endLabel, body, dispatch)
    requires CExec(env, user, body, fuel, Assign(ct, status, 0)) == Some((CWent(catchLabel), ct2))
    requires var d := CExec(env, user, dispatch, fuel, ct2);
             d.Some? && d.value.0.CWent? ==> d.value.0.target != catchLabel && d.value.0.target != endLabel
    ensures CExecFrom(env, user, items, 0, fuel, ct) == CExec(env, user, dispatch, fuel, ct2)
  {
    var ct1 := Assign(ct, status, 0);
    TryLabels(items, status, catchLabel, endLabel, body, dispatch);
    StepOn(env, user, items, 0, fuel, ct, ct1);
    StepTo(env, user, items, 1, 3, catchLabel, fuel, ct1, ct2);
    StepOn(env, user, items, 3, fuel, ct2, ct2);
    DispatchEnds(env, user, items, catchLabel, endLabel, dispatch, fuel, ct2);
  }

  lemma DispatchEnds(env: Env, user: set<string>, items: seq<CStmt>, catchLabel: string, endLabel: string,
                     dispatch: CStmt, fuel: nat, ct: State)
    requires |items| == 6 && items[4] == dispatch && items[5] == CLabel(endLabel)
    requires forall t | t != catchLabel && t != endLabel :: LabelAt(items, t) == 6
    requires var d := CExec(env, user, dispatch, fuel, ct);
             d.Some? && d.value.0.CWent? ==> d.value.0.target != catchLabel && d.value.0.target != endLabel
    ensures CExecFrom(env, user, items, 4, fuel, ct) == CExec(env, user, dispatch, fuel, ct)
  {
    var d := CExec(env, user, dispatch, fuel, ct);
    if d.Some? && d.value.0.CNormal? {
      StepOn(env, user, items, 4, fuel, ct, d.value.1);
      StepOn(env, user, items, 5, fuel, d.value.1, d.value.1);
    }
  }

  lemma {:induction false} ArmsCorrespond(env: Env, user: set<string>, arms: seq<Arm>, status: string, value: int,
                                          h: Option<Handler>, names: Names, fuel: nat, st: State, ct: State)
    requires ArmsWellFormed(arms, h.Some?) && (forall a <- arms :: ArmFits(a, h.Some?) && ArmParsed(a, user))
    requires HandlerFits(h, user, names) && Agree(st, ct, user) && Clear(ct, h)
    requires status !in user && (h.Some? ==> h.value.status != status)
    requires value != 0 && Read(ct, status) == value
    ensures Corresponds(ExecArms(env, user, arms, value, h.Some?, fuel, st),
                        CExecFrom(env, user, LowerArms(arms, status, h, names).items, 0, fuel, ct), ct, h, user)
    decreases fuel, arms, 1
  {
    if arms == [] {
      var forward := CBlock({}, [CCopy(h.value.status, status), CGoto(h.value.target)]);
      ExecOne(env, user, forward, fuel, ct);
      ForwardCorresponds(env, user, status, value, h.value, fuel, st, ct);
    } else {
      var arm, rest := arms[0], ArmsBehind(arms, status, h, names);
      ArmBodyNamesGrow(arm, h, names);
      if Matches(env, arm, value) {
        ArmCorresponds(env, user, arm, status, value, h, names, fuel, st, ct);
        ArmTaken(env, user, arms, status, value, h, names, rest, fuel, st, ct);
      } else {
        ArmsCorrespond(env, user, arms[1..], status, value, h, LowerArmBody(arm, h, names).names, fuel, st, ct);
        ArmMissed(env, user, arms, status, value, h, names, rest, fuel, st, ct);
      }
    }
  }

  /** What the code for the first arm goes on to when the arm does not match. */
  ghost function ArmsBehind(arms: seq<Arm>, status: string, h: Option<Handler>, names: Names): seq<CStmt>
    requires arms != []
  {
    if |arms| == 1 && arms[0].codes.None? then []
    else LowerArms(arms[1..], status, h, LowerArmBody(arms[0], h, names).names).items
  }

  ghost function ArmTest(arm: Arm, status: string): Test
  {
    if arm.codes.None? then Always else OneOf(status, arm.codes.value)
  }

  lemma ArmTaken(env: Env, user: set<string>, arms: seq<Arm>, status: string, value: int, h: Option<Handler>,
                 names: Names, rest: seq<CStmt>, fuel: nat, st: State, ct: State)
    requires arms != [] && rest == ArmsBehind(arms, status, h, names)
    requires Matches(env, arms[0], value) && Read(ct, status) == value
    requires var thn := ArmStatement(arms[0], status, LowerArmBody(arms[0], h, names).items);
             Corresponds(ExecArm(env, user, arms[0], value, h.Some?, fuel, st), CExec(env, user, thn, fuel, ct), ct,
                         h, user)
    ensures Corresponds(ExecArms(env, user, arms, value, h.Some?, fuel, st),
                        CExecFrom(env, user, LowerArms(arms, status, h, names).items, 0, fuel, ct), ct, h, user)
  {
    var thn := ArmStatement(arms[0], status, LowerArmBody(arms[0], h, names).items);
    var els := if |arms| == 1 && arms[0].codes.None? then CSkip else CBlock({}, rest);
    ExecOne(env, user, CIf(ArmTest(arms[0], status), thn, els), fuel, ct);
  }

  lemma ArmMissed(env: Env, user: set<string>, arms: seq<Arm>, status: string, value: int, h: Option<Handler>,
                  names: Names, rest: seq<CStmt>, fuel: nat, st: State, ct: State)
    requires arms != [] && rest == ArmsBehind(arms, status, h, names)
    requires !Matches(env, arms[0], value) && Read(ct, status) == value
    requires Agree(st, ct, user) && (h.Some? ==> h.value.status !in user)
    requires Corresponds(ExecArms(env, user, arms[1..], value, h.Some?, fuel, st),
                         CExecFrom(env, user, rest, 0, fuel, ct), ct, h, user)
    ensures Corresponds(ExecArms(env, user, arms, value, h.Some?, fuel, st),
                        CExecFrom(env, user, LowerArms(arms, status, h, names).items, 0, fuel, ct), ct, h, user)
  {
    var thn := ArmStatement(arms[0], status, LowerArmBody(arms[0], h, names).items);
    ElseTaken(env, user, ArmTest(arms[0], status), thn, rest, fuel, ct);
    FirstMatchInRange(env, arms[1..], value);
  }

  lemma ElseTaken(env: Env, user: set<string>, test: Test, thn: CStmt, rest: seq<CStmt>, fuel: nat, ct: State)
    requires EvalTest(env, user, test, ct) == (false, ct)
    ensures CExecFrom(env, user, [CIf(test, thn, CBlock({}, rest))], 0, fuel, ct)
         == CExecFrom(env, user, rest, 0, fuel, ct)
  {
    var c := CExecFrom(env, user, rest, 0, fuel, ct);
    ExecOne(env, user, CIf(test, thn, CBlock({}, rest)), fuel, ct);
    if c.Some? { assert Leave(ct, c.value.1, {}).vars == c.value.1.vars; }
  }

  /** What no arm takes goes to the enclosing handler. */
  lemma ForwardCorresponds(env: Env, user: set<string>, status: string, value: int, h: Handler, fuel: nat, st: State,
                           ct: State)
    requires Agree(st, ct, user) && h.status !in user && value != 0 && Read(ct, status) == value
    ensures Corresponds(Some((Raised(value), st)),
                        CExec(env, user, CBlock({}, [CCopy(h.status, status), CGoto(h.target)]), fuel, ct), ct,
                        Some(h), user)
  {
    var items := [CCopy(h.status, status), CGoto(h.target)];
    var ct1 := Assign(ct, h.status, value);
    AssignAgrees(st, ct, user, h.status, value);
    assert LabelAt(items, h.target) == 2;
    assert CExecFrom(env, user, items, 1, fuel, ct1) == Some((CWent(h.target), ct1));
    assert CExecFrom(env, user, items, 0, fuel, ct) == Some((CWent(h.target), ct1));
    LeaveAgrees(ct, ct, st, ct1, {}, user);
  }

  lemma {:induction false} ArmCorresponds(env: Env, user: set<string>, arm: Arm, status: string, value: int,
                                          h: Option<Handler>, names: Names, fuel: nat, st: State, ct: State)
    requires arm.binding.Some? && ArmBodyWellFormed(arm, h.Some?) && ArmFits(arm, h.Some?) && ArmParsed(arm, user)
    requires HandlerFits(h, user, names) && Agree(st, ct, user) && Clear(ct, h) && Read(ct, status) == value
    ensures Corresponds(ExecArm(env, user, arm, value, h.Some?, fuel, st),
                        CExec(env, user, ArmStatement(arm, status, LowerArmBody(arm, h, names).items), fuel, ct),
                        ct, h, user)
    decreases fuel, arm, 0
  {
    var name := arm.binding.value;
    var l := LowerArmBody(arm, h, names);
    var st1, ct1 := Assign(st, name, value), Assign(ct, name, value);
    AssignAgrees(st, ct, user, name, value);
    StmtsCorrespond(env, user, arm.body.items, h, names, fuel, st1, ct1);
    LoweredHasNoLabels(arm.body.items, h, names);
    ExecAppendFrom(env, user, [CCopy(name, status)], l.items, 0, fuel, ct);
    ExecOne(env, user, CCopy(name, status), fuel, ct);
    var r := ExecStmts(env, user, arm.body.items, h.Some?, fuel, st1);
    LeaveCorresponds(user, {name} + arm.body.decls, h, r,
                     CExecFrom(env, user, [CCopy(name, status)] + l.items, 0, fuel, ct), st, ct);
    if r.Some? {
      LeaveTwice(st, name, value, r.value.1, arm.body.decls);
    }
  }

  lemma LeaveTwice(st: State, name: string, value: int, inner: State, decls: set<string>)
    ensures Leave(st, Leave(Assign(st, name, value), inner, decls), {name}) == Leave(st, inner, {name} + decls)
  {
    var once := Leave(Assign(st, name, value), inner, decls);
    var a, b := Leave(st, once, {name}).vars, Leave(st, inner, {name} + decls).vars;
    forall x
      ensures x in a <==> x in b
      ensures x in a ==> a[x] == b[x]
    {
      if x != name {
        assert x in a <==> x in once.vars;
        assert x in decls ==> (x in Assign(st, name, value).vars <==> x in st.vars);
      }
    }
    assert a == b;
  }

  /* ---------- acceptance ---------- */

  lemma {:induction false} BindingsComplete(arms: seq<Arm>)
    ensures BindingComplaints(arms) == [] <==> forall a <- arms :: a.binding.Some?
  {
    if arms != [] {
      BindingsComplete(arms[1..]);
    }
  }

  /** The shape of an arm list, apart from what its bodies contain. */
  lemma {:induction false} ArmShape(arms: seq<Arm>, checked: bool)
    ensures ArmsWellFormed(arms, checked) <==>
              && (forall a <- arms :: a.binding.Some? && ArmBodyWellFormed(a, checked))
              && (forall i | 0 <= i < |arms| - 1 :: arms[i].codes.Some?)
              && (checked || (arms != [] && arms[|arms| - 1].codes.None?))
  {
    if arms != [] {
      ArmShape(arms[1..], checked);
      if |arms| > 1 { assert arms[1..][|arms| - 2] == arms[|arms| - 1]; }
      forall i | 0 <= i < |arms| - 1
        ensures i > 0 ==> arms[i] == arms[1..][i - 1]
      {
      }
    }
  }

  lemma NoComplaintsIff(braced: bool, arms: seq<Arm>, h: Option<Handler>)
    ensures Complaints(braced, arms, h) == [] <==>
              && braced && arms != [] && (forall a <- arms :: a.binding.Some?)
              && (forall i | 0 <= i < |arms| - 1 :: arms[i].codes.Some?)
              && (h.Some? || arms[|arms| - 1].codes.None?)
  {
    BindingsComplete(arms);
  }

  lemma NoComplaints(braced: bool, arms: seq<Arm>, h: Option<Handler>)
    requires braced && arms != [] && ArmsWellFormed(arms, h.Some?)
    ensures Complaints(braced, arms, h) == []
  {
    NoComplaintsIff(braced, arms, h);
    ArmShape(arms, h.Some?);
  }

  lemma {:induction false} AfterHandled(calls: seq<ThrowingCall>)
    ensures StatementDiagnostics(calls, true) == [] <==> forall c <- calls :: IsManual(c)
  {
    if calls != [] {
      AfterHandled(calls[1..]);
    }
  }

  lemma {:induction false} CheckableStatements(calls: seq<ThrowingCall>)
    ensures StatementDiagnostics(calls, false) == [] <==> Checkable(calls)
  {
    if calls != [] {
      var rest := calls[1..];
      assert calls == [calls[0]] + rest;
      if IsManual(calls[0]) {
        CheckableStatements(rest);
        forall i | 0 <= i < |rest| ensures rest[i] == calls[i + 1] {}
        if Checkable(calls) {
          assert Checkable(rest) by {
            forall i, j | 0 <= i < j < |rest| ensures IsManual(rest[i]) || IsManual(rest[j]) {
              assert IsManual(calls[i + 1]) || IsManual(calls[j + 1]);
            }
          }
        }
      } else {
        AfterHandled(rest);
        if Checkable(calls) {
          forall c | c in rest ensures IsManual(c) {
            var i :| 0 <= i < |rest| && rest[i] == c;
            assert calls[i + 1] == c;
          }
        }
      }
    }
  }

  /** A status-returning call whose result is assigned is rejected, not left to manual handling. */
  lemma AssignedStatusIsRejected(calls: seq<ThrowingCall>, i: nat)
    requires i < |calls| && calls[i].convention == ErrorReturn && calls[i].prefix == Assignment
    ensures StatementDiagnostics(calls, false) != []
  {
    CheckableStatements(calls);
  }

  lemma {:induction false} AcceptedStmt(s: Stmt, h: Option<Handler>, names: Names)
    ensures Diagnostics(LowerStmt(s, h, names)) == [] <==> WellFormed(s, h.Some?)
    decreases s, 1
  {
    match s
    case Simple(code) => CheckableStatements(code.calls);
    case Nested(block) => Accepted(block.items, h, names);
    case If(_, thn, els) =>
      AcceptedStmt(thn, h, names);
      if els.Some? { AcceptedStmt(els.value, h, LowerStmt(thn, h, names).names); }
    case While(_, _, _, pass) => AcceptedStmt(pass, h, names);
    case For(_, start, loop) =>
      CheckableStatements(start.code.calls);
      AcceptedStmt(loop, h, names);
    case Switch(_, body) => Accepted(body.items, h, names);
    case Case(_) =>
    case JumpTo(_) =>
    case Return(_) =>
    case Try(_, _, _) => AcceptedTry(s, h, names);
  }

  lemma ArmsShape(braced: bool, arms: seq<Arm>, h: Option<Handler>)
    ensures braced && arms != [] && ArmsWellFormed(arms, h.Some?) <==>
              Complaints(braced, arms, h) == [] && forall a <- arms :: ArmBodyWellFormed(a, h.Some?)
    ensures Complaints(braced, arms, h) == [] ==> forall i | 0 <= i < |arms| - 1 :: arms[i].codes.Some?
  {
    NoComplaintsIff(braced, arms, h);
    ArmShape(arms, h.Some?);
  }

  lemma TryShape(s: Stmt, h: Option<Handler>)
    requires s.Try?
    ensures WellFormed(s, h.Some?) <==>
              && Complaints(s.braced, s.arms, h) == [] && AllWellFormed(s.body.items, true)
              && (forall a <- s.arms :: ArmBodyWellFormed(a, h.Some?))
    ensures Complaints(s.braced, s.arms, h) == [] ==> forall i | 0 <= i < |s.arms| - 1 :: s.arms[i].codes.Some?
  {
    ArmsShape(s.braced, s.arms, h);
  }

  lemma TryReports(s: Stmt, h: Option<Handler>, names0: Names, status: string, catchLabel: string, endLabel: string,
                   names: Names)
    requires s.Try? && Complaints(s.braced, s.arms, h) == []
    requires var (a, n1) := Fresh("cplus_status", names0); var (b, n2) := Fresh("cplus_catch", n1);
             (status, catchLabel) == (a, b) && Fresh("cplus_end", n2) == (endLabel, names)
    ensures var l := LowerStmts(s.body.items, Some(Handler(status, catchLabel)), names);
            Diagnostics(LowerStmt(s, h, names0)) == Diagnostics(l) + LowerArms(s.arms, status, h, l.names).tries
  {
    TryUnfolds(s, h, names0, status, catchLabel, endLabel, names);
  }

  lemma {:induction false} AcceptedTry(s: Stmt, h: Option<Handler>, names: Names)
    requires s.Try?
    ensures Diagnostics(LowerStmt(s, h, names)) == [] <==> WellFormed(s, h.Some?)
    decreases s, 0
  {
    TryShape(s, h);
    if Complaints(s.braced, s.arms, h) == [] {
      var (status, n1) := Fresh("cplus_status", names);
      var (catchLabel, n2) := Fresh("cplus_catch", n1);
      var (endLabel, n3) := Fresh("cplus_end", n2);
      var l := LowerStmts(s.body.items, Some(Handler(status, catchLabel)), n3);
      Accepted(s.body.items, Some(Handler(status, catchLabel)), n3);
      AcceptedArms(s.arms, status, h, l.names);
      TryReports(s, h, names, status, catchLabel, endLabel, n3);
    }
  }

  /** The pass reports nothing exactly on the programs whose shape is well-formed. */
  lemma {:induction false} Accepted(items: seq<Stmt>, h: Option<Handler>, names: Names)
    ensures Diagnostics(LowerStmts(items, h, names)) == [] <==> AllWellFormed(items, h.Some?)
    decreases items, 0
  {
    if items != [] {
      AcceptedStmt(items[0], h, names);
      Accepted(items[1..], h, LowerStmt(items[0], h, names).names);
    }
  }

  lemma {:induction false} AcceptedArms(arms: seq<Arm>, status: string, h: Option<Handler>, names: Names)
    requires forall i | 0 <= i < |arms| - 1 :: arms[i].codes.Some?
    ensures LowerArms(arms, status, h, names).tries == [] <==> forall a <- arms :: ArmBodyWellFormed(a, h.Some?)
    decreases arms, 0
  {
    if arms != [] {
      AcceptedArm(arms[0], h, names);
      AcceptedArms(arms[1..], status, h, LowerArmBody(arms[0], h, names).names);
    }
  }

  lemma {:induction false} AcceptedArm(arm: Arm, h: Option<Handler>, names: Names)
    ensures Diagnostics(LowerArmBody(arm, h, names)) == [] <==> ArmBodyWellFormed(arm, h.Some?)
    decreases arm, 0
  {
    Accepted(arm.body.items, h, names);
  }

  /* ---------- what is emitted is C ---------- */

  lemma {:induction false} StmtIsC(s: Stmt, h: Option<Handler>, names: Names, user: set<string>)
    requires WellFormed(s, h.Some?) && Fits(s, h.Some?) && Parsed(s, user)
    ensures AllC(LowerStmt(s, h, names).items)
    decreases s, 1
  {
    match s
    case Simple(code) => SimpleIsC(code, h);
    case Nested(block) => StmtsAreC(block.items, h, names, user);
    case If(cond, thn, els) =>
      StmtIsC(thn, h, names, user);
      IfIsC(cond.text, LowerStmt(thn, h, names).items);
      if els.Some? {
        StmtIsC(els.value, h, LowerStmt(thn, h, names).names, user);
        IfElseIsC(s, h, names, user);
      }
    case While(_, _, _, pass) =>
      StmtIsC(pass, h, names, user);
      var loop := LoopIs(s, h, names, user);
      assert IsC(loop);
    case For(decls, start, loop) =>
      StmtIsC(loop, h, names, user);
      ForIsC(decls, start, h, LowerStmt(loop, h, names).items);
    case Switch(_, body) => StmtsAreC(body.items, h, names, user);
    case Case(_) =>
    case JumpTo(_) =>
    case Return(_) =>
    case Try(_, _, _) => TryIsC(s, h, names, user);
  }

  lemma SimpleIsC(code: Code, h: Option<Handler>)
    ensures AllC(SimpleItems(code, h))
  {
  }

  lemma IfIsC(cond: string, thn: seq<CStmt>)
    requires AllC(thn)
    ensures AllC(IfItems(cond, thn))
  {
  }

  lemma ForIsC(decls: set<string>, start: Start, h: Option<Handler>, loop: seq<CStmt>)
    requires AllC(loop) && !Starts(start, h.Some?)
    ensures AllC(ForItems(decls, start, h, loop))
  {
  }

  lemma IfElseIsC(s: Stmt, h: Option<Handler>, names: Names, user: set<string>)
    requires s.If? && s.els.Some? && WellFormed(s, h.Some?) && Fits(s, h.Some?) && Parsed(s, user)
    requires var l := LowerStmt(s.thn, h, names); AllC(l.items) && AllC(LowerStmt(s.els.value, h, l.names).items)
    ensures AllC(LowerStmt(s, h, names).items)
  {
    var l := LowerStmt(s.thn, h, names);
    var els := LowerStmt(s.els.value, h, l.names).items;
    Shape(s.thn, h, names, user);
    Shape(s.els.value, h, l.names, user);
    IfElseIs(s.cond.text, l.items, els);
  }

  lemma TryStatementIsC(status: string, catchLabel: string, endLabel: string, body: CStmt, dispatch: seq<CStmt>)
    requires IsC(body) && AllC(dispatch)
    ensures IsC(TryStatement(status, catchLabel, endLabel, body, dispatch))
  {
    var before := [CSet(status, 0), body, CGoto(endLabel), CLabel(catchLabel)];
    assert AllC(before);
    assert AllC(before + dispatch + [CLabel(endLabel)]);
  }

  lemma {:induction false} StmtsAreC(items: seq<Stmt>, h: Option<Handler>, names: Names, user: set<string>)
    requires AllWellFormed(items, h.Some?) && AllFit(items, h.Some?) && (forall s <- items :: Parsed(s, user))
    ensures AllC(LowerStmts(items, h, names).items)
    decreases items, 0
  {
    if items != [] {
      StmtIsC(items[0], h, names, user);
      StmtsAreC(items[1..], h, LowerStmt(items[0], h, names).names, user);
    }
  }

  lemma {:induction false} TryIsC(s: Stmt, h: Option<Handler>, names: Names, user: set<string>)
    requires s.Try? && WellFormed(s, h.Some?) && Fits(s, h.Some?) && Parsed(s, user)
    ensures AllC(LowerStmt(s, h, names).items)
    decreases s, 0
  {
    NoComplaints(s.braced, s.arms, h);
    var (status, n1) := Fresh("cplus_status", names);
    var (catchLabel, n2) := Fresh("cplus_catch", n1);
    var (endLabel, n3) := Fresh("cplus_end", n2);
    var inner := Some(Handler(status, catchLabel));
    TryUnfolds(s, h, names, status, catchLabel, endLabel, n3);
    StmtsAreC(s.body.items, inner, n3, user);
    var l := LowerStmts(s.body.items, inner, n3);
    ArmsAreC(s.arms, status, h, l.names, user);
    TryStatementIsC(status, catchLabel, endLabel, CBlock(s.body.decls, l.items),
                    LowerArms(s.arms, status, h, l.names).items);
  }

  lemma {:induction false} ArmsAreC(arms: seq<Arm>, status: string, h: Option<Handler>, names: Names, user: set<string>)
    requires ArmsWellFormed(arms, h.Some?) && (forall a <- arms :: ArmFits(a, h.Some?) && ArmParsed(a, user))
    ensures AllC(LowerArms(arms, status, h, names).items)
    decreases arms, 0
  {
    if arms != [] {
      ArmIsC(arms[0], h, names, user);
      assert IsC(ArmStatement(arms[0], status, LowerArmBody(arms[0], h, names).items));
      if arms[0].codes.Some? { ArmsAreC(arms[1..], status, h, LowerArmBody(arms[0], h, names).names, user); }
    } else {
      assert AllC([CCopy(h.value.status, status), CGoto(h.value.target)]);
    }
  }

  lemma {:induction false} ArmIsC(arm: Arm, h: Option<Handler>, names: Names, user: set<string>)
    requires ArmBodyWellFormed(arm, h.Some?) && ArmFits(arm, h.Some?) && ArmParsed(arm, user)
    ensures AllC(LowerArmBody(arm, h, names).items)
    decreases arm, 0
  {
    StmtsAreC(arm.body.items, h, names, user);
  }

  /* ---------- the theorem ---------- */

  /**
   For every function body the pass accepts, and whatever the environment does: the emitted C
   diverges exactly when the structured reading does and otherwise makes the same sequence of calls,
   leaves the same values in the program's variables and ends in the same way; no status escapes.
   `user` holds the identifiers of the program, which the pass reserves before it starts. The last
   condition is about statements without braces; TryCatchBare shows for each of them that it is exact.
   */
  lemma LoweringPreservesMeaning(env: Env, user: set<string>, serial: nat, body: Block, fuel: nat, st: State)
    requires BlockParsed(body, user)
    requires Diagnostics(LowerStmts(body.items, None, Names(serial, user))) == []
    requires AllFit(body.items, false)
    ensures var out := CBlock(body.decls, LowerStmts(body.items, None, Names(serial, user)).items);
            && IsC(out)
            && Corresponds(ExecBlock(env, user, body, false, fuel, st), CExec(env, user, out, fuel, st), st, None, user)
  {
    Accepted(body.items, None, Names(serial, user));
    BlockCorresponds(env, user, body, None, Names(serial, user), fuel, st, st);
    StmtsAreC(body.items, None, Names(serial, user), user);
  }
}
