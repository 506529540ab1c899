/** The flags and the cleanup tail run what the structured reading of `defer` runs. */
module DeferMeaning {
  import opened Wrappers
  import opened FreshNames
  import S = TryCatchSource
  import T = TryCatchTarget
  import opened DeferSource
  import opened DeferLowering
  import M = TryCatchMeaning

  /** The offsets of the defers that belong to the body around a statement. */
  function Own(s: Stmt, test: bool): set<nat>
  {
    match s
    case Defer(at, _, _) => {at}
    case Nested(_, items) => OwnAll(items, test)
    case If(_, thn, els) => Own(thn, test) + Own(els, test)
    case While(_, _, _, body) => if Owns(body, test) then {} else Own(body, test)
    case _ => {}
  }

  function OwnAll(items: seq<Stmt>, test: bool): set<nat>
  {
    if items == [] then {} else Own(items[0], test) + OwnAll(items[1..], test)
  }

  /** The offsets of all defers of a statement, those of loop bodies included. */
  function All(s: Stmt): set<nat>
  {
    set d | d in AllDefers(s) :: d.at
  }

  function AllIn(items: seq<Stmt>): set<nat>
  {
    set d | d in AllDefersIn(items) :: d.at
  }

  lemma {:induction false} AllFirst(items: seq<Stmt>)
    requires items != []
    ensures AllIn(items) == All(items[0]) + AllIn(items[1..])
  {
  }

  /** Blocks declare names of the program only. */
  ghost predicate DeclaresIn(s: Stmt, user: set<string>)
    decreases s, 1
  {
    match s
    case Nested(decls, items) => decls <= user && AllDeclareIn(items, user)
    case If(_, thn, els) => DeclaresIn(thn, user) && DeclaresIn(els, user)
    case While(_, _, _, body) => DeclaresIn(body, user)
    case _ => true
  }

  ghost predicate AllDeclareIn(items: seq<Stmt>, user: set<string>)
    decreases items, 0
  {
    items == [] || (DeclaresIn(items[0], user) && AllDeclareIn(items[1..], user))
  }

  /** Every defer has a flag of its own that is not a name of the program. */
  ghost predicate FlagsFit(flags: Flags, ats: set<nat>, user: set<string>)
  {
    && (forall a | a in ats :: a in flags && flags[a] !in user)
    && (forall a, b | a in ats && b in ats && a != b :: flags[a] != flags[b])
  }

  /** The flags of an owner's defers say which of them are registered. */
  ghost predicate Shows(ct: S.State, flags: Flags, own: set<nat>, reg: set<nat>)
  {
    forall a | a in own :: T.Read(ct, Flag(flags, a)) == if a in reg then 1 else 0
  }

  /** Only program variables and the flags of `own` have changed. */
  ghost predicate Keeps(ct: S.State, ct': S.State, flags: Flags, own: set<nat>, user: set<string>)
  {
    forall x | x !in user && (forall a | a in own :: Flag(flags, a) != x) :: T.Read(ct', x) == T.Read(ct, x)
  }

  function COutcomeOf(o: Outcome): T.COutcome
  {
    match o
    case Normal => T.CNormal
    case Jumped(j) => T.CJumped(j)
    case Returned(v) => T.CReturned(v)
    case Failed => T.CWent(FINISH)
  }

  /** The emitted C ends as the structured reading does, and its flags show what is registered. */
  ghost predicate Corresponds(r: Result, c: T.CResult, ct: S.State, flags: Flags, own: set<nat>, user: set<string>)
  {
    && (r.None? <==> c.None?)
    && (r.Some? ==>
          && c.value.0 == COutcomeOf(r.value.0)
          && M.Agree(r.value.1, c.value.1, user)
          && Shows(c.value.1, flags, own, r.value.2)
          && Keeps(ct, c.value.1, flags, own, user))
  }

  ghost predicate BodyCorresponds(r: BodyResult, c: T.CResult, ct: S.State, user: set<string>)
  {
    && (r.None? <==> c.None?)
    && (r.Some? ==>
          && c.value.0 == COutcomeOf(r.value.0)
          && M.Agree(r.value.1, c.value.1, user)
          && forall x | x !in user :: T.Read(c.value.1, x) == T.Read(ct, x))
  }

  lemma {:induction false} OwnIsDefers(items: seq<Stmt>, test: bool)
    ensures OwnAll(items, test) == set d | d in DefersOfAll(items, test) :: d.at
    ensures OwnAll(items, test) <= AllIn(items)
    decreases items, 0
  {
    if items != [] {
      OwnIsDefersOf(items[0], test);
      OwnIsDefers(items[1..], test);
      AllFirst(items);
    }
  }

  lemma {:induction false} OwnIsDefersOf(s: Stmt, test: bool)
    ensures Own(s, test) == set d | d in DefersOf(s, test) :: d.at
    ensures Own(s, test) <= All(s)
    decreases s, 1
  {
    match s
    case Nested(_, items) => OwnIsDefers(items, test);
    case If(_, thn, els) =>
      OwnIsDefersOf(thn, test);
      OwnIsDefersOf(els, test);
    case While(_, _, _, body) => OwnIsDefersOf(body, test);
    case _ =>
  }

  // Running the emitted lists.

  /** Where a list goes on after a part of it: behind the part, at the label the part jumped to, or nowhere. */
  ghost function Resume(env: S.Env, user: set<string>, all: seq<T.CStmt>, k: nat, fuel: nat, r: T.CResult): T.CResult
    requires k <= |all|
  {
    if r.None? then None
    else if r.value.0.CNormal? then T.CExecFrom(env, user, all, k, fuel, r.value.1)
    else if r.value.0.CWent? && T.LabelAt(all, r.value.0.target) < |all|
    then T.CExecFrom(env, user, all, T.LabelAt(all, r.value.0.target), fuel, r.value.1)
    else r
  }

  /** Running a part without labels inside a list whose labels come after it. */
  lemma {:induction false} ExecInside(env: S.Env, user: set<string>, all: seq<T.CStmt>, off: nat, mid: seq<T.CStmt>,
                                      i: nat, fuel: nat, ct: S.State)
    requires off + |mid| <= |all| && i <= |mid| && all[off..off + |mid|] == mid && M.NoLabels(all[..off + |mid|])
    ensures T.CExecFrom(env, user, all, off + i, fuel, ct)
         == Resume(env, user, all, off + |mid|, fuel, T.CExecFrom(env, user, mid, i, fuel, ct))
    decreases |mid| - i
  {
    if i < |mid| {
      var r := T.CExec(env, user, mid[i], fuel, ct);
      assert all[off + i] == all[off..off + |mid|][i];
      if r.Some? && r.value.0.CNormal? {
        ExecInside(env, user, all, off, mid, i + 1, fuel, r.value.1);
      } else {
        StopsInside(env, user, all, off, mid, i, fuel, ct);
      }
    }
  }

  lemma StopsInside(env: S.Env, user: set<string>, all: seq<T.CStmt>, off: nat, mid: seq<T.CStmt>, i: nat, fuel: nat,
                    ct: S.State)
    requires off + |mid| <= |all| && i < |mid| && all[off..off + |mid|] == mid && M.NoLabels(all[..off + |mid|])
    requires var r := T.CExec(env, user, mid[i], fuel, ct); r.None? || !r.value.0.CNormal?
    ensures T.CExecFrom(env, user, all, off + i, fuel, ct)
         == Resume(env, user, all, off + |mid|, fuel, T.CExecFrom(env, user, mid, i, fuel, ct))
  {
    var r := T.CExec(env, user, mid[i], fuel, ct);
    assert all[off + i] == all[off..off + |mid|][i];
    if r.Some? && r.value.0.CWent? {
      PartHasNoLabels(all, off, mid);
      LabelsLater(all, off + |mid|, r.value.0.target);
      LabelsLater(mid, |mid|, r.value.0.target);
    }
  }

  lemma PartHasNoLabels(all: seq<T.CStmt>, off: nat, mid: seq<T.CStmt>)
    requires off + |mid| <= |all| && all[off..off + |mid|] == mid && M.NoLabels(all[..off + |mid|])
    ensures M.NoLabels(mid) && mid[..|mid|] == mid
  {
    forall j | 0 <= j < |mid| ensures !mid[j].CLabel? { assert mid[j] == all[..off + |mid|][off + j]; }
  }

  lemma LabelsLater(all: seq<T.CStmt>, k: nat, target: string)
    requires k <= |all| && M.NoLabels(all[..k])
    ensures k <= T.LabelAt(all, target)
  {
    forall i | 0 <= i < k ensures !all[i].CLabel? { assert all[..k][i] == all[i]; }
  }

  lemma {:induction false} LoweredHasNoLabels(items: seq<Stmt>, flags: Flags, test: bool)
    ensures |LowerStmts(items, flags, test)| == |items| && M.NoLabels(LowerStmts(items, flags, test))
  {
    if items != [] { LoweredHasNoLabels(items[1..], flags, test); }
  }

  function Zeroed(defers: seq<Stmt>, flags: Flags, ct: S.State): S.State
    requires forall d | d in defers :: d.Defer?
  {
    if defers == [] then ct else Zeroed(defers[1..], flags, S.Assign(ct, Flag(flags, defers[0].at), 0))
  }

  lemma {:induction false} ZeroedReads(defers: seq<Stmt>, flags: Flags, user: set<string>, ct: S.State)
    requires forall d | d in defers :: d.Defer? && Flag(flags, d.at) !in user
    ensures M.Agree(ct, Zeroed(defers, flags, ct), user)
    ensures forall x ::
              T.Read(Zeroed(defers, flags, ct), x) == if x in FlagNames(defers, flags) then 0 else T.Read(ct, x)
  {
    if defers != [] {
      var next := S.Assign(ct, Flag(flags, defers[0].at), 0);
      M.AssignAgrees(ct, ct, user, Flag(flags, defers[0].at), 0);
      ZeroedReads(defers[1..], flags, user, next);
      assert FlagNames(defers, flags) == FlagNames(defers[1..], flags) + {Flag(flags, defers[0].at)};
    }
  }

  lemma {:induction false} ExecDeclarations(env: S.Env, user: set<string>, all: seq<T.CStmt>, defers: seq<Stmt>, i: nat,
                                            flags: Flags, fuel: nat, ct: S.State)
    requires (forall d | d in defers :: d.Defer?) && i <= |defers| <= |all|
    requires all[..|defers|] == Declarations(defers, flags)
    ensures T.CExecFrom(env, user, all, i, fuel, ct)
         == T.CExecFrom(env, user, all, |defers|, fuel, Zeroed(defers[i..], flags, ct))
    decreases |defers| - i
  {
    if i < |defers| {
      var next := S.Assign(ct, Flag(flags, defers[i].at), 0);
      assert defers[i..][0] == defers[i] && defers[i..][1..] == defers[i + 1..];
      assert all[i] == all[..|defers|][i];
      ExecDeclarations(env, user, all, defers, i + 1, flags, fuel, next);
    }
  }

  /** One guarded deferred statement. */
  lemma ExecGuarded(env: S.Env, user: set<string>, d: Stmt, flags: Flags, reg: set<nat>, fuel: nat, st: S.State,
                    ct: S.State)
    requires d.Defer? && M.Agree(st, ct, user)
    requires T.Read(ct, Flag(flags, d.at)) == if d.at in reg then 1 else 0
    ensures var st' := if d.at in reg then S.RunText(env, user, d.text, st).0 else st;
            var c := T.CExec(env, user, CleanupOf(d, flags), fuel, ct);
            && c.Some? && c.value.0 == T.CNormal && M.Agree(st', c.value.1, user)
            && forall x | x !in user :: T.Read(c.value.1, x) == T.Read(ct, x)
  {
    M.RunAgrees(env, user, d.text, st, ct);
    if d.at in reg { RunInBraces(env, user, d.text, fuel, ct); }
  }

  lemma RunInBraces(env: S.Env, user: set<string>, text: string, fuel: nat, ct: S.State)
    ensures T.CExec(env, user, T.CBlock({}, [T.CRun(text)]), fuel, ct)
         == Some((T.CNormal, S.RunText(env, user, text, ct).0))
  {
    var next := S.RunText(env, user, text, ct).0;
    M.ExecOne(env, user, T.CRun(text), fuel, ct);
    assert S.Leave(ct, next, {}).vars == next.vars;
  }

  lemma {:induction false} ExecCleanup(env: S.Env, user: set<string>, all: seq<T.CStmt>, off: nat, defers: seq<Stmt>,
                                       flags: Flags, reg: set<nat>, fuel: nat, st: S.State, ct: S.State)
    requires (forall d | d in defers :: d.Defer? && Flag(flags, d.at) !in user)
    requires off <= |all| && all[off..] == CleanupCode(defers, flags) && M.Agree(st, ct, user)
    requires forall d | d in defers :: T.Read(ct, Flag(flags, d.at)) == if d.at in reg then 1 else 0
    ensures var c := T.CExecFrom(env, user, all, off, fuel, ct);
            && c.Some? && c.value.0 == T.CNormal && M.Agree(Cleanup(env, user, defers, reg, st), c.value.1, user)
            && forall x | x !in user :: T.Read(c.value.1, x) == T.Read(ct, x)
    decreases |defers|
  {
    if defers != [] {
      var last := defers[|defers| - 1];
      ExecGuarded(env, user, last, flags, reg, fuel, st, ct);
      var st' := if last.at in reg then S.RunText(env, user, last.text, st).0 else st;
      var c := T.CExec(env, user, CleanupOf(last, flags), fuel, ct);
      assert all[off] == all[off..][0] && all[off..][1..] == all[off + 1..];
      ExecCleanup(env, user, all, off + 1, defers[..|defers| - 1], flags, reg, fuel, st', c.value.1);
    }
  }

  // The simulation.

  ghost predicate Fits(s: Stmt, flags: Flags, user: set<string>)
  {
    DeclaresIn(s, user) && FlagsFit(flags, All(s), user)
  }

  ghost predicate AllFit(items: seq<Stmt>, flags: Flags, user: set<string>)
  {
    AllDeclareIn(items, user) && FlagsFit(flags, AllIn(items), user)
  }

  lemma FitFirst(items: seq<Stmt>, flags: Flags, user: set<string>)
    requires AllFit(items, flags, user) && items != []
    ensures Fits(items[0], flags, user) && AllFit(items[1..], flags, user)
  {
    AllFirst(items);
  }

  /** The flags of the owner, all shown. */
  ghost predicate Shown(ct: S.State, st: S.State, flags: Flags, own: set<nat>, reg: set<nat>, user: set<string>)
  {
    M.Agree(st, ct, user) && FlagsFit(flags, own, user) && Shows(ct, flags, own, reg)
  }

  lemma RunKeepsFlags(env: S.Env, user: set<string>, text: string, st: S.State, ct: S.State, flags: Flags,
                      own: set<nat>, reg: set<nat>)
    requires Shown(ct, st, flags, own, reg, user)
    ensures S.RunText(env, user, text, st).1 == S.RunText(env, user, text, ct).1
    ensures Shown(S.RunText(env, user, text, ct).0, S.RunText(env, user, text, st).0, flags, own, reg, user)
    ensures Keeps(ct, S.RunText(env, user, text, ct).0, flags, {}, user)
  {
    M.RunAgrees(env, user, text, st, ct);
  }

  lemma KeepsTwice(a: S.State, b: S.State, c: S.State, flags: Flags, x: set<nat>, y: set<nat>, z: set<nat>,
                   user: set<string>)
    requires Keeps(a, b, flags, x, user) && Keeps(b, c, flags, y, user) && x <= z && y <= z
    ensures Keeps(a, c, flags, z, user)
  {
  }

  /** Registering a defer sets its flag and no other of the owner. */
  lemma RegisterShows(st: S.State, ct: S.State, flags: Flags, own: set<nat>, reg: set<nat>, at: nat, user: set<string>)
    requires Shown(ct, st, flags, own, reg, user) && at in own
    ensures var ct' := S.Assign(ct, Flag(flags, at), 1);
            Shown(ct', st, flags, own, reg + {at}, user) && Keeps(ct, ct', flags, {at}, user)
  {
    M.AssignAgrees(st, ct, user, Flag(flags, at), 1);
  }

  lemma BlockKeeps(st: S.State, ct: S.State, st': S.State, ct': S.State, decls: set<string>, flags: Flags,
                   own: set<nat>, reg: set<nat>, touched: set<nat>, user: set<string>)
    requires M.Agree(st, ct, user) && decls <= user
    requires Shown(ct', st', flags, own, reg, user) && Keeps(ct, ct', flags, touched, user)
    ensures Shown(S.Leave(ct, ct', decls), S.Leave(st, st', decls), flags, own, reg, user)
    ensures Keeps(ct, S.Leave(ct, ct', decls), flags, touched, user)
  {
    M.LeaveAgrees(st, ct, st', ct', decls, user);
  }

  lemma {:induction false} StmtCorresponds(env: S.Env, user: set<string>, s: Stmt, test: bool, flags: Flags,
                                           own: set<nat>, fuel: nat, st: S.State, ct: S.State, reg: set<nat>)
    requires Fits(s, flags, user) && Own(s, test) <= own && Shown(ct, st, flags, own, reg, user)
    ensures Corresponds(ExecStmt(env, user, s, test, fuel, st, reg),
                        T.CExec(env, user, LowerStmt(s, flags, test), fuel, ct), ct, flags, own, user)
    decreases fuel, s, 1
  {
    match s
    case Run(text) => RunKeepsFlags(env, user, text, st, ct, flags, own, reg);
    case Defer(at, _, _) => RegisterShows(st, ct, flags, own, reg, at, user);
    case Nested(_, _) => NestedCorresponds(env, user, s, test, flags, own, fuel, st, ct, reg);
    case If(_, _, _) => IfCorresponds(env, user, s, test, flags, own, fuel, st, ct, reg);
    case While(_, _, _, _) => WhileCorresponds(env, user, s, test, flags, own, fuel, st, ct, reg);
    case JumpTo(_) =>
    case Return(text) => RunKeepsFlags(env, user, text, st, ct, flags, own, reg);
    case Fail =>
  }

  lemma {:induction false} NestedCorresponds(env: S.Env, user: set<string>, s: Stmt, test: bool, flags: Flags,
                                             own: set<nat>, fuel: nat, st: S.State, ct: S.State, reg: set<nat>)
    requires s.Nested? && Fits(s, flags, user) && Own(s, test) <= own && Shown(ct, st, flags, own, reg, user)
    ensures Corresponds(ExecStmt(env, user, s, test, fuel, st, reg),
                        T.CExec(env, user, LowerStmt(s, flags, test), fuel, ct), ct, flags, own, user)
    decreases fuel, s, 0
  {
    StmtsCorrespond(env, user, s.items, test, flags, own, fuel, st, ct, reg);
    var r := ExecStmts(env, user, s.items, test, fuel, st, reg);
    var c := T.CExecFrom(env, user, LowerStmts(s.items, flags, test), 0, fuel, ct);
    if r.Some? { BlockKeeps(st, ct, r.value.1, c.value.1, s.decls, flags, own, r.value.2, own, user); }
  }

  lemma {:induction false} IfCorresponds(env: S.Env, user: set<string>, s: Stmt, test: bool, flags: Flags,
                                         own: set<nat>, fuel: nat, st: S.State, ct: S.State, reg: set<nat>)
    requires s.If? && Fits(s, flags, user) && Own(s, test) <= own && Shown(ct, st, flags, own, reg, user)
    ensures Corresponds(ExecStmt(env, user, s, test, fuel, st, reg),
                        T.CExec(env, user, LowerStmt(s, flags, test), fuel, ct), ct, flags, own, user)
    decreases fuel, s, 0
  {
    RunKeepsFlags(env, user, s.cond, st, ct, flags, own, reg);
    var (st', eff) := S.RunText(env, user, s.cond, st);
    var ct' := S.RunText(env, user, s.cond, ct).0;
    var taken := if eff.returned != 0 then s.thn else s.els;
    StmtCorresponds(env, user, taken, test, flags, own, fuel, st', ct', reg);
    var r := ExecStmt(env, user, taken, test, fuel, st', reg);
    var c := T.CExec(env, user, LowerStmt(taken, flags, test), fuel, ct');
    FromLater(r, c, ct, ct', flags, {}, own, user);
    IfUnfolds(env, user, s, taken, test, flags, fuel, st, ct, reg);
  }

  lemma IfUnfolds(env: S.Env, user: set<string>, s: Stmt, taken: Stmt, test: bool, flags: Flags, fuel: nat, st: S.State,
                  ct: S.State, reg: set<nat>)
    requires s.If? && S.RunText(env, user, s.cond, st).1 == S.RunText(env, user, s.cond, ct).1
    requires taken == if S.RunText(env, user, s.cond, st).1.returned != 0 then s.thn else s.els
    ensures ExecStmt(env, user, s, test, fuel, st, reg)
         == ExecStmt(env, user, taken, test, fuel, S.RunText(env, user, s.cond, st).0, reg)
    ensures T.CExec(env, user, LowerStmt(s, flags, test), fuel, ct)
         == T.CExec(env, user, LowerStmt(taken, flags, test), fuel, S.RunText(env, user, s.cond, ct).0)
  {
  }

  /** What corresponds from a later state on corresponds from an earlier one. */
  lemma FromLater(r: Result, c: T.CResult, ct: S.State, ct': S.State, flags: Flags, touched: set<nat>, own: set<nat>,
                  user: set<string>)
    requires Corresponds(r, c, ct', flags, own, user) && Keeps(ct, ct', flags, touched, user) && touched <= own
    ensures Corresponds(r, c, ct, flags, own, user)
  {
    if c.Some? { KeepsTwice(ct, ct', c.value.1, flags, touched, own, own, user); }
  }

  /** What a loop makes of one pass and of the rest of its passes. */
  function AfterPass(r: Result, rest: Result): Result
  {
    if r.None? then None
    else if r.value.0 == Normal || r.value.0 == Jumped(S.Continue) then rest
    else if r.value.0 == Jumped(S.Break) then Some((Normal, r.value.1, r.value.2))
    else r
  }

  predicate GoesOn(r: Result) { r.Some? && (r.value.0 == Normal || r.value.0 == Jumped(S.Continue)) }

  lemma PassesCorrespond(r: Result, c: T.CResult, rest: Result, crest: T.CResult, ct: S.State, flags: Flags,
                         own: set<nat>, user: set<string>)
    requires Corresponds(r, c, ct, flags, own, user)
    requires GoesOn(r) ==> Corresponds(rest, crest, c.value.1, flags, own, user)
    ensures Corresponds(AfterPass(r, rest), M.CAfterPass(c, crest), ct, flags, own, user)
  {
    if GoesOn(r) { FromLater(rest, crest, ct, c.value.1, flags, own, own, user); }
  }

  lemma {:induction false} WhileCorresponds(env: S.Env, user: set<string>, s: Stmt, test: bool, flags: Flags,
                                            own: set<nat>, fuel: nat, st: S.State, ct: S.State, reg: set<nat>)
    requires s.While? && Fits(s, flags, user) && Own(s, test) <= own && Shown(ct, st, flags, own, reg, user)
    ensures Corresponds(ExecStmt(env, user, s, test, fuel, st, reg),
                        T.CExec(env, user, LowerStmt(s, flags, test), fuel, ct), ct, flags, own, user)
    decreases fuel, s, 0
  {
    TestKeepsFlags(env, user, s.post, s.cond, st, ct, flags, own, reg);
    var (go, st') := S.Tested(env, user, s.post, s.cond, st);
    var ct' := S.Tested(env, user, s.post, s.cond, ct).1;
    if go && fuel != 0 {
      var again := While(false, s.cond, s.step, s.body);
      var r := ExecPass(env, user, s.body, test, fuel - 1, st', reg);
      var c := T.CExec(env, user, LowerPass(s.body, flags, test), fuel - 1, ct');
      PassCorresponds(env, user, s.body, test, flags, own, fuel - 1, st', ct', reg);
      if GoesOn(r) {
        var st2, ct2 := S.Stepped(env, user, s.step, r.value.1), S.Stepped(env, user, s.step, c.value.1);
        StepKeepsFlags(env, user, s.step, r.value.1, c.value.1, flags, own, r.value.2);
        StmtCorresponds(env, user, again, test, flags, own, fuel - 1, st2, ct2, r.value.2);
        FromLater(ExecStmt(env, user, again, test, fuel - 1, st2, r.value.2),
                  T.CExec(env, user, LowerStmt(again, flags, test), fuel - 1, ct2), c.value.1, ct2, flags, {}, own,
                  user);
      }
      var rest, crest := Rest(env, user, s, test, fuel - 1, r), CRest(env, user, s, test, flags, fuel - 1, c);
      PassesCorrespond(r, c, rest, crest, ct', flags, own, user);
      LoopUnfolds(env, user, s, test, fuel, st, reg, st');
      CLoopUnfolds(env, user, s, test, flags, fuel, ct, ct');
      FromLater(AfterPass(r, rest), M.CAfterPass(c, crest), ct, ct', flags, {}, own, user);
    } else {
      LoopEnds(env, user, s, test, flags, own, fuel, st, ct, reg);
    }
  }

  lemma TestKeepsFlags(env: S.Env, user: set<string>, post: bool, cond: string, st: S.State, ct: S.State, flags: Flags,
                       own: set<nat>, reg: set<nat>)
    requires Shown(ct, st, flags, own, reg, user)
    ensures S.Tested(env, user, post, cond, st).0 == S.Tested(env, user, post, cond, ct).0
    ensures Shown(S.Tested(env, user, post, cond, ct).1, S.Tested(env, user, post, cond, st).1, flags, own, reg, user)
    ensures Keeps(ct, S.Tested(env, user, post, cond, ct).1, flags, {}, user)
  {
    RunKeepsFlags(env, user, cond, st, ct, flags, own, reg);
  }

  lemma StepKeepsFlags(env: S.Env, user: set<string>, step: Option<string>, st: S.State, ct: S.State, flags: Flags,
                       own: set<nat>, reg: set<nat>)
    requires Shown(ct, st, flags, own, reg, user)
    ensures Shown(S.Stepped(env, user, step, ct), S.Stepped(env, user, step, st), flags, own, reg, user)
    ensures Keeps(ct, S.Stepped(env, user, step, ct), flags, {}, user)
  {
    if step.Some? { RunKeepsFlags(env, user, step.value, st, ct, flags, own, reg); }
  }

  /** The passes after one pass. */
  function Rest(env: S.Env, user: set<string>, s: Stmt, test: bool, fuel: nat, r: Result): Result
    requires s.While?
  {
    if !GoesOn(r) then None
    else
      ExecStmt(env, user, While(false, s.cond, s.step, s.body), test, fuel, S.Stepped(env, user, s.step, r.value.1),
               r.value.2)
  }

  function CRest(env: S.Env, user: set<string>, s: Stmt, test: bool, flags: Flags, fuel: nat, c: T.CResult): T.CResult
    requires s.While?
  {
    if c.None? then None
    else
      T.CExec(env, user, LowerStmt(While(false, s.cond, s.step, s.body), flags, test), fuel,
              S.Stepped(env, user, s.step, c.value.1))
  }

  /** A loop whose condition fails, or that has used up its iterations. */
  lemma LoopEnds(env: S.Env, user: set<string>, s: Stmt, test: bool, flags: Flags, own: set<nat>, fuel: nat,
                 st: S.State, ct: S.State, reg: set<nat>)
    requires s.While?
    requires S.Tested(env, user, s.post, s.cond, st).0 == S.Tested(env, user, s.post, s.cond, ct).0
    requires S.Tested(env, user, s.post, s.cond, st).0 ==> fuel == 0
    requires Shown(S.Tested(env, user, s.post, s.cond, ct).1, S.Tested(env, user, s.post, s.cond, st).1, flags, own,
                   reg, user)
    requires Keeps(ct, S.Tested(env, user, s.post, s.cond, ct).1, flags, {}, user)
    ensures Corresponds(ExecStmt(env, user, s, test, fuel, st, reg),
                        T.CExec(env, user, LowerStmt(s, flags, test), fuel, ct), ct, flags, own, user)
  {
  }

  /** One more iteration on either side. */
  lemma LoopUnfolds(env: S.Env, user: set<string>, s: Stmt, test: bool, fuel: nat, st: S.State, reg: set<nat>,
                    st': S.State)
    requires s.While? && fuel != 0 && S.Tested(env, user, s.post, s.cond, st) == (true, st')
    ensures var r := ExecPass(env, user, s.body, test, fuel - 1, st', reg);
            ExecStmt(env, user, s, test, fuel, st, reg) == AfterPass(r, Rest(env, user, s, test, fuel - 1, r))
  {
  }

  lemma CLoopUnfolds(env: S.Env, user: set<string>, s: Stmt, test: bool, flags: Flags, fuel: nat, ct: S.State,
                     ct': S.State)
    requires s.While? && fuel != 0 && S.Tested(env, user, s.post, s.cond, ct) == (true, ct')
    ensures var c := T.CExec(env, user, LowerPass(s.body, flags, test), fuel - 1, ct');
            T.CExec(env, user, LowerStmt(s, flags, test), fuel, ct)
              == M.CAfterPass(c, CRest(env, user, s, test, flags, fuel - 1, c))
  {
  }

  function LowerPass(body: Stmt, flags: Flags, test: bool): T.CStmt
  {
    if Owns(body, test) then LowerBody(body.decls, body.items, flags, test) else LowerStmt(body, flags, test)
  }

  lemma {:induction false} PassCorresponds(env: S.Env, user: set<string>, body: Stmt, test: bool, flags: Flags,
                                           own: set<nat>, fuel: nat, st: S.State, ct: S.State, reg: set<nat>)
    requires Fits(body, flags, user) && (!Owns(body, test) ==> Own(body, test) <= own)
    requires Shown(ct, st, flags, own, reg, user)
    ensures Corresponds(ExecPass(env, user, body, test, fuel, st, reg),
                        T.CExec(env, user, LowerPass(body, flags, test), fuel, ct), ct, flags, own, user)
    decreases fuel, body, 2
  {
    if Owns(body, test) {
      BodyCorrespondence(env, user, body.decls, body.items, test, flags, fuel, st, ct);
    } else {
      StmtCorresponds(env, user, body, test, flags, own, fuel, st, ct, reg);
    }
  }

  lemma ExecFirst(env: S.Env, user: set<string>, code: seq<T.CStmt>, tail: seq<T.CStmt>, fuel: nat, ct: S.State,
                  next: S.State)
    requires code != [] && code[1..] == tail && M.NoLabels(code)
    requires T.CExec(env, user, code[0], fuel, ct) == Some((T.CNormal, next))
    ensures T.CExecFrom(env, user, code, 0, fuel, ct) == T.CExecFrom(env, user, tail, 0, fuel, next)
  {
    assert code[..|code|] == code && code[1..1 + |tail|] == tail;
    ExecInside(env, user, code, 1, tail, 0, fuel, next);
    var r := T.CExecFrom(env, user, tail, 0, fuel, next);
    if r.Some? && r.value.0.CWent? { LabelsLater(code, |code|, r.value.0.target); }
  }

  lemma {:induction false} StmtsCorrespond(env: S.Env, user: set<string>, items: seq<Stmt>, test: bool, flags: Flags,
                                           own: set<nat>, fuel: nat, st: S.State, ct: S.State, reg: set<nat>)
    requires AllFit(items, flags, user) && OwnAll(items, test) <= own && Shown(ct, st, flags, own, reg, user)
    ensures Corresponds(ExecStmts(env, user, items, test, fuel, st, reg),
                        T.CExecFrom(env, user, LowerStmts(items, flags, test), 0, fuel, ct), ct, flags, own, user)
    decreases fuel, items, 0
  {
    if items != [] {
      FitFirst(items, flags, user);
      StmtCorresponds(env, user, items[0], test, flags, own, fuel, st, ct, reg);
      var code := LowerStmts(items, flags, test);
      var r := ExecStmt(env, user, items[0], test, fuel, st, reg);
      var c := T.CExec(env, user, code[0], fuel, ct);
      LoweredHasNoLabels(items, flags, test);
      if r.Some? && r.value.0.Normal? {
        StmtsCorrespond(env, user, items[1..], test, flags, own, fuel, r.value.1, c.value.1, r.value.2);
        var tail := LowerStmts(items[1..], flags, test);
        ExecFirst(env, user, code, tail, fuel, ct, c.value.1);
        FromLater(ExecStmts(env, user, items[1..], test, fuel, r.value.1, r.value.2),
                  T.CExecFrom(env, user, tail, 0, fuel, c.value.1), ct, c.value.1, flags, own, own, user);
      }
    }
  }

  function Label(test: bool): (r: seq<T.CStmt>)
    ensures |r| == if test then 1 else 0
  {
    if test then [T.CLabel(FINISH)] else []
  }

  /** The items of a body with defers: flags, code, the label of a @test, cleanup. */
  ghost predicate Laid(all: seq<T.CStmt>, defers: seq<Stmt>, code: seq<T.CStmt>, test: bool, flags: Flags)
    requires forall d | d in defers :: d.Defer?
  {
    M.NoLabels(code) && all == Declarations(defers, flags) + code + Label(test) + CleanupCode(defers, flags)
  }

  lemma {:induction false} CleanupHasNoLabels(defers: seq<Stmt>, flags: Flags)
    requires forall d | d in defers :: d.Defer?
    ensures M.NoLabels(CleanupCode(defers, flags))
  {
    if defers != [] { CleanupHasNoLabels(defers[..|defers| - 1], flags); }
  }

  lemma LabelAtIs(all: seq<T.CStmt>, k: nat)
    requires forall i | 0 <= i < |all| && i != k :: !all[i].CLabel?
    ensures k < |all| && all[k] == T.CLabel(FINISH) ==> T.LabelAt(all, FINISH) == k
    ensures |all| <= k || !all[k].CLabel? ==> T.LabelAt(all, FINISH) == |all|
  {
  }

  /** Four parts of a list. */
  lemma PartsAt(all: seq<T.CStmt>, d: seq<T.CStmt>, m: seq<T.CStmt>, l: seq<T.CStmt>, c: seq<T.CStmt>)
    requires all == d + m + l + c
    ensures all[..|d|] == d && all[|d|..|d| + |m|] == m && all[..|d| + |m|] == d + m
    ensures |l| == 1 ==> all[|d| + |m|] == l[0]
    ensures all[|d| + |m| + |l|..] == c
  {
  }

  lemma BodyTail(all: seq<T.CStmt>, defers: seq<Stmt>, code: seq<T.CStmt>, test: bool, flags: Flags)
    requires (forall d | d in defers :: d.Defer?) && Laid(all, defers, code, test, flags)
    ensures var k := |defers| + |code|;
            && k + |Label(test)| <= |all| && (test ==> all[k] == T.CLabel(FINISH))
            && all[k + |Label(test)|..] == CleanupCode(defers, flags)
  {
    PartsAt(all, Declarations(defers, flags), code, Label(test), CleanupCode(defers, flags));
  }

  lemma BodyHead(all: seq<T.CStmt>, defers: seq<Stmt>, code: seq<T.CStmt>, test: bool, flags: Flags)
    requires (forall d | d in defers :: d.Defer?) && Laid(all, defers, code, test, flags)
    ensures |defers| + |code| + |Label(test)| <= |all| && M.NoLabels(all[..|defers| + |code|])
    ensures all[..|defers|] == Declarations(defers, flags) && all[|defers|..|defers| + |code|] == code
  {
    PartsAt(all, Declarations(defers, flags), code, Label(test), CleanupCode(defers, flags));
  }

  /** The only label of a body is that of a @test, right before the cleanup. */
  lemma BodyLabel(all: seq<T.CStmt>, defers: seq<Stmt>, code: seq<T.CStmt>, test: bool, flags: Flags)
    requires (forall d | d in defers :: d.Defer?) && Laid(all, defers, code, test, flags)
    ensures T.LabelAt(all, FINISH) == if test then |defers| + |code| else |all|
  {
    var k, c := |defers| + |code|, CleanupCode(defers, flags);
    BodyHead(all, defers, code, test, flags);
    BodyTail(all, defers, code, test, flags);
    CleanupHasNoLabels(defers, flags);
    forall i | 0 <= i < |all| && i != k ensures !all[i].CLabel? {
      if i < k { assert all[i] == all[..k][i]; } else { assert all[i] == c[i - k - |Label(test)|]; }
    }
    if !test && k < |all| { assert all[k] == c[0]; }
    LabelAtIs(all, k);
  }

  /** A body starts by clearing its flags, and then runs its code until that ends, jumps to the label, or leaves. */
  lemma ExecHead(env: S.Env, user: set<string>, all: seq<T.CStmt>, defers: seq<Stmt>, code: seq<T.CStmt>, flags: Flags,
                 fuel: nat, ct: S.State)
    requires (forall d | d in defers :: d.Defer?) && |defers| + |code| <= |all| && M.NoLabels(all[..|defers| + |code|])
    requires all[..|defers|] == Declarations(defers, flags) && all[|defers|..|defers| + |code|] == code
    ensures T.CExecFrom(env, user, all, 0, fuel, ct)
         == Resume(env, user, all, |defers| + |code|, fuel,
                   T.CExecFrom(env, user, code, 0, fuel, Zeroed(defers, flags, ct)))
  {
    assert defers[0..] == defers;
    ExecDeclarations(env, user, all, defers, 0, flags, fuel, ct);
    ExecCode(env, user, all, |defers|, code, fuel, Zeroed(defers, flags, ct));
  }

  lemma ExecCode(env: S.Env, user: set<string>, all: seq<T.CStmt>, k: nat, code: seq<T.CStmt>, fuel: nat, ct: S.State)
    requires k + |code| <= |all| && all[k..k + |code|] == code && M.NoLabels(all[..k + |code|])
    ensures T.CExecFrom(env, user, all, k, fuel, ct)
         == Resume(env, user, all, k + |code|, fuel, T.CExecFrom(env, user, code, 0, fuel, ct))
  {
    ExecInside(env, user, all, k, code, 0, fuel, ct);
  }

  /** From the end of its code on, a body runs its cleanup. */
  lemma ExecTail(env: S.Env, user: set<string>, all: seq<T.CStmt>, k: nat, defers: seq<Stmt>, test: bool, flags: Flags,
                 own: set<nat>, reg: set<nat>, fuel: nat, st: S.State, ct: S.State)
    requires (forall d | d in defers :: d.Defer?) && k + |Label(test)| <= |all|
    requires (test ==> all[k] == T.CLabel(FINISH)) && all[k + |Label(test)|..] == CleanupCode(defers, flags)
    requires own == (set d | d in defers :: d.at) && FlagsFit(flags, own, user) && M.Agree(st, ct, user)
    requires Shows(ct, flags, own, reg)
    ensures var c := T.CExecFrom(env, user, all, k, fuel, ct);
            && c.Some? && c.value.0 == T.CNormal && M.Agree(Cleanup(env, user, defers, reg, st), c.value.1, user)
            && forall x | x !in user :: T.Read(c.value.1, x) == T.Read(ct, x)
  {
    if test { M.StepOn(env, user, all, k, fuel, ct, ct); }
    ExecCleanup(env, user, all, k + |Label(test)|, defers, flags, reg, fuel, st, ct);
  }

  ghost predicate ItemsCorrespond(env: S.Env, user: set<string>, r: Result, defers: seq<Stmt>, test: bool, flags: Flags,
                                  own: set<nat>, c: T.CResult, ct1: S.State)
    requires forall d | d in defers :: d.Defer?
  {
    && (r.None? <==> c.None?)
    && (r.Some? ==>
          && Keeps(ct1, c.value.1, flags, own, user)
          && if Reaches(r.value.0, defers, test)
             then c.value.0 == T.CNormal && M.Agree(Cleanup(env, user, defers, r.value.2, r.value.1), c.value.1, user)
             else c.value.0 == COutcomeOf(r.value.0) && M.Agree(r.value.1, c.value.1, user))
  }

  /** A body ends as its cleanup does if its code reaches the end or the label, and otherwise as its code does. */
  lemma Combine(env: S.Env, user: set<string>, r: Result, c: T.CResult, whole: T.CResult, defers: seq<Stmt>, test: bool,
                flags: Flags, own: set<nat>, ct1: S.State)
    requires (forall d | d in defers :: d.Defer?) && defers != [] && Corresponds(r, c, ct1, flags, own, user)
    requires r.Some? && Reaches(r.value.0, defers, test) ==>
               && whole.Some? && whole.value.0 == T.CNormal
               && M.Agree(Cleanup(env, user, defers, r.value.2, r.value.1), whole.value.1, user)
               && Keeps(c.value.1, whole.value.1, flags, {}, user)
    requires !(r.Some? && Reaches(r.value.0, defers, test)) ==> whole == c
    ensures ItemsCorrespond(env, user, r, defers, test, flags, own, whole, ct1)
  {
    if r.Some? && Reaches(r.value.0, defers, test) {
      KeepsTwice(ct1, c.value.1, whole.value.1, flags, own, {}, own, user);
    }
  }

  /** The code of a body with defers only ever jumps to the label of a @test. */
  lemma ResumeCases(env: S.Env, user: set<string>, all: seq<T.CStmt>, k: nat, fuel: nat, r: Result, c: T.CResult,
                    ct1: S.State, defers: seq<Stmt>, test: bool, flags: Flags, own: set<nat>)
    requires k <= |all| && (test ==> k < |all|) && T.LabelAt(all, FINISH) == (if test then k else |all|)
    requires defers != [] && Corresponds(r, c, ct1, flags, own, user)
    ensures Resume(env, user, all, k, fuel, c) ==
              if r.Some? && Reaches(r.value.0, defers, test) then T.CExecFrom(env, user, all, k, fuel, c.value.1) else c
  {
  }

  /** From the flags' declarations to the end of the cleanup. */
  lemma ExecBodyItems(env: S.Env, user: set<string>, all: seq<T.CStmt>, defers: seq<Stmt>, code: seq<T.CStmt>,
                      test: bool, flags: Flags, own: set<nat>, fuel: nat, ct: S.State, r: Result, c: T.CResult)
    requires (forall d | d in defers :: d.Defer?) && Laid(all, defers, code, test, flags) && defers != []
    requires own == (set d | d in defers :: d.at) && FlagsFit(flags, own, user)
    requires c == T.CExecFrom(env, user, code, 0, fuel, Zeroed(defers, flags, ct))
    requires Corresponds(r, c, Zeroed(defers, flags, ct), flags, own, user)
    ensures ItemsCorrespond(env, user, r, defers, test, flags, own, T.CExecFrom(env, user, all, 0, fuel, ct),
                            Zeroed(defers, flags, ct))
  {
    var ct1 := Zeroed(defers, flags, ct);
    ExecWhole(env, user, all, defers, code, test, flags, own, fuel, ct, r, c);
    if r.Some? && Reaches(r.value.0, defers, test) {
      LaidTail(env, user, all, defers, code, test, flags, own, r.value.2, fuel, r.value.1, c.value.1);
    }
    Combine(env, user, r, c, T.CExecFrom(env, user, all, 0, fuel, ct), defers, test, flags, own, ct1);
  }

  lemma ExecWhole(env: S.Env, user: set<string>, all: seq<T.CStmt>, defers: seq<Stmt>, code: seq<T.CStmt>, test: bool,
                  flags: Flags, own: set<nat>, fuel: nat, ct: S.State, r: Result, c: T.CResult)
    requires (forall d | d in defers :: d.Defer?) && Laid(all, defers, code, test, flags) && defers != []
    requires c == T.CExecFrom(env, user, code, 0, fuel, Zeroed(defers, flags, ct))
    requires Corresponds(r, c, Zeroed(defers, flags, ct), flags, own, user)
    ensures |defers| + |code| <= |all|
    ensures T.CExecFrom(env, user, all, 0, fuel, ct)
         == if r.Some? && Reaches(r.value.0, defers, test)
            then T.CExecFrom(env, user, all, |defers| + |code|, fuel, c.value.1)
            else c
  {
    WholeResumes(env, user, all, defers, code, test, flags, fuel, ct);
    ResumeCases(env, user, all, |defers| + |code|, fuel, r, c, Zeroed(defers, flags, ct), defers, test, flags, own);
  }

  lemma WholeResumes(env: S.Env, user: set<string>, all: seq<T.CStmt>, defers: seq<Stmt>, code: seq<T.CStmt>,
                     test: bool, flags: Flags, fuel: nat, ct: S.State)
    requires (forall d | d in defers :: d.Defer?) && Laid(all, defers, code, test, flags)
    ensures var k := |defers| + |code|;
            && k <= |all| && (test ==> k < |all|) && T.LabelAt(all, FINISH) == (if test then k else |all|)
            && T.CExecFrom(env, user, all, 0, fuel, ct)
                 == Resume(env, user, all, k, fuel, T.CExecFrom(env, user, code, 0, fuel, Zeroed(defers, flags, ct)))
  {
    BodyHead(all, defers, code, test, flags);
    BodyLabel(all, defers, code, test, flags);
    ExecHead(env, user, all, defers, code, flags, fuel, ct);
  }

  lemma LaidTail(env: S.Env, user: set<string>, all: seq<T.CStmt>, defers: seq<Stmt>, code: seq<T.CStmt>, test: bool,
                 flags: Flags, own: set<nat>, reg: set<nat>, fuel: nat, st: S.State, ct: S.State)
    requires (forall d | d in defers :: d.Defer?) && Laid(all, defers, code, test, flags)
    requires own == (set d | d in defers :: d.at) && FlagsFit(flags, own, user) && M.Agree(st, ct, user)
    requires Shows(ct, flags, own, reg)
    ensures |defers| + |code| <= |all|
    ensures var c := T.CExecFrom(env, user, all, |defers| + |code|, fuel, ct);
            && c.Some? && c.value.0 == T.CNormal && M.Agree(Cleanup(env, user, defers, reg, st), c.value.1, user)
            && Keeps(ct, c.value.1, flags, {}, user)
  {
    BodyTail(all, defers, code, test, flags);
    ExecTail(env, user, all, |defers| + |code|, defers, test, flags, own, reg, fuel, st, ct);
  }

  /** Leaving the body restores its flags. */
  lemma LeaveBody(st: S.State, ct: S.State, st': S.State, ct': S.State, ct1: S.State, decls: set<string>,
                  defers: seq<Stmt>, flags: Flags, own: set<nat>, user: set<string>)
    requires (forall d | d in defers :: d.Defer?) && own == (set d | d in defers :: d.at) && FlagsFit(flags, own, user)
    requires M.Agree(st, ct, user) && decls <= user && M.Agree(st', ct', user)
    requires ct1 == Zeroed(defers, flags, ct) && Keeps(ct1, ct', flags, own, user)
    ensures M.Agree(S.Leave(st, st', decls), S.Leave(ct, ct', decls + FlagNames(defers, flags)), user)
    ensures forall x | x !in user :: T.Read(S.Leave(ct, ct', decls + FlagNames(defers, flags)), x) == T.Read(ct, x)
  {
    ZeroedReads(defers, flags, user, ct);
    M.LeaveAgrees(st, ct, st', ct', decls, user);
    LeaveMore(ct, ct', decls, FlagNames(defers, flags), user);
  }

  /** Names that are not the program's may be restored as well. */
  lemma LeaveMore(ct: S.State, ct': S.State, decls: set<string>, names: set<string>, user: set<string>)
    requires names !! user
    ensures M.Agree(S.Leave(ct, ct', decls), S.Leave(ct, ct', decls + names), user)
  {
    var plain, left := S.Leave(ct, ct', decls), S.Leave(ct, ct', decls + names);
    forall x | x in user
      ensures (x in plain.vars <==> x in left.vars) && (x in left.vars ==> left.vars[x] == plain.vars[x])
    {
    }
    M.PointwiseAgree(plain, left, user);
  }

  /** For every pass of every body: the emitted C runs what the structured reading runs, and leaves no flag behind. */
  lemma {:induction false} BodyCorrespondence(env: S.Env, user: set<string>, decls: set<string>, items: seq<Stmt>,
                                              test: bool, flags: Flags, fuel: nat, st: S.State, ct: S.State)
    requires decls <= user && AllFit(items, flags, user) && M.Agree(st, ct, user)
    ensures BodyCorresponds(ExecBody(env, user, decls, items, test, fuel, st),
                            T.CExec(env, user, LowerBody(decls, items, flags, test), fuel, ct), ct, user)
    decreases fuel, items, 1
  {
    var own := OwnAll(items, test);
    OwnIsDefers(items, test);
    if DefersOfAll(items, test) == [] {
      StmtsCorrespond(env, user, items, test, flags, own, fuel, st, ct, {});
      PlainBody(env, user, decls, items, test, flags, fuel, st, ct);
    } else {
      var ct1 := Zeroed(DefersOfAll(items, test), flags, ct);
      ZeroedReads(DefersOfAll(items, test), flags, user, ct);
      ZeroedShows(DefersOfAll(items, test), flags, own, user, st, ct);
      StmtsCorrespond(env, user, items, test, flags, own, fuel, st, ct1, {});
      FlaggedBody(env, user, decls, items, test, flags, fuel, st, ct);
    }
  }

  lemma PlainBody(env: S.Env, user: set<string>, decls: set<string>, items: seq<Stmt>, test: bool, flags: Flags,
                  fuel: nat, st: S.State, ct: S.State)
    requires decls <= user && M.Agree(st, ct, user) && DefersOfAll(items, test) == []
    requires Corresponds(ExecStmts(env, user, items, test, fuel, st, {}),
                         T.CExecFrom(env, user, LowerStmts(items, flags, test), 0, fuel, ct),
                         ct, flags, {}, user)
    ensures BodyCorresponds(ExecBody(env, user, decls, items, test, fuel, st),
                            T.CExec(env, user, LowerBody(decls, items, flags, test), fuel, ct), ct, user)
  {
    var r := ExecStmts(env, user, items, test, fuel, st, {});
    var c := T.CExecFrom(env, user, LowerStmts(items, flags, test), 0, fuel, ct);
    if r.Some? { BlockKeeps(st, ct, r.value.1, c.value.1, decls, flags, {}, r.value.2, {}, user); }
  }

  lemma ZeroedShows(defers: seq<Stmt>, flags: Flags, own: set<nat>, user: set<string>, st: S.State, ct: S.State)
    requires (forall d | d in defers :: d.Defer?) && own == (set d | d in defers :: d.at) && FlagsFit(flags, own, user)
    requires M.Agree(st, ct, user)
    ensures Shown(Zeroed(defers, flags, ct), st, flags, own, {}, user)
  {
    ZeroedReads(defers, flags, user, ct);
  }

  lemma FlaggedBody(env: S.Env, user: set<string>, decls: set<string>, items: seq<Stmt>, test: bool, flags: Flags,
                    fuel: nat, st: S.State, ct: S.State)
    requires decls <= user && AllFit(items, flags, user) && M.Agree(st, ct, user) && DefersOfAll(items, test) != []
    requires var ct1 := Zeroed(DefersOfAll(items, test), flags, ct);
             Corresponds(ExecStmts(env, user, items, test, fuel, st, {}),
                         T.CExecFrom(env, user, LowerStmts(items, flags, test), 0, fuel, ct1),
                         ct1, flags, OwnAll(items, test), user)
    ensures BodyCorresponds(ExecBody(env, user, decls, items, test, fuel, st),
                            T.CExec(env, user, LowerBody(decls, items, flags, test), fuel, ct), ct, user)
  {
    var defers, own := DefersOfAll(items, test), OwnAll(items, test);
    var all := Declarations(defers, flags) + LowerStmts(items, flags, test) + Label(test) + CleanupCode(defers, flags);
    var r := ExecStmts(env, user, items, test, fuel, st, {});
    OwnIsDefers(items, test);
    FlaggedItems(env, user, items, test, flags, fuel, st, ct, all);
    LeaveFlagged(env, user, decls, r, defers, test, flags, own, T.CExecFrom(env, user, all, 0, fuel, ct), st, ct,
                 Zeroed(defers, flags, ct));
    BodyRuns(env, user, decls, items, test, flags, fuel, st, ct, all);
  }

  /** Both sides of a body with defers, unfolded. */
  lemma BodyRuns(env: S.Env, user: set<string>, decls: set<string>, items: seq<Stmt>, test: bool, flags: Flags,
                 fuel: nat, st: S.State, ct: S.State, all: seq<T.CStmt>)
    requires DefersOfAll(items, test) != []
    requires all == Declarations(DefersOfAll(items, test), flags) + LowerStmts(items, flags, test) + Label(test)
                    + CleanupCode(DefersOfAll(items, test), flags)
    ensures ExecBody(env, user, decls, items, test, fuel, st)
         == EndOf(env, user, decls, ExecStmts(env, user, items, test, fuel, st, {}), DefersOfAll(items, test), test, st)
    ensures T.CExec(env, user, LowerBody(decls, items, flags, test), fuel, ct)
         == T.CLeaveResult(ct, T.CExecFrom(env, user, all, 0, fuel, ct),
                           decls + FlagNames(DefersOfAll(items, test), flags))
  {
    LowerBodyIs(decls, items, flags, test, all);
    BlockRuns(env, user, decls + FlagNames(DefersOfAll(items, test), flags), all, fuel, ct);
    EndIsReached(env, user, decls, items, test, fuel, st);
  }

  lemma BlockRuns(env: S.Env, user: set<string>, decls: set<string>, all: seq<T.CStmt>, fuel: nat, ct: S.State)
    ensures T.CExec(env, user, T.CBlock(decls, all), fuel, ct)
         == T.CLeaveResult(ct, T.CExecFrom(env, user, all, 0, fuel, ct), decls)
  {
  }

  lemma EndIsReached(env: S.Env, user: set<string>, decls: set<string>, items: seq<Stmt>, test: bool, fuel: nat,
                     st: S.State)
    ensures ExecBody(env, user, decls, items, test, fuel, st)
         == EndOf(env, user, decls, ExecStmts(env, user, items, test, fuel, st, {}), DefersOfAll(items, test), test, st)
  {
  }

  lemma FlaggedItems(env: S.Env, user: set<string>, items: seq<Stmt>, test: bool, flags: Flags, fuel: nat, st: S.State,
                     ct: S.State, all: seq<T.CStmt>)
    requires AllFit(items, flags, user) && DefersOfAll(items, test) != []
    requires all == Declarations(DefersOfAll(items, test), flags) + LowerStmts(items, flags, test) + Label(test)
                    + CleanupCode(DefersOfAll(items, test), flags)
    requires var ct1 := Zeroed(DefersOfAll(items, test), flags, ct);
             Corresponds(ExecStmts(env, user, items, test, fuel, st, {}),
                         T.CExecFrom(env, user, LowerStmts(items, flags, test), 0, fuel, ct1),
                         ct1, flags, OwnAll(items, test), user)
    ensures ItemsCorrespond(env, user, ExecStmts(env, user, items, test, fuel, st, {}), DefersOfAll(items, test), test,
                            flags, OwnAll(items, test), T.CExecFrom(env, user, all, 0, fuel, ct),
                            Zeroed(DefersOfAll(items, test), flags, ct))
  {
    var defers, own, code := DefersOfAll(items, test), OwnAll(items, test), LowerStmts(items, flags, test);
    OwnIsDefers(items, test);
    LoweredHasNoLabels(items, flags, test);
    ExecBodyItems(env, user, all, defers, code, test, flags, own, fuel, ct,
                  ExecStmts(env, user, items, test, fuel, st, {}),
                  T.CExecFrom(env, user, code, 0, fuel, Zeroed(defers, flags, ct)));
  }

  lemma LowerBodyIs(decls: set<string>, items: seq<Stmt>, flags: Flags, test: bool, all: seq<T.CStmt>)
    requires DefersOfAll(items, test) != []
    requires all == Declarations(DefersOfAll(items, test), flags) + LowerStmts(items, flags, test) + Label(test)
                    + CleanupCode(DefersOfAll(items, test), flags)
    ensures LowerBody(decls, items, flags, test) == T.CBlock(decls + FlagNames(DefersOfAll(items, test), flags), all)
  {
  }

  function EndOf(env: S.Env, user: set<string>, decls: set<string>, r: Result, defers: seq<Stmt>, test: bool,
                 st: S.State): BodyResult
    requires forall d | d in defers :: d.Defer?
  {
    if r.None? then None
    else if Reaches(r.value.0, defers, test)
    then Some((Normal, S.Leave(st, Cleanup(env, user, defers, r.value.2, r.value.1), decls)))
    else Some((r.value.0, S.Leave(st, r.value.1, decls)))
  }

  lemma LeaveFlagged(env: S.Env, user: set<string>, decls: set<string>, r: Result, defers: seq<Stmt>, test: bool,
                     flags: Flags, own: set<nat>, c: T.CResult, st: S.State, ct: S.State, ct1: S.State)
    requires (forall d | d in defers :: d.Defer?) && own == (set d | d in defers :: d.at) && FlagsFit(flags, own, user)
    requires decls <= user && M.Agree(st, ct, user) && ct1 == Zeroed(defers, flags, ct)
    requires ItemsCorrespond(env, user, r, defers, test, flags, own, c, ct1)
    ensures BodyCorresponds(EndOf(env, user, decls, r, defers, test, st),
                            T.CLeaveResult(ct, c, decls + FlagNames(defers, flags)), ct, user)
  {
    if r.Some? {
      var end := if Reaches(r.value.0, defers, test) then Cleanup(env, user, defers, r.value.2, r.value.1)
                 else r.value.1;
      LeaveBody(st, ct, end, c.value.1, ct1, decls, defers, flags, own, user);
    }
  }

  // The flags of a whole file.

  ghost predicate IsFlag(text: string, bound: nat, name: string)
  {
    name !in Parts(text) && exists n: nat :: n < bound && name == Numbered(PREFIX, n)
  }

  lemma IsFlagLater(text: string, bound: nat, later: nat, name: string)
    requires IsFlag(text, bound, name) && bound <= later
    ensures IsFlag(text, later, name)
  {
    var n: nat :| n < bound && name == Numbered(PREFIX, n);
    assert n < later;
  }

  /** Different flags for different offsets, all below the serial and none in the text. */
  ghost predicate FreshFlags(text: string, flags: Flags, bound: nat)
  {
    && (forall a | a in flags :: IsFlag(text, bound, flags[a]))
    && (forall a, b | a in flags && b in flags && a != b :: flags[a] != flags[b])
  }

  lemma OneMoreFlag(text: string, flags: Flags, bound: nat, n: nat, at: nat)
    requires FreshFlags(text, flags, bound) && bound <= n && Numbered(PREFIX, n) !in Parts(text)
    ensures FreshFlags(text, flags[at := Numbered(PREFIX, n)], n + 1)
  {
    assert IsFlag(text, n + 1, Numbered(PREFIX, n));
    forall a | a in flags ensures IsFlag(text, n + 1, flags[a]) && flags[a] != Numbered(PREFIX, n) {
      IsFlagLater(text, bound, n + 1, flags[a]);
      var m: nat :| m < bound && flags[a] == Numbered(PREFIX, m);
      if flags[a] == Numbered(PREFIX, n) { NumberedInjective(PREFIX, m, n); }
    }
  }

  lemma {:induction false} FlagsForAll(text: string, defers: seq<Stmt>, from: nat)
    requires forall d | d in defers :: d.Defer?
    ensures forall d | d in defers :: d.at in FlagsOf(text, defers, from)
    decreases |defers|
  {
    if defers != [] {
      FlagsForAll(text, defers[..|defers| - 1], from);
      assert defers == defers[..|defers| - 1] + [defers[|defers| - 1]];
    }
  }

  lemma {:induction false} FlagsAreFresh(text: string, defers: seq<Stmt>, from: nat)
    requires forall d | d in defers :: d.Defer?
    ensures FreshFlags(text, FlagsOf(text, defers, from), SerialAfter(text, defers, from))
    decreases |defers|
  {
    if defers != [] {
      var before, last := defers[..|defers| - 1], defers[|defers| - 1];
      FlagsAreFresh(text, before, from);
      var bound := SerialAfter(text, before, from);
      OneMoreFlag(text, FlagsOf(text, before, from), bound, FirstFree(PREFIX, bound, Parts(text)), last.at);
    }
  }

  lemma {:induction false} DefersInFile(file: seq<Definition>, k: nat)
    requires k < |file| && !file[k].Stray?
    ensures forall d | d in AllDefersIn(file[k].items) :: d in DefersIn(file)
    decreases k
  {
    if k > 0 { DefersInFile(file[1..], k - 1); }
  }

  /**
     For every function and @test of a file, and whatever the environment does: the emitted C makes the same
     calls, leaves the program's variables the same and ends in the same way as the structured reading of
     `defer`. The names of the program are parts of the source text.
   */
  lemma DeferIsPreserved(env: S.Env, user: set<string>, file: seq<Definition>, k: nat, text: string, fuel: nat,
                         st: S.State)
    requires k < |file| && !file[k].Stray? && user <= Parts(text)
    requires file[k].decls <= user && AllDeclareIn(file[k].items, user)
    ensures var flags := FlagsOf(text, DefersIn(file), 0);
            BodyCorresponds(ExecBody(env, user, file[k].decls, file[k].items, file[k].Test?, fuel, st),
                            T.CExec(env, user, LowerBody(file[k].decls, file[k].items, flags, file[k].Test?), fuel, st),
                            st, user)
  {
    FlagsForAll(text, DefersIn(file), 0);
    FlagsAreFresh(text, DefersIn(file), 0);
    DefersInFile(file, k);
    BodyCorrespondence(env, user, file[k].decls, file[k].items, file[k].Test?, FlagsOf(text, DefersIn(file), 0), fuel,
                       st, st);
  }
}
