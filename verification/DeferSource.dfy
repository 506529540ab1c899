/**
 Function bodies with `defer`: a deferred statement runs when control reaches the closing brace of the
 body that owns it, if its defer was executed in that pass, and in reverse source order.
 */
module DeferSource {
  import opened Wrappers
  import S = TryCatchSource

  /** `at` is the offset of the defer in the source; `nests` says that its statement contains another defer. */
  datatype Stmt =
    | Run(text: string)
    | Defer(at: nat, text: string, nests: bool)
    | Nested(decls: set<string>, items: seq<Stmt>)
    | If(cond: string, thn: Stmt, els: Stmt)
    | While(post: bool, cond: string, step: Option<string>, body: Stmt)
    | JumpTo(jump: S.Jump)
    | Return(text: string)
    | Fail // a failed assertion of a @test

  /** A braced loop body owns its defers, except inside a @test, where only the test's own body does. */
  predicate Owns(body: Stmt, test: bool) { body.Nested? && !test }

  /** The defers that belong to the body around a statement, in source order. */
  function DefersOf(s: Stmt, test: bool): (r: seq<Stmt>)
    ensures forall d | d in r :: d.Defer?
  {
    match s
    case Defer(_, _, _) => [s]
    case Nested(_, items) => DefersOfAll(items, test)
    case If(_, thn, els) => DefersOf(thn, test) + DefersOf(els, test)
    case While(_, _, _, body) => if Owns(body, test) then [] else DefersOf(body, test)
    case _ => []
  }

  function DefersOfAll(items: seq<Stmt>, test: bool): (r: seq<Stmt>)
    ensures forall d | d in r :: d.Defer?
  {
    if items == [] then [] else DefersOf(items[0], test) + DefersOfAll(items[1..], test)
  }

  datatype Outcome = Normal | Jumped(jump: S.Jump) | Returned(value: int) | Failed

  /** The offsets are those of the defers executed so far in this pass of the owner. */
  type Result = Option<(Outcome, S.State, set<nat>)>
  type BodyResult = Option<(Outcome, S.State)>

  /** Runs the registered ones of some deferred statements, the last one first. */
  function Cleanup(env: S.Env, user: set<string>, defers: seq<Stmt>, registered: set<nat>, st: S.State): S.State
    requires forall d | d in defers :: d.Defer?
  {
    if defers == [] then st
    else
      var last := defers[|defers| - 1];
      var st' := if last.at in registered then S.RunText(env, user, last.text, st).0 else st;
      Cleanup(env, user, defers[..|defers| - 1], registered, st')
  }

  /** `fuel` bounds loop iterations only; no result means it ran out. */
  function ExecStmt(env: S.Env, user: set<string>, s: Stmt, test: bool, fuel: nat, st: S.State, reg: set<nat>): Result
    decreases fuel, s, 1
  {
    match s
    case Run(text) => Some((Normal, S.RunText(env, user, text, st).0, reg))
    case Defer(at, _, _) => Some((Normal, st, reg + {at}))
    case Nested(decls, items) =>
      var r := ExecStmts(env, user, items, test, fuel, st, reg);
      if r.None? then None else Some((r.value.0, S.Leave(st, r.value.1, decls), r.value.2))
    case If(cond, thn, els) =>
      var (st', eff) := S.RunText(env, user, cond, st);
      ExecStmt(env, user, if eff.returned != 0 then thn else els, test, fuel, st', reg)
    case While(post, cond, step, body) =>
      var (go, st') := S.Tested(env, user, post, cond, st);
      if !go then Some((Normal, st', reg))
      else if fuel == 0 then None
      else
        var r := ExecPass(env, user, body, test, fuel - 1, st', reg);
        if r.None? then None
        else if r.value.0 == Normal || r.value.0 == Jumped(S.Continue)
        then
          var next := S.Stepped(env, user, step, r.value.1);
          ExecStmt(env, user, While(false, cond, step, body), test, fuel - 1, next, r.value.2)
        else if r.value.0 == Jumped(S.Break) then Some((Normal, r.value.1, r.value.2))
        else r
    case JumpTo(jump) => Some((Jumped(jump), st, reg))
    case Return(text) =>
      var (st', eff) := S.RunText(env, user, text, st);
      Some((Returned(eff.returned), st', reg))
    case Fail => Some((Failed, st, reg))
  }

  /** One pass of a loop body, which keeps its own register if it owns its defers. */
  function ExecPass(env: S.Env, user: set<string>, body: Stmt, test: bool, fuel: nat, st: S.State,
                    reg: set<nat>): Result
    decreases fuel, body, 2
  {
    if !Owns(body, test) then ExecStmt(env, user, body, test, fuel, st, reg)
    else
      var r := ExecBody(env, user, body.decls, body.items, test, fuel, st);
      if r.None? then None else Some((r.value.0, r.value.1, reg))
  }

  function ExecStmts(env: S.Env, user: set<string>, items: seq<Stmt>, test: bool, fuel: nat, st: S.State,
                     reg: set<nat>): Result
    decreases fuel, items, 0
  {
    if items == [] then Some((Normal, st, reg))
    else
      var r := ExecStmt(env, user, items[0], test, fuel, st, reg);
      if r.Some? && r.value.0.Normal? then ExecStmts(env, user, items[1..], test, fuel, r.value.1, r.value.2) else r
  }

  /** Control reaches the closing brace; in a @test with defers a failed assertion goes there too. */
  predicate Reaches(outcome: Outcome, defers: seq<Stmt>, test: bool)
  {
    outcome == Normal || (outcome == Failed && test && defers != [])
  }

  /** One pass of a body: its items, then, at the closing brace, the deferred statements of this pass. */
  function ExecBody(env: S.Env, user: set<string>, decls: set<string>, items: seq<Stmt>, test: bool, fuel: nat,
                    st: S.State): BodyResult
    decreases fuel, items, 1
  {
    var r := ExecStmts(env, user, items, test, fuel, st, {});
    if r.None? then None
    else if Reaches(r.value.0, DefersOfAll(items, test), test)
    then Some((Normal, S.Leave(st, Cleanup(env, user, DefersOfAll(items, test), r.value.2, r.value.1), decls)))
    else Some((r.value.0, S.Leave(st, r.value.1, decls)))
  }

  /** The texts that cleanup runs. */
  function Registered(defers: seq<Stmt>, registered: set<nat>): seq<string>
    requires forall d | d in defers :: d.Defer?
  {
    if defers == [] then []
    else
      var last := defers[|defers| - 1];
      (if last.at in registered then [last.text] else []) + Registered(defers[..|defers| - 1], registered)
  }

  /** Cleanup runs exactly the registered statements, each once, in reverse source order. */
  lemma {:induction false} CleanupTrace(env: S.Env, user: set<string>, defers: seq<Stmt>, registered: set<nat>,
                                        st: S.State)
    requires forall d | d in defers :: d.Defer?
    ensures Cleanup(env, user, defers, registered, st).trace == st.trace + Registered(defers, registered)
  {
    if defers != [] {
      var last := defers[|defers| - 1];
      var st' := if last.at in registered then S.RunText(env, user, last.text, st).0 else st;
      var rest := defers[..|defers| - 1];
      CleanupTrace(env, user, rest, registered, st');
      assert st'.trace == st.trace + (if last.at in registered then [last.text] else []);
      assert Registered(defers, registered)
          == (if last.at in registered then [last.text] else []) + Registered(rest, registered);
    }
  }
}
