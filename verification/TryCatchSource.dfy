/**
 The checked-error subset of C-plus and its structured reading: a body is left at its first nonzero
 status, the first matching arm runs, and what no arm matches, or an arm raises, belongs to the
 enclosing @try.
 */
module TryCatchSource {
  import opened Wrappers

  /** How a function reports its status: by its result, or through a final `error_t *`. */
  datatype Convention = ErrorReturn | ErrorOut

  /** What stands, outside comments, between the start of the statement and the call. */
  datatype Prefix = NoPrefix | Assignment | OtherPrefix

  /**
   One call, inside an expression or statement, of a function known to throw.
   `declared` counts its parameters without an implicit receiver.
   */
  datatype ThrowingCall = ThrowingCall(convention: Convention, declared: int, actual: nat, prefix: Prefix,
                                       suffixEmpty: bool)

  /** Source text whose meaning the environment gives, with the throwing calls it contains in source order. */
  datatype Code = Code(text: string, calls: seq<ThrowingCall>)

  datatype Jump = Break | Continue | GotoUser(target: string)

  /** What a `for` loop starts with. */
  datatype Start = Declaration(code: Code) | Expression(code: Code)

  /**
   `decls` are the names the block declares directly. The parts of an `if` and of a loop are statements;
   braces around them are `Nested`. A loop is tested before or, if `post`, after each pass, and steps
   after each pass, as a `for` loop does, which is a start and the loop behind it. The case labels of a
   `switch` stand among the items of its body; `default` has no text.
   */
  datatype Block = Block(decls: set<string>, items: seq<Stmt>)

  datatype Stmt =
    | Simple(code: Code)
    | Nested(block: Block)
    | If(cond: Code, thn: Stmt, els: Option<Stmt>)
    | While(post: bool, cond: Code, step: Option<Code>, pass: Stmt)
    | For(decls: set<string>, start: Start, loop: Stmt)
    | Switch(cond: Code, body: Block)
    | Case(choice: Option<string>)
    | JumpTo(jump: Jump)
    | Return(code: Code)
    | Try(braced: bool, body: Block, arms: seq<Arm>)

  /** `binding` is absent when the clause does not declare an `error_t` name. No codes: a catch-all. */
  datatype Arm = Arm(codes: Option<seq<string>>, binding: Option<string>, body: Block)

  /* ---------- the environment and the store ---------- */

  /** What running a piece of source text does to the variables it can name, and the status it reports. */
  datatype Effect = Effect(vars: map<string, int>, returned: int, written: Option<int>)

  /** `run` sees the text, the program's variables and all calls made so far; `code` values error codes. */
  datatype Env = Env(run: (string, map<string, int>, seq<string>) -> Effect, code: string -> int)

  datatype State = State(vars: map<string, int>, trace: seq<string>)

  function Restrict(m: map<string, int>, names: set<string>): map<string, int>
  {
    map x | x in m && x in names :: m[x]
  }

  /** Source text runs on the variables in `user`, the identifiers of the program, and can touch no other. */
  function RunText(env: Env, user: set<string>, text: string, st: State): (State, Effect)
  {
    var eff := env.run(text, Restrict(st.vars, user), st.trace);
    (State((st.vars - user) + Restrict(eff.vars, user), st.trace + [text]), eff)
  }

  /** Leaving a scope gives the names it declared their earlier values back. */
  function Leave(outer: State, inner: State, decls: set<string>): State
  {
    State((inner.vars - decls) + Restrict(outer.vars, decls), inner.trace)
  }

  function Assign(st: State, name: string, value: int): State
  {
    st.(vars := st.vars[name := value])
  }

  /* ---------- which call of a statement is checked ---------- */

  /** The caller passes its own error pointer: the call is left to manual handling. */
  predicate IsManual(call: ThrowingCall)
  {
    call.convention == ErrorOut && call.actual == call.declared
  }

  /** The one call of a statement that the enclosing @try checks, if there is one. */
  function CheckedCall(calls: seq<ThrowingCall>): Option<Convention>
  {
    if calls == [] then None
    else if IsManual(calls[0]) then CheckedCall(calls[1..])
    else Some(calls[0].convention)
  }

  /** The status of a checked call; a pointer the callee never wrote through reads as success. */
  function StatusOf(convention: Convention, eff: Effect): int
  {
    match convention
    case ErrorReturn => eff.returned
    case ErrorOut => if eff.written.Some? then eff.written.value else 0
  }

  /* ---------- structured execution ---------- */

  datatype Outcome = Normal | Jumped(jump: Jump) | Returned(value: int) | Raised(status: int)

  type Result = Option<(Outcome, State)>

  predicate Matches(env: Env, arm: Arm, status: int)
  {
    arm.codes.None? || exists i :: 0 <= i < |arm.codes.value| && env.code(arm.codes.value[i]) == status
  }

  /** Index of the first arm, in source order, that takes the status; |arms| when none does. */
  function FirstMatch(env: Env, arms: seq<Arm>, status: int): nat
  {
    if arms == [] || Matches(env, arms[0], status) then 0 else 1 + FirstMatch(env, arms[1..], status)
  }

  lemma FirstMatchInRange(env: Env, arms: seq<Arm>, status: int)
    ensures FirstMatch(env, arms, status) <= |arms|
  {
  }

  /** A complete statement; if its call is checked, a nonzero status is raised. */
  function ExecSimple(env: Env, user: set<string>, code: Code, checked: bool, st: State): (r: Result)
    ensures r.Some?
  {
    var (st', eff) := RunText(env, user, code.text, st);
    var call := CheckedCall(code.calls);
    if checked && call.Some? && StatusOf(call.value, eff) != 0
    then Some((Raised(StatusOf(call.value, eff)), st'))
    else Some((Normal, st'))
  }

  /** The test before a pass, which the first pass of a `do` loop goes without. */
  function Tested(env: Env, user: set<string>, post: bool, cond: string, st: State): (bool, State)
  {
    if post then (true, st)
    else
      var (st', eff) := RunText(env, user, cond, st);
      (eff.returned != 0, st')
  }

  function Stepped(env: Env, user: set<string>, step: Option<string>, st: State): State
  {
    if step.None? then st else RunText(env, user, step.value, st).0
  }

  function TextOf(step: Option<Code>): Option<string>
  {
    if step.None? then None else Some(step.value.text)
  }

  /** A label of the value itself, or, if none is wanted, the default. */
  predicate Picked(env: Env, choice: Option<string>, pick: Option<int>)
  {
    if choice.None? then pick.None? else pick.Some? && env.code(choice.value) == pick.value
  }

  /** What to look for: the value, if some label has it. */
  function Pick(env: Env, items: seq<Stmt>, value: int): Option<int>
  {
    if exists i :: 0 <= i < |items| && items[i].Case? && Picked(env, items[i].choice, Some(value)) then Some(value)
    else None
  }

  /** A `break` leaves the switch. */
  function EndSwitch(r: Result): Result
  {
    if r.Some? && r.value.0 == Jumped(Break) then Some((Normal, r.value.1)) else r
  }

  function LeaveResult(outer: State, r: Result, decls: set<string>): Result
  {
    if r.None? then None else Some((r.value.0, Leave(outer, r.value.1, decls)))
  }

  /**
   `checked` says whether the code lies in the checking scope of some @try. `fuel` bounds loop
   iterations only; no result means it ran out.
   */
  function ExecStmt(env: Env, user: set<string>, s: Stmt, checked: bool, fuel: nat, st: State): Result
    decreases fuel, s, 1
  {
    match s
    case Simple(code) => ExecSimple(env, user, code, checked, st)
    case Nested(block) => ExecBlock(env, user, block, checked, fuel, st)
    case If(cond, thn, els) =>
      var (st', eff) := RunText(env, user, cond.text, st);
      if eff.returned != 0 then ExecStmt(env, user, thn, checked, fuel, st')
      else if els.Some? then ExecStmt(env, user, els.value, checked, fuel, st')
      else Some((Normal, st'))
    case While(post, cond, step, pass) =>
      var (go, st') := Tested(env, user, post, cond.text, st);
      if !go then Some((Normal, st'))
      else if fuel == 0 then None
      else
        var r := ExecStmt(env, user, pass, checked, fuel - 1, st');
        if r.None? then None
        else if r.value.0 == Normal || r.value.0 == Jumped(Continue)
        then
          var next := Stepped(env, user, TextOf(step), r.value.1);
          ExecStmt(env, user, While(false, cond, step, pass), checked, fuel - 1, next)
        else if r.value.0 == Jumped(Break) then Some((Normal, r.value.1))
        else r
    case For(decls, start, loop) =>
      var st' := RunText(env, user, start.code.text, st).0;
      LeaveResult(st, ExecStmt(env, user, loop, checked, fuel, st'), decls)
    case Switch(cond, body) =>
      var (st', eff) := RunText(env, user, cond.text, st);
      var pick := Pick(env, body.items, eff.returned);
      EndSwitch(LeaveResult(st', ExecCases(env, user, body.items, pick, checked, fuel, st'), body.decls))
    case Case(_) => Some((Normal, st))
    case JumpTo(jump) => Some((Jumped(jump), st))
    case Return(code) =>
      var (st', eff) := RunText(env, user, code.text, st);
      Some((Returned(eff.returned), st'))
    case Try(_, body, arms) =>
      var r := ExecBlock(env, user, body, true, fuel, st);
      if r.Some? && r.value.0.Raised?
      then ExecArms(env, user, arms, r.value.0.status, checked, fuel, r.value.1)
      else r
  }

  /** Runs the first matching arm in the checking scope around the @try; with no match the status goes on. */
  function ExecArms(env: Env, user: set<string>, arms: seq<Arm>, status: int, checked: bool, fuel: nat,
                    st: State): Result
    decreases fuel, arms, 0
  {
    FirstMatchInRange(env, arms, status);
    var k := FirstMatch(env, arms, status);
    if k == |arms| then Some((Raised(status), st)) else ExecArm(env, user, arms[k], status, checked, fuel, st)
  }

  /** The binding holds the status and lives as long as the arm's body. */
  function ExecArm(env: Env, user: set<string>, arm: Arm, status: int, checked: bool, fuel: nat, st: State): Result
    decreases fuel, arm, 0
  {
    var name := if arm.binding.Some? then arm.binding.value else "";
    LeaveResult(st, ExecBlock(env, user, arm.body, checked, fuel, Assign(st, name, status)), {name})
  }

  /** The items from the chosen label on. */
  function ExecCases(env: Env, user: set<string>, items: seq<Stmt>, pick: Option<int>, checked: bool, fuel: nat,
                     st: State): Result
    decreases fuel, items, 1
  {
    if items == [] then Some((Normal, st))
    else if items[0].Case? && Picked(env, items[0].choice, pick) then ExecStmts(env, user, items, checked, fuel, st)
    else ExecCases(env, user, items[1..], pick, checked, fuel, st)
  }

  function ExecBlock(env: Env, user: set<string>, block: Block, checked: bool, fuel: nat, st: State): Result
    decreases fuel, block, 0
  {
    LeaveResult(st, ExecStmts(env, user, block.items, checked, fuel, st), block.decls)
  }

  function ExecStmts(env: Env, user: set<string>, items: seq<Stmt>, checked: bool, fuel: nat, st: State): Result
    decreases fuel, items, 0
  {
    if items == [] then Some((Normal, st))
    else
      var r := ExecStmt(env, user, items[0], checked, fuel, st);
      if r.Some? && r.value.0.Normal?
      then ExecStmts(env, user, items[1..], checked, fuel, r.value.1)
      else r
  }
}
