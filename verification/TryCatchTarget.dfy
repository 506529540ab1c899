/** The C that the lowering emits: status variables, labels and gotos, with block-structured scopes. */
module TryCatchTarget {
  import opened Wrappers
  import opened TryCatchSource

  datatype Test = Text(text: string) | NonZero(name: string) | OneOf(name: string, codes: seq<string>) | Always

  datatype CStmt =
    | CRun(text: string)                            // source text, unchanged
    | CSet(name: string, value: int)                // name = value;
    | CCopy(name: string, from: string)             // name = from;
    | CRunReturned(status: string, text: string)    // status = text
    | CRunWritten(status: string, text: string)     // text, with &status as the call's last argument
    | CBlock(decls: set<string>, items: seq<CStmt>)
    | CIf(test: Test, thn: CStmt, els: CStmt)
    | CSkip                                         // in place of an else that is not there
    | CWhile(post: bool, cond: string, step: Option<string>, body: CStmt)
    | CFor(decls: set<string>, start: string, loop: CStmt)
    | CSwitch(cond: string, decls: set<string>, items: seq<CStmt>)
    | CCase(choice: Option<string>)
    | CJump(jump: Jump)
    | CReturn(text: string)
    | CGoto(target: string)
    | CLabel(name: string)
    | CNotC                                         // text that is no statement of C

  /** A following `else` would belong to an `if` inside the statement, or to the statement itself. */
  predicate Open(c: CStmt)
  {
    match c
    case CIf(_, _, els) => els.CSkip? || Open(els)
    case CWhile(post, _, _, body) => !post && Open(body)
    case CFor(_, _, loop) => Open(loop)
    case _ => false
  }

  /** A statement followed by an `else`, which belongs to the last `if` that has none. */
  function Attach(c: CStmt, els: CStmt): CStmt
  {
    match c
    case CIf(test, thn, CSkip) => if Open(thn) then CIf(test, Attach(thn, els), CSkip) else CIf(test, thn, els)
    case CIf(test, thn, other) => CIf(test, thn, Attach(other, els))
    case CWhile(post, cond, step, body) => if post then CNotC else CWhile(post, cond, step, Attach(body, els))
    case CFor(decls, start, loop) => CFor(decls, start, Attach(loop, els))
    case _ => CNotC
  }

  /** The text is C throughout. */
  ghost predicate IsC(c: CStmt)
  {
    match c
    case CBlock(_, items) => AllC(items)
    case CSwitch(_, _, items) => AllC(items)
    case CIf(_, thn, els) => IsC(thn) && IsC(els)
    case CWhile(_, _, _, body) => IsC(body)
    case CFor(_, _, loop) => IsC(loop)
    case CNotC => false
    case _ => true
  }

  ghost predicate AllC(items: seq<CStmt>)
  {
    forall c <- items :: IsC(c)
  }

  datatype COutcome = CNormal | CJumped(jump: Jump) | CReturned(value: int) | CWent(target: string)

  type CResult = Option<(COutcome, State)>

  function Read(st: State, name: string): int
  {
    if name in st.vars then st.vars[name] else 0
  }

  function EvalTest(env: Env, user: set<string>, test: Test, st: State): (bool, State)
  {
    match test
    case Text(text) =>
      var (st', eff) := RunText(env, user, text, st);
      (eff.returned != 0, st')
    case NonZero(name) => (Read(st, name) != 0, st)
    case OneOf(name, codes) => (exists i :: 0 <= i < |codes| && env.code(codes[i]) == Read(st, name), st)
    case Always => (true, st)
  }

  function CLeaveResult(outer: State, r: CResult, decls: set<string>): CResult
  {
    if r.None? then None else Some((r.value.0, Leave(outer, r.value.1, decls)))
  }

  /** Position of a label among the items of a block; |items| when the block does not have it. */
  function LabelAt(items: seq<CStmt>, target: string): (k: nat)
    ensures k <= |items|
    ensures k < |items| ==> items[k] == CLabel(target)
    ensures forall i | 0 <= i < k :: items[i] != CLabel(target)
  {
    if items == [] || items[0] == CLabel(target) then 0 else 1 + LabelAt(items[1..], target)
  }

  /** Position of the first label that is looked for; |items| when there is none. */
  function CaseAt(env: Env, items: seq<CStmt>, pick: Option<int>): (k: nat)
    ensures k <= |items|
  {
    if items == [] || (items[0].CCase? && Picked(env, items[0].choice, pick)) then 0
    else 1 + CaseAt(env, items[1..], pick)
  }

  function SwitchAt(env: Env, items: seq<CStmt>, value: int): (k: nat)
    ensures k <= |items|
  {
    var k := CaseAt(env, items, Some(value));
    if k < |items| then k else CaseAt(env, items, None)
  }

  function CEndSwitch(r: CResult): CResult
  {
    if r.Some? && r.value.0 == CJumped(Break) then Some((CNormal, r.value.1)) else r
  }

  /** `fuel` bounds loop iterations and backward jumps. */
  function CExec(env: Env, user: set<string>, s: CStmt, fuel: nat, st: State): CResult
    decreases fuel, s, 1
  {
    match s
    case CRun(text) => Some((CNormal, RunText(env, user, text, st).0))
    case CSet(name, value) => Some((CNormal, Assign(st, name, value)))
    case CCopy(name, from) => Some((CNormal, Assign(st, name, Read(st, from))))
    case CRunReturned(status, text) =>
      var (st', eff) := RunText(env, user, text, st);
      Some((CNormal, Assign(st', status, eff.returned)))
    case CRunWritten(status, text) =>
      var (st', eff) := RunText(env, user, text, st);
      Some((CNormal, if eff.written.Some? then Assign(st', status, eff.written.value) else st'))
    case CBlock(decls, items) => CLeaveResult(st, CExecFrom(env, user, items, 0, fuel, st), decls)
    case CIf(test, thn, els) =>
      var (b, st') := EvalTest(env, user, test, st);
      if b then CExec(env, user, thn, fuel, st') else CExec(env, user, els, fuel, st')
    case CWhile(post, cond, step, body) =>
      var (go, st') := Tested(env, user, post, cond, st);
      if !go then Some((CNormal, st'))
      else if fuel == 0 then None
      else
        var r := CExec(env, user, body, fuel - 1, st');
        if r.None? then None
        else if r.value.0 == CNormal || r.value.0 == CJumped(Continue)
        then CExec(env, user, CWhile(false, cond, step, body), fuel - 1, Stepped(env, user, step, r.value.1))
        else if r.value.0 == CJumped(Break) then Some((CNormal, r.value.1))
        else r
    case CSkip => Some((CNormal, st))
    case CFor(decls, start, loop) =>
      CLeaveResult(st, CExec(env, user, loop, fuel, RunText(env, user, start, st).0), decls)
    case CSwitch(cond, decls, items) =>
      var (st', eff) := RunText(env, user, cond, st);
      var k := SwitchAt(env, items, eff.returned);
      CEndSwitch(CLeaveResult(st', CExecFrom(env, user, items, k, fuel, st'), decls))
    case CCase(_) => Some((CNormal, st))
    case CJump(jump) => Some((CJumped(jump), st))
    case CReturn(text) =>
      var (st', eff) := RunText(env, user, text, st);
      Some((CReturned(eff.returned), st'))
    case CGoto(target) => Some((CWent(target), st))
    case CLabel(_) => Some((CNormal, st))
    case CNotC => None
  }

  /**
   Runs a block's items from position `i`. A goto whose label is an item of this block continues
   there; any other leaves the block and looks for its label further out.
   */
  function CExecFrom(env: Env, user: set<string>, items: seq<CStmt>, i: nat, fuel: nat, st: State): CResult
    requires i <= |items|
    decreases fuel, items, 0, |items| - i
  {
    if i == |items| then Some((CNormal, st))
    else
      var r := CExec(env, user, items[i], fuel, st);
      if r.None? then None
      else if r.value.0.CNormal? then CExecFrom(env, user, items, i + 1, fuel, r.value.1)
      else if r.value.0.CWent? then
        var k := LabelAt(items, r.value.0.target);
        if k == |items| then r
        else if i < k then CExecFrom(env, user, items, k, fuel, r.value.1)
        else if fuel == 0 then None
        else CExecFrom(env, user, items, k, fuel - 1, r.value.1)
      else r
  }
}
