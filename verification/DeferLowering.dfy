/** Flags and a cleanup tail in place of `defer`. */
module DeferLowering {
  import opened Wrappers
  import opened FreshNames
  import opened DeferSource
  import T = TryCatchTarget

  const PREFIX := "cplus_defer_active"
  const FINISH := "cplus_test_finish"

  /** The parts of a text, so that a name is one of them exactly when the text contains it. */
  ghost function Parts(text: string): set<string>
  {
    set i, j | 0 <= i <= j <= |text| :: text[i..j]
  }

  predicate Contains(text: string, name: string)
  {
    exists i | 0 <= i <= |text| - |name| :: OccursAt(text, name, i)
  }

  predicate OccursAt(text: string, name: string, i: nat)
    requires i + |name| <= |text|
  {
    text[i..i + |name|] == name
  }

  lemma ContainsParts(text: string, name: string)
    ensures Contains(text, name) <==> name in Parts(text)
  {
    if name in Parts(text) {
      var i, j :| 0 <= i <= j <= |text| && text[i..j] == name;
      assert OccursAt(text, name, i);
    }
  }

  /** All defers of a statement, those of loop bodies included, in source order. */
  function AllDefers(s: Stmt): (r: seq<Stmt>)
    ensures forall d | d in r :: d.Defer?
  {
    match s
    case Defer(_, _, _) => [s]
    case Nested(_, items) => AllDefersIn(items)
    case If(_, thn, els) => AllDefers(thn) + AllDefers(els)
    case While(_, _, _, body) => AllDefers(body)
    case _ => []
  }

  function AllDefersIn(items: seq<Stmt>): (r: seq<Stmt>)
    ensures forall d | d in r :: d.Defer?
  {
    if items == [] then [] else AllDefers(items[0]) + AllDefersIn(items[1..])
  }

  type Flags = map<nat, string>

  /** The serial after the flags of some defers, which are numbered on past the names in the text. */
  ghost function SerialAfter(text: string, defers: seq<Stmt>, from: nat): nat
    requires forall d | d in defers :: d.Defer?
  {
    if defers == [] then from
    else FirstFree(PREFIX, SerialAfter(text, defers[..|defers| - 1], from), Parts(text)) + 1
  }

  ghost function FlagsOf(text: string, defers: seq<Stmt>, from: nat): Flags
    requires forall d | d in defers :: d.Defer?
  {
    if defers == [] then map[]
    else
      var before := defers[..|defers| - 1];
      FlagsOf(text, before, from)[defers[|defers| - 1].at := Numbered(PREFIX, SerialAfter(text, defers, from) - 1)]
  }

  function Flag(flags: Flags, at: nat): string { if at in flags then flags[at] else "" }

  function FlagNames(defers: seq<Stmt>, flags: Flags): (r: set<string>)
    requires forall d | d in defers :: d.Defer?
  {
    set d | d in defers :: Flag(flags, d.at)
  }

  function Declarations(defers: seq<Stmt>, flags: Flags): (r: seq<T.CStmt>)
    requires forall d | d in defers :: d.Defer?
  {
    seq(|defers|, i requires 0 <= i < |defers| => T.CSet(Flag(flags, defers[i].at), 0))
  }

  function CleanupOf(d: Stmt, flags: Flags): T.CStmt
    requires d.Defer?
  {
    T.CIf(T.NonZero(Flag(flags, d.at)), T.CBlock({}, [T.CRun(d.text)]), T.CSkip)
  }

  /** The guarded deferred statements, the last one first. */
  function CleanupCode(defers: seq<Stmt>, flags: Flags): (r: seq<T.CStmt>)
    requires forall d | d in defers :: d.Defer?
    ensures |r| == |defers|
  {
    if defers == [] then []
    else [CleanupOf(defers[|defers| - 1], flags)] + CleanupCode(defers[..|defers| - 1], flags)
  }

  function LowerStmt(s: Stmt, flags: Flags, test: bool): T.CStmt
    decreases s, 1
  {
    match s
    case Run(text) => T.CRun(text)
    case Defer(at, _, _) => T.CSet(Flag(flags, at), 1)
    case Nested(decls, items) => T.CBlock(decls, LowerStmts(items, flags, test))
    case If(cond, thn, els) => T.CIf(T.Text(cond), LowerStmt(thn, flags, test), LowerStmt(els, flags, test))
    case While(post, cond, step, body) =>
      T.CWhile(post, cond, step,
               if Owns(body, test) then LowerBody(body.decls, body.items, flags, test)
               else LowerStmt(body, flags, test))
    case JumpTo(jump) => T.CJump(jump)
    case Return(text) => T.CReturn(text)
    case Fail => T.CGoto(FINISH)
  }

  function LowerStmts(items: seq<Stmt>, flags: Flags, test: bool): seq<T.CStmt>
    decreases items, 0
  {
    if items == [] then [] else [LowerStmt(items[0], flags, test)] + LowerStmts(items[1..], flags, test)
  }

  /** A body with defers begins with their flags and ends with the label of a @test and the cleanup. */
  function LowerBody(decls: set<string>, items: seq<Stmt>, flags: Flags, test: bool): T.CStmt
    decreases items, 1
  {
    var defers := DefersOfAll(items, test);
    if defers == [] then T.CBlock(decls, LowerStmts(items, flags, test))
    else
      T.CBlock(decls + FlagNames(defers, flags),
               Declarations(defers, flags) + LowerStmts(items, flags, test)
                 + (if test then [T.CLabel(FINISH)] else []) + CleanupCode(defers, flags))
  }

  /** The definitions of a file; a stray defer stands outside all of them. */
  datatype Definition =
    | Function(decls: set<string>, items: seq<Stmt>)
    | Test(decls: set<string>, items: seq<Stmt>)
    | Stray(at: nat)

  datatype Diagnostic = OutsideFunction(at: nat) | NestedDefer

  function DefersIn(file: seq<Definition>): (r: seq<Stmt>)
    ensures forall d | d in r :: d.Defer?
  {
    if file == [] then [] else (if file[0].Stray? then [] else AllDefersIn(file[0].items)) + DefersIn(file[1..])
  }

  function Strays(file: seq<Definition>): seq<Diagnostic>
  {
    if file == [] then [] else (if file[0].Stray? then [OutsideFunction(file[0].at)] else []) + Strays(file[1..])
  }

  /** A deferred statement with a defer of its own is not lowered. */
  function Nestings(defers: seq<Stmt>): seq<Diagnostic>
    requires forall d | d in defers :: d.Defer?
  {
    if exists d | d in defers :: d.nests then [NestedDefer] else []
  }

  class CPlusDeferLoweringPass {
    var deferSequence: nat

    constructor ()
      ensures deferSequence == 0
    {
      deferSequence := 0;
    }

    /** Counts up to the first flag name that the source text does not contain. */
    method NextFlag(text: string) returns (name: string)
      modifies this
      ensures deferSequence == FirstFree(PREFIX, old(deferSequence), Parts(text)) + 1
      ensures name == Numbered(PREFIX, deferSequence - 1)
    {
      name := Numbered(PREFIX, deferSequence);
      deferSequence := deferSequence + 1;
      var taken := Contains(text, name);
      ContainsParts(text, name);
      while taken
        invariant deferSequence >= 1 && name == Numbered(PREFIX, deferSequence - 1)
        invariant taken <==> name in Parts(text)
        invariant FirstFree(PREFIX, deferSequence - 1, Parts(text))
             == FirstFree(PREFIX, old(deferSequence), Parts(text))
        decreases Ahead(PREFIX, deferSequence - 1, Parts(text))
      {
        AheadShrinks(PREFIX, deferSequence - 1, Parts(text));
        name := Numbered(PREFIX, deferSequence);
        deferSequence := deferSequence + 1;
        taken := Contains(text, name);
        ContainsParts(text, name);
      }
    }

    method NameFlags(text: string, defers: seq<Stmt>) returns (flags: Flags)
      requires forall d | d in defers :: d.Defer?
      modifies this
      ensures flags == FlagsOf(text, defers, old(deferSequence))
      ensures deferSequence == SerialAfter(text, defers, old(deferSequence))
    {
      flags := map[];
      for i := 0 to |defers|
        invariant flags == FlagsOf(text, defers[..i], old(deferSequence))
        invariant deferSequence == SerialAfter(text, defers[..i], old(deferSequence))
      {
        assert defers[..i + 1][..i] == defers[..i];
        var name := NextFlag(text);
        flags := flags[defers[i].at := name];
      }
      assert defers[..|defers|] == defers;
    }

    /** A stray or nested defer leaves the file as it is. */
    method Lower(file: seq<Definition>, text: string) returns (out: seq<T.CStmt>, diagnostics: seq<Diagnostic>)
      modifies this
      ensures diagnostics == (if Strays(file) != [] then Strays(file) else Nestings(DefersIn(file)))
      ensures diagnostics == [] ==> out == LowerFile(file, FlagsOf(text, DefersIn(file), 0))
      ensures diagnostics != [] ==> out == []
    {
      deferSequence := 0;
      out, diagnostics := [], Strays(file);
      if diagnostics != [] { return; }
      var flags := NameFlags(text, DefersIn(file));
      diagnostics := Nestings(DefersIn(file));
      if diagnostics == [] { out := LowerFile(file, flags); }
    }
  }

  function LowerFile(file: seq<Definition>, flags: Flags): seq<T.CStmt>
  {
    if file == [] then []
    else
      (match file[0]
       case Function(decls, items) => [LowerBody(decls, items, flags, false)]
       case Test(decls, items) => [LowerBody(decls, items, flags, true)]
       case Stray(_) => [])
      + LowerFile(file[1..], flags)
  }
}
