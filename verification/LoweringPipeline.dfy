/** Lowering steps in order, with a fresh parse after every change of the source. */
module LoweringPipeline {
  import opened Wrappers
  import opened MappedText

  /** A tree with the text it was parsed from. */
  datatype Ast<T> = Ast(text: string, tree: T)
  datatype Lowered = Lowered(source: Text, diagnostics: seq<string>)
  datatype Step<!T> = Step(id: string, transform: (Ast<T>, Text) -> Lowered)
  datatype Parse<T> = Parse(ast: Ast<T>, errors: seq<string>, warnings: seq<string>)
  datatype Trace = Trace(stepId: string, inputLength: nat, outputLength: nat, sourceChanged: bool)

  datatype Outcome<T> = Outcome(source: Text, ast: Ast<T>, loweringDiagnostics: seq<string>, parserErrors: seq<string>,
                                trace: seq<Trace>)
  {
    predicate Successful() { loweringDiagnostics == [] && parserErrors == [] }
  }

  function TraceOf<T>(step: Step<T>, source: Text, lowered: Lowered): Trace
  {
    Trace(step.id, |source|, |lowered.source|, Chars(lowered.source) != Chars(source))
  }

  function Traced<T>(t: Trace, rest: Outcome<T>): Outcome<T> { rest.(trace := [t] + rest.trace) }

  /** The first step, and, unless it or the parse of its result fails, the rest on what it leaves. */
  function Ran<T>(ast: Ast<T>, source: Text, steps: seq<Step<T>>, reparse: Text -> Parse<T>): Outcome<T>
    decreases |steps|
  {
    if steps == [] then Outcome(source, ast, [], [], [])
    else
      var lowered := steps[0].transform(ast, source);
      var t := TraceOf(steps[0], source, lowered);
      if lowered.diagnostics != [] then Outcome(source, ast, lowered.diagnostics, [], [t])
      else if Chars(lowered.source) == Chars(source) then Traced(t, Ran(ast, lowered.source, steps[1..], reparse))
      else
        var parsed := reparse(lowered.source);
        if parsed.errors != [] then Outcome(lowered.source, ast, [], parsed.errors, [t])
        else Traced(t, Ran(parsed.ast, lowered.source, steps[1..], reparse))
  }

  /** The text a tree was parsed from is the text of the source beside it. */
  predicate InStep<T>(ast: Ast<T>, source: Text) { ast.text == Chars(source) }

  ghost predicate ParsesItsText<T(!new)>(reparse: Text -> Parse<T>)
  {
    forall t: Text :: InStep(reparse(t).ast, t)
  }

  ghost predicate UniqueIds<T(!new)>(steps: seq<Step<T>>)
  {
    forall i, j | 0 <= i < j < |steps| :: steps[i].id != steps[j].id
  }

  class CPlusAstLoweringPipeline<!T(!new)> {
    constructor () { }

    /** Runs the steps. Every step sees a tree of the very text it is given. */
    method Run(initialAst: Ast<T>, initialSource: Text, steps: seq<Step<T>>, reparse: Text -> Parse<T>)
      returns (r: Outcome<T>)
      requires InStep(initialAst, initialSource) && UniqueIds(steps) && ParsesItsText(reparse)
      ensures r == Ran(initialAst, initialSource, steps, reparse)
    {
      var ast, source := initialAst, initialSource;
      var trace: seq<Trace> := [];
      assert steps[0..] == steps;
      ghost var whole := Ran(initialAst, initialSource, steps, reparse);
      for i := 0 to |steps|
        invariant InStep(ast, source)
        invariant whole == AllTraced(trace, Ran(ast, source, steps[i..], reparse))
      {
        var step := steps[i];
        assert steps[i..][0] == step && steps[i..][1..] == steps[i + 1..];
        var lowered := step.transform(ast, source);
        var t := TraceOf(step, source, lowered);
        AllTracedNext(trace, t, Ran(ast, lowered.source, steps[i + 1..], reparse));
        AllTracedNext(trace, t, Ran(reparse(lowered.source).ast, lowered.source, steps[i + 1..], reparse));
        trace := trace + [t];
        if lowered.diagnostics != [] { return Outcome(source, ast, lowered.diagnostics, [], trace); }
        if Chars(lowered.source) != Chars(source) {
          source := lowered.source;
          var parsed := reparse(source);
          if parsed.errors != [] { return Outcome(source, ast, [], parsed.errors, trace); }
          ast := parsed.ast;
        } else {
          source := lowered.source;
        }
      }
      assert steps[|steps|..] == [];
      r := Outcome(source, ast, [], [], trace);
    }
  }

  function AllTraced<T>(before: seq<Trace>, rest: Outcome<T>): Outcome<T> { rest.(trace := before + rest.trace) }

  lemma AllTracedNext<T>(before: seq<Trace>, t: Trace, rest: Outcome<T>)
    ensures AllTraced(before, Traced(t, rest)) == AllTraced(before + [t], rest)
  {
    assert before + ([t] + rest.trace) == before + [t] + rest.trace;
  }

  /** The trace names the steps in their order, and each output feeds the next input. */
  ghost predicate Chained<T>(trace: seq<Trace>, steps: seq<Step<T>>, length: nat)
  {
    && |trace| <= |steps|
    && (forall i | 0 <= i < |trace| :: trace[i].stepId == steps[i].id)
    && (trace != [] ==> trace[0].inputLength == length)
    && (forall i | 0 < i < |trace| :: trace[i].inputLength == trace[i - 1].outputLength)
  }

  /** A run succeeds exactly when every step ran, once and in order; otherwise it stops at the step that failed. */
  lemma {:induction false} TraceIsChained<T(!new)>(ast: Ast<T>, source: Text, steps: seq<Step<T>>,
                                               reparse: Text -> Parse<T>)
    requires InStep(ast, source) && ParsesItsText(reparse)
    ensures var r := Ran(ast, source, steps, reparse);
            && Chained(r.trace, steps, |source|)
            && (r.Successful() ==> |r.trace| == |steps| && InStep(r.ast, r.source))
            && (r.Successful() && steps != [] ==> r.trace[|steps| - 1].outputLength == |r.source|)
            && (!r.Successful() ==> r.trace != [] && (r.loweringDiagnostics != [] ==> InStep(r.ast, r.source)))
            && (steps == [] ==> r.source == source)
    decreases |steps|
  {
    if steps != [] {
      var lowered := steps[0].transform(ast, source);
      var same := Chars(lowered.source) == Chars(source);
      var next := if same then ast else reparse(lowered.source).ast;
      if lowered.diagnostics == [] && (same || reparse(lowered.source).errors == []) {
        TraceIsChained(next, lowered.source, steps[1..], reparse);
        var rest := Ran(next, lowered.source, steps[1..], reparse);
        assert Ran(ast, source, steps, reparse) == Traced(TraceOf(steps[0], source, lowered), rest);
        ChainGrows(TraceOf(steps[0], source, lowered), rest.trace, steps);
      }
    }
  }

  lemma ChainGrows<T(!new)>(t: Trace, rest: seq<Trace>, steps: seq<Step<T>>)
    requires steps != [] && t.stepId == steps[0].id && Chained(rest, steps[1..], t.outputLength)
    ensures Chained([t] + rest, steps, t.inputLength)
  {
    forall i | 0 <= i < |[t] + rest|
      ensures ([t] + rest)[i].stepId == steps[i].id
    {
      if i > 0 { assert steps[i] == steps[1..][i - 1]; }
    }
  }

  /** No step leaves two entries in the trace. */
  lemma TraceNamesAreUnique<T(!new)>(ast: Ast<T>, source: Text, steps: seq<Step<T>>, reparse: Text -> Parse<T>)
    requires InStep(ast, source) && UniqueIds(steps) && ParsesItsText(reparse)
    ensures var trace := Ran(ast, source, steps, reparse).trace;
            forall i, j | 0 <= i < j < |trace| :: trace[i].stepId != trace[j].stepId
  {
    TraceIsChained(ast, source, steps, reparse);
  }

  /** The tree and the source that step `k` is given; nothing if the run stops earlier. */
  function SeenBy<T>(ast: Ast<T>, source: Text, steps: seq<Step<T>>,
                     reparse: Text -> Parse<T>, k: nat): Option<(Ast<T>, Text)>
    requires k < |steps|
    decreases k
  {
    if k == 0 then Some((ast, source))
    else
      var lowered := steps[0].transform(ast, source);
      if lowered.diagnostics != [] then None
      else if Chars(lowered.source) == Chars(source) then SeenBy(ast, lowered.source, steps[1..], reparse, k - 1)
      else if reparse(lowered.source).errors != [] then None
      else SeenBy(reparse(lowered.source).ast, lowered.source, steps[1..], reparse, k - 1)
  }

  /** Every step that runs sees a tree of the very text it is given, and its trace tells what it did with it. */
  lemma {:induction false} StepsSeeTheirText<T(!new)>(ast: Ast<T>, source: Text, steps: seq<Step<T>>,
                                               reparse: Text -> Parse<T>, k: nat)
    requires InStep(ast, source) && ParsesItsText(reparse) && k < |steps|
    ensures var trace, seen := Ran(ast, source, steps, reparse).trace, SeenBy(ast, source, steps, reparse, k);
            && (seen.Some? <==> k < |trace|)
            && (seen.Some? ==> InStep(seen.value.0, seen.value.1))
            && (seen.Some? ==>
                  trace[k] == TraceOf(steps[k], seen.value.1, steps[k].transform(seen.value.0, seen.value.1)))
    decreases k
  {
    if k > 0 {
      var lowered := steps[0].transform(ast, source);
      var same := Chars(lowered.source) == Chars(source);
      var next := if same then ast else reparse(lowered.source).ast;
      if lowered.diagnostics == [] && (same || reparse(lowered.source).errors == []) {
        StepsSeeTheirText(next, lowered.source, steps[1..], reparse, k - 1);
      }
    }
  }

  function Origins(t: Text): set<Origin> { set c | c in t && c.origin.Some? :: c.origin.value }

  ghost predicate KeepsOrigins<T(!new)>(step: Step<T>)
  {
    forall ast, source :: Origins(step.transform(ast, source).source) <= Origins(source)
  }

  /** When every step keeps origins, what survives a run still points into the initial source. */
  lemma {:induction false} OriginsSurvive<T(!new)>(ast: Ast<T>, source: Text, steps: seq<Step<T>>,
                                               reparse: Text -> Parse<T>)
    requires forall s | s in steps :: KeepsOrigins(s)
    ensures Origins(Ran(ast, source, steps, reparse).source) <= Origins(source)
    decreases |steps|
  {
    if steps != [] {
      assert steps[0] in steps;
      var lowered := steps[0].transform(ast, source);
      OriginsSurvive(ast, lowered.source, steps[1..], reparse);
      OriginsSurvive(reparse(lowered.source).ast, lowered.source, steps[1..], reparse);
    }
  }
}
