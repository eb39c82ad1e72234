/** Exactly which programs `analyze` accepts, without following its frames. */
module Acceptance {
  import opened Wrappers
  import opened Words
  import opened Machine
  import opened SourceIR
  import opened Compiler
  import opened Scopes
  import CompilerProof

  /** Integers between -2**255 and 2**256, everywhere. */
  predicate LiteralsOk(e: IR)
    decreases e
  {
    match e
    case Int(n) => -(TWO256 / 2) <= n < TWO256
    case Apply(_, args) => AllLiteralsOk(args)
    case With(_, val, body) => LiteralsOk(val) && LiteralsOk(body)
    case Set(_, val) => LiteralsOk(val)
    case Seq(es) => AllLiteralsOk(es)
    case If(t, b) => LiteralsOk(t) && LiteralsOk(b)
    case IfElse(t, b, o) => LiteralsOk(t) && LiteralsOk(b) && LiteralsOk(o)
    case Repeat(_, s, r, _, b) => LiteralsOk(s) && LiteralsOk(r) && LiteralsOk(b)
    case Goto(_, args) => AllLiteralsOk(args)
    case ExitTo(_, args) => AllLiteralsOk(args)
    case Label(_, _, b) => LiteralsOk(b)
    case _ => true
  }

  predicate AllLiteralsOk(es: seq<IR>)
    decreases es
  {
    es == [] || (LiteralsOk(es[0]) && AllLiteralsOk(es[1..]))
  }

  /** The names used or set outside the scope of their binder; a label sees nothing of its surroundings. */
  function Free(e: IR): set<string>
    decreases e
  {
    match e
    case Var(x) => {x}
    case Apply(_, args) => AllFree(args)
    case With(x, val, body) => Free(val) + (Free(body) - {x})
    case Set(x, val) => {x} + Free(val)
    case Seq(es) => AllFree(es)
    case If(t, b) => Free(t) + Free(b)
    case IfElse(t, b, o) => Free(t) + Free(b) + Free(o)
    case Repeat(x, s, r, _, b) => Free(s) + Free(r) + (Free(b) - {x})
    case Goto(_, args) => AllFree(args)
    case ExitTo(_, args) => AllFree(args)
    case _ => {}
  }

  function AllFree(es: seq<IR>): set<string>
    decreases es
  {
    if es == [] then {} else Free(es[0]) + AllFree(es[1..])
  }

  /** Every subroutine uses its own parameters only. */
  predicate LabelsClosed(e: IR)
    decreases e
  {
    match e
    case Apply(_, args) => AllLabelsClosed(args)
    case With(_, val, body) => LabelsClosed(val) && LabelsClosed(body)
    case Set(_, val) => LabelsClosed(val)
    case Seq(es) => AllLabelsClosed(es)
    case If(t, b) => LabelsClosed(t) && LabelsClosed(b)
    case IfElse(t, b, o) => LabelsClosed(t) && LabelsClosed(b) && LabelsClosed(o)
    case Repeat(_, s, r, _, b) => LabelsClosed(s) && LabelsClosed(r) && LabelsClosed(b)
    case Goto(_, args) => AllLabelsClosed(args)
    case ExitTo(_, args) => AllLabelsClosed(args)
    case Label(_, params, b) => Free(b) <= (set x | x in params) && LabelsClosed(b)
    case _ => true
  }

  predicate AllLabelsClosed(es: seq<IR>)
    decreases es
  {
    es == [] || (LabelsClosed(es[0]) && AllLabelsClosed(es[1..]))
  }

  /** Analysis succeeds exactly on programs whose integers are in range and whose names are all bound. */
  lemma {:induction false} AnalyzesIff(e: IR, f: Frame)
    ensures Analyze(e, f).Some? <==> LiteralsOk(e) && LabelsClosed(e) && Free(e) <= f.slots.Keys
    decreases e, 1
  {
    hide AnalyzeAll, AllLiteralsOk, AllFree, AllLabelsClosed, Enter, ParamVars;
    match e
    case Apply(_, args) => AllAnalyzeIff(args, f);
    case Seq(es) => AllAnalyzeIff(es, f);
    case Goto(_, args) => AllAnalyzeIff(args, f);
    case ExitTo(_, args) => AllAnalyzeIff(args, f);
    case With(_, _, _) => BinderIff(e, f);
    case Repeat(_, _, _, _, _) => BinderIff(e, f);
    case Label(_, _, _) => LabelIff(e, f);
    case Set(_, val) => AnalyzesIff(val, f);
    case If(t, b) => AnalyzesIff(t, f); AnalyzesIff(b, f);
    case IfElse(t, b, o) => AnalyzesIff(t, f); AnalyzesIff(b, f); AnalyzesIff(o, f);
    case _ =>
  }

  lemma {:induction false} AllAnalyzeIff(es: seq<IR>, f: Frame)
    ensures AnalyzeAll(es, f).Some? <==> AllLiteralsOk(es) && AllLabelsClosed(es) && AllFree(es) <= f.slots.Keys
    decreases es, 2
  {
    hide Analyze, LiteralsOk, Free, LabelsClosed;
    if es != [] {
      AnalyzesIff(es[0], f);
      AllAnalyzeIff(es[1..], f);
    }
  }

  lemma {:induction false} BinderIff(e: IR, f: Frame)
    requires e.With? || e.Repeat?
    ensures Analyze(e, f).Some? <==> LiteralsOk(e) && LabelsClosed(e) && Free(e) <= f.slots.Keys
    decreases e, 0
  {
    hide AnalyzeAll, AllLiteralsOk, AllFree, AllLabelsClosed, Enter, ParamVars;
    var f' := EnterOne(f, e.name);
    assert f'.slots.Keys == f.slots.Keys + {e.name};
    AnalyzesIff(e.body, f');
    assert Free(e.body) <= f'.slots.Keys <==> Free(e.body) - {e.name} <= f.slots.Keys;
    if e.With? {
      AnalyzesIff(e.val, f);
    } else {
      AnalyzesIff(e.start, f);
      AnalyzesIff(e.rounds, f);
    }
  }

  lemma {:induction false} LabelIff(e: IR, f: Frame)
    requires e.Label?
    ensures Analyze(e, f).Some? <==> LiteralsOk(e) && LabelsClosed(e)
    decreases e, 0
  {
    hide AnalyzeAll, AllLiteralsOk, AllFree, AllLabelsClosed, Enter, ParamVars;
    var f' := Enter(EmptyFrame, e.params);
    CompilerProof.EnterOk(EmptyFrame, e.params);
    assert f'.slots.Keys == set x | x in e.params;
    ParamsFound(f', e.params);
    AnalyzesIff(e.body, f');
  }

  lemma {:induction false} ParamsFound(f: Frame, params: seq<string>)
    requires forall x :: x in params ==> x in f.slots
    ensures ParamVars(f, params).Some?
  {
    if params != [] { ParamsFound(f, params[1..]); }
  }

  // ---- labels ---------------------------------------------------------------------------------

  function NamesOf(fs: seq<Func>): (r: seq<string>)
    ensures |r| == |fs| && forall i :: 0 <= i < |fs| ==> r[i] == fs[i].lbl
  {
    seq(|fs|, i requires 0 <= i < |fs| => fs[i].lbl)
  }

  /** The analysed labels carry the names of the source's, in order. */
  ghost predicate SameLabels(fs: seq<Func>, ls: seq<AIR>) {
    |fs| == |ls| && forall i :: 0 <= i < |fs| ==> ls[i].ALabel? && ls[i].lbl == fs[i].lbl
  }

  lemma JoinLabels(f1: seq<Func>, l1: seq<AIR>, f2: seq<Func>, l2: seq<AIR>)
    requires SameLabels(f1, l1) && SameLabels(f2, l2)
    ensures SameLabels(f1 + f2, l1 + l2)
  {}

  lemma {:induction false} LabelNames(e: IR, f: Frame, a: AIR)
    requires Analyze(e, f) == Some(a)
    ensures SameLabels(Labels(e), ALabels(a))
    decreases e, 1
  {
    hide AnalyzeAll, LabelsAll, ALabelsAll, SameLabels;
    assert SameLabels([], []) by { NoLabels(); }
    match e
    case Apply(_, args) => AllLabelNames(args, f, a.args);
    case Seq(es) => AllLabelNames(es, f, a.es);
    case Goto(_, args) => AllLabelNames(args, f, a.args);
    case ExitTo(_, args) => AllLabelNames(args, f, a.args);
    case Set(_, val) => LabelNames(val, f, a.val);
    case If(t, b) =>
      LabelNames(t, f, a.test);
      LabelNames(b, f, a.body);
      JoinLabels(Labels(t), ALabels(a.test), Labels(b), ALabels(a.body));
    case IfElse(t, b, o) =>
      LabelNames(t, f, a.test);
      LabelNames(b, f, a.body);
      LabelNames(o, f, a.orelse);
      JoinLabels(Labels(t), ALabels(a.test), Labels(b), ALabels(a.body));
      JoinLabels(Labels(t) + Labels(b), ALabels(a.test) + ALabels(a.body), Labels(o), ALabels(a.orelse));
    case With(_, _, _) => BinderNames(e, f, a);
    case Repeat(_, _, _, _, _) => BinderNames(e, f, a);
    case Label(_, _, _) => BinderNames(e, f, a);
    case _ =>
  }

  lemma NoLabels()
    ensures SameLabels([], [])
  {}

  lemma {:induction false} BinderNames(e: IR, f: Frame, a: AIR)
    requires e.With? || e.Repeat? || e.Label?
    requires Analyze(e, f) == Some(a)
    ensures SameLabels(Labels(e), ALabels(a))
    decreases e, 0
  {
    hide AnalyzeAll, LabelsAll, ALabelsAll, SameLabels;
    match e
    case With(x, val, body) =>
      LabelNames(val, f, a.val);
      LabelNames(body, EnterOne(f, x), a.body);
      JoinLabels(Labels(val), ALabels(a.val), Labels(body), ALabels(a.body));
    case Repeat(x, s, r, _, b) =>
      LabelNames(s, f, a.start);
      LabelNames(r, f, a.rounds);
      LabelNames(b, EnterOne(f, x), a.body);
      JoinLabels(Labels(s), ALabels(a.start), Labels(r), ALabels(a.rounds));
      JoinLabels(Labels(s) + Labels(r), ALabels(a.start) + ALabels(a.rounds), Labels(b), ALabels(a.body));
    case Label(l, ps, b) =>
      LabelNames(b, Enter(EmptyFrame, ps), a.body);
      assert SameLabels([Func(l, ps, b)], [a]) by { OneLabel(Func(l, ps, b), a); }
      JoinLabels([Func(l, ps, b)], [a], Labels(b), ALabels(a.body));
  }

  lemma OneLabel(f: Func, a: AIR)
    requires a.ALabel? && a.lbl == f.lbl
    ensures SameLabels([f], [a])
  {}

  lemma {:induction false} AllLabelNames(es: seq<IR>, f: Frame, a: seq<AIR>)
    requires AnalyzeAll(es, f) == Some(a)
    ensures SameLabels(LabelsAll(es), ALabelsAll(a))
    decreases es, 2
  {
    hide Analyze, Labels, ALabels, SameLabels;
    if es == [] {
      NoLabels();
    } else {
      LabelNames(es[0], f, a[0]);
      AllLabelNames(es[1..], f, a[1..]);
      JoinLabels(Labels(es[0]), ALabels(a[0]), LabelsAll(es[1..]), ALabelsAll(a[1..]));
    }
  }

  /** No subroutine name occurs twice. */
  predicate DistinctLabels(e: IR) {
    var names := NamesOf(Labels(e));
    forall i, j :: 0 <= i < j < |names| ==> names[i] != names[j]
  }
}
