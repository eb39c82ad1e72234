/** The compiler as the executor runs it: one context object whose frames, counter, labels and
    emitted lines change in place. Each method is tied to the function that says what it computes. */
module CompileContext {
  import opened Wrappers
  import opened Words
  import opened Machine
  import opened SourceIR
  import T = PythonTarget
  import opened Compiler
  import opened Scopes
  import CompilerProof
  import opened OperationProof
  import WordCache
  import Acceptance
  import opened CompilerTheorem

  type TFuncs = CompilerProof.TFuncs

  // ---- facts about lists, for the loops -----------------------------------------------------

  lemma {:induction false} AnalyzeAllSnoc(es: seq<IR>, e: IR, f: Frame)
    ensures AnalyzeAll(es + [e], f) ==
            var a, l := AnalyzeAll(es, f), Analyze(e, f);
            if a.None? || l.None? then None else Some(a.value + [l.value])
  {
    if es == [] {
      assert es + [e] == [e] && [e][1..] == [];
      assert Analyze(e, f).Some? ==> [Analyze(e, f).value] + [] == [] + [Analyze(e, f).value];
    } else {
      assert (es + [e])[0] == es[0] && (es + [e])[1..] == es[1..] + [e];
      AnalyzeAllSnoc(es[1..], e, f);
      var a, l := AnalyzeAll(es[1..], f), Analyze(e, f);
      if a.Some? && l.Some? && Analyze(es[0], f).Some? {
        assert [Analyze(es[0], f).value] + (a.value + [l.value]) == ([Analyze(es[0], f).value] + a.value) + [l.value];
      }
    }
  }

  lemma {:induction false} AnalyzeAllFails(es: seq<IR>, n: nat, f: Frame)
    requires n <= |es| && AnalyzeAll(es[..n], f).None?
    ensures AnalyzeAll(es, f).None?
    decreases |es|
  {
    if n == |es| {
      assert es[..n] == es;
    } else if n > 0 {
      assert es[..n][1..] == es[1..][..n - 1];
      if AnalyzeAll(es[1..][..n - 1], f).None? { AnalyzeAllFails(es[1..], n - 1, f); }
    }
  }

  lemma {:induction false} ALabelsSnoc(a: seq<AIR>, l: AIR)
    ensures ALabelsAll(a + [l]) == ALabelsAll(a) + ALabels(l)
  {
    if a == [] {
      assert a + [l] == [l] && [l][1..] == [];
    } else {
      assert (a + [l])[1..] == a[1..] + [l];
      ALabelsSnoc(a[1..], l);
    }
  }

  lemma {:induction false} ALabelsPrefix(a: seq<AIR>, n: nat)
    requires n <= |a|
    ensures ALabelsAll(a[..n]) <= ALabelsAll(a)
    decreases |a| - n
  {
    if n < |a| {
      ALabelsPrefix(a, n + 1);
      assert a[..n + 1] == a[..n] + [a[n]];
      ALabelsSnoc(a[..n], a[n]);
    } else {
      assert a[..n] == a;
    }
  }

  // ---- labels ---------------------------------------------------------------------------------

  predicate UniqueLabels(ls: seq<AIR>) {
    && (forall i :: 0 <= i < |ls| ==> ls[i].ALabel?)
    && (forall i, j :: 0 <= i < j < |ls| ==> ls[i].lbl != ls[j].lbl)
  }

  lemma UniquePrefix(a: seq<AIR>, b: seq<AIR>)
    requires a <= b && UniqueLabels(b)
    ensures UniqueLabels(a)
  {
    assert forall i :: 0 <= i < |a| ==> a[i] == b[i];
  }

  /** What `analyze` returns when labels `old` are already taken: it raises on an unbound name, an
      integer out of range or a label that occurs twice. */
  function Outcome(taken: seq<AIR>, spec: Option<AIR>): Option<AIR> {
    if spec.Some? && UniqueLabels(taken + ALabels(spec.value)) then spec else None
  }

  function OutcomeAll(taken: seq<AIR>, spec: Option<seq<AIR>>): Option<seq<AIR>> {
    if spec.Some? && UniqueLabels(taken + ALabelsAll(spec.value)) then spec else None
  }

  lemma Split(taken: seq<AIR>, a: seq<AIR>, b: seq<AIR>)
    ensures (taken + a) + b == taken + (a + b)
    ensures UniqueLabels(taken + (a + b)) ==> UniqueLabels(taken + a)
  {
    assert (taken + a) + b == taken + (a + b);
    if UniqueLabels(taken + (a + b)) { UniquePrefix(taken + a, taken + (a + b)); }
  }

  lemma Two(taken: seq<AIR>, s: Option<AIR>, t: Option<AIR>)
    ensures s.Some? && t.Some? ==>
              var a, b := ALabels(s.value), ALabels(t.value);
              (taken + a) + b == taken + (a + b) && (UniqueLabels(taken + (a + b)) ==> UniqueLabels(taken + a))
  {
    if s.Some? && t.Some? { Split(taken, ALabels(s.value), ALabels(t.value)); }
  }

  lemma Three(taken: seq<AIR>, s: Option<AIR>, t: Option<AIR>, u: Option<AIR>)
    ensures s.Some? && t.Some? && u.Some? ==>
              var a, b, c := ALabels(s.value), ALabels(t.value), ALabels(u.value);
              && ((taken + a) + b) + c == taken + (a + b + c)
              && (UniqueLabels(taken + (a + b + c)) ==> UniqueLabels(taken + a) && UniqueLabels((taken + a) + b))
  {
    if s.Some? && t.Some? && u.Some? {
      var a, b, c := ALabels(s.value), ALabels(t.value), ALabels(u.value);
      Split(taken, a + b, c);
      Split(taken, a, b);
      assert (taken + a) + b == taken + (a + b);
    }
  }

  lemma TakenTwice(taken: seq<AIR>, es: seq<IR>, n: nat, f: Frame)
    requires n <= |es| && AnalyzeAll(es[..n], f).Some?
    requires !UniqueLabels(taken + ALabelsAll(AnalyzeAll(es[..n], f).value))
    ensures OutcomeAll(taken, AnalyzeAll(es, f)).None?
  {
    var spec := AnalyzeAll(es, f);
    if spec.Some? {
      CompilerProof.AnalyzeAllPrefix(es, f, spec.value, n);
      ALabelsPrefix(spec.value, n);
      if UniqueLabels(taken + ALabelsAll(spec.value)) {
        UniquePrefix(taken + ALabelsAll(spec.value[..n]), taken + ALabelsAll(spec.value));
      }
    }
  }

  /** A placeholder under the right label is as good as the finished node. */
  lemma SameNames(a: seq<AIR>, b: seq<AIR>)
    requires |a| == |b| && forall i :: 0 <= i < |a| ==> a[i].ALabel? && b[i].ALabel? && a[i].lbl == b[i].lbl
    ensures UniqueLabels(a) <==> UniqueLabels(b)
  {}

  lemma Finished(taken: seq<AIR>, holder: AIR, a: AIR, rest: seq<AIR>)
    requires holder.ALabel? && a.ALabel? && holder.lbl == a.lbl
    requires forall i :: 0 <= i < |taken| ==> taken[i].ALabel?
    requires forall i :: 0 <= i < |rest| ==> rest[i].ALabel?
    ensures UniqueLabels(taken + [holder] + rest) <==> UniqueLabels(taken + ([a] + rest))
    ensures (taken + [holder] + rest)[|taken| := a] == taken + ([a] + rest)
  {
    SameNames(taken + [holder] + rest, taken + ([a] + rest));
  }

  lemma NameTaken(taken: seq<AIR>, i: nat, l: string, spec: Option<AIR>)
    requires i < |taken| && taken[i].ALabel? && taken[i].lbl == l
    requires spec.Some? ==> spec.value.ALabel? && spec.value.lbl == l
    ensures Outcome(taken, spec).None?
  {
    if spec.Some? {
      var all := taken + ALabels(spec.value);
      assert all[i] == taken[i] && all[|taken|] == spec.value;
    }
  }

  lemma MergeStep(s: Saved, rest: Saved, x: string, v: Option<nat>)
    ensures s[x := v] + rest == s + (if x in rest then rest else rest[x := v])
  {}

  lemma LabelCode(l: string, params: seq<string>, body: IR, f: Frame)
    ensures var f' := Enter(EmptyFrame, params);
            var ps, b := ParamVars(f', params), Compiler.Analyze(body, f');
            Compiler.Analyze(Label(l, params, body), f) ==
              if ps.None? || b.None? then None else Some(ALabel(l, ps.value, b.value))
  {}

  // ---- what each construct compiles to --------------------------------------------------------

  lemma RepeatCode(a: AIR, k: nat, out: Option<TVar>, want: Ty)
    requires a.ARepeat?
    ensures var c := Compiler.Compile(a.start, k + 2, Some(Temp(k)), TInt);
            var r := Compiler.Compile(a.rounds, c.next, Some(Temp(k + 1)), TInt);
            var b := Compiler.Compile(a.body, r.next, None, TNone);
            Compiler.Compile(a, k, out, want) == Code(c.stmts + (r.stmts +
              [T.AssertAtMost(Temp(k + 1), a.bound), T.ForRange(User(a.name, a.slot), Temp(k), Temp(k + 1), b.stmts)]), b.next)
  {}

  lemma BranchCode(a: AIR, k: nat, out: Option<TVar>, want: Ty)
    requires a.AIf? || a.AIfElse?
    ensures var t := Compiler.Compile(a.test, k + 1, Some(Temp(k)), TInt);
            var b := Compiler.Compile(a.body, t.next, out, want);
            Compiler.Compile(a, k, out, want) ==
              if a.AIf? then Code(t.stmts + [T.IfStmt(Temp(k), b.stmts, [])], b.next)
              else
                var o := Compiler.Compile(a.orelse, b.next, out, want);
                Code(t.stmts + [T.IfStmt(Temp(k), b.stmts, o.stmts)], o.next)
  {}

  lemma ArgsCodeNone(args: seq<AIR>, wants: seq<Ty>, base: nat, k: nat)
    requires |args| == |wants|
    ensures args[..|args|] == args && wants[..|wants|] == wants
    ensures Compiler.CompileArgs(args[..0], base, wants[..0], k) == Code([], k)
  {}

  lemma ArgsCodeLast(args: seq<AIR>, wants: seq<Ty>, base: nat, k: nat, i: nat)
    requires i < |args| == |wants|
    ensures var c := Compiler.Compile(args[i], k, Some(Temp(base + i)), wants[i]);
            var r := Compiler.CompileArgs(args[..i], base, wants[..i], c.next);
            Compiler.CompileArgs(args[..i + 1], base, wants[..i + 1], k) == Code(c.stmts + r.stmts, r.next)
  {
    hide Compiler.Compile;
    assert args[..i + 1][..i] == args[..i] && wants[..i + 1][..i] == wants[..i];
  }

  class CompileContext {
    var frames: seq<Frame>
    var varId: int
    var labels: seq<AIR>
    var lines: seq<T.Stmt<TVar>>

    ghost predicate Valid()
      reads this
    {
      |frames| > 0 && varId >= -1 && UniqueLabels(labels)
    }

    ghost function Top(): Frame
      reads this
      requires |frames| > 0
    {
      frames[|frames| - 1]
    }

    ghost function Next(): nat
      reads this
      requires varId >= -1
    {
      varId + 1
    }

    constructor ()
      ensures Valid() && frames == [EmptyFrame] && varId == -1 && labels == [] && lines == []
    {
      frames, varId, labels, lines := [EmptyFrame], -1, [], [];
    }

    method FreshVar() returns (v: TVar)
      requires Valid()
      modifies this`varId
      ensures Valid() && v == Temp(old(Next())) && Next() == old(Next()) + 1
    {
      varId := varId + 1;
      v := Temp(varId);
    }

    /** `n` fresh temporaries. */
    method FreshVars(n: nat) returns (vs: seq<TVar>)
      requires Valid()
      modifies this`varId
      ensures Valid() && vs == Temps(old(Next()), n) && Next() == old(Next()) + n
    {
      vs := [];
      for i := 0 to n
        invariant Valid() && Next() == old(Next()) + i && vs == Temps(old(Next()), i)
      {
        var v := FreshVar();
        vs := vs + [v];
      }
    }

    /** The part of `variables` before its `yield`. */
    method EnterVariables(names: seq<string>) returns (shadowed: Saved)
      requires Valid()
      modifies this`frames
      ensures Valid() && frames == old(frames)[|old(frames)| - 1 := Enter(old(Top()), names)]
      ensures shadowed == Shadowed(old(Top()), names)
    {
      var frame := frames[|frames| - 1];
      ghost var start := frame;
      shadowed := map[];
      for i := 0 to |names|
        invariant frames == old(frames) && Enter(frame, names[i..]) == Enter(start, names)
        invariant shadowed + Shadowed(frame, names[i..]) == Shadowed(start, names)
      {
        assert names[i..][1..] == names[i + 1..];
        MergeStep(shadowed, Shadowed(EnterOne(frame, names[i]), names[i + 1..]), names[i], Lookup(frame, names[i]));
        shadowed := shadowed[names[i] := Lookup(frame, names[i])];
        frame := EnterOne(frame, names[i]);
      }
      frames := frames[|frames| - 1 := frame];
    }

    /** The part after it; `false` where Python raises. */
    method ExitVariables(names: seq<string>, shadowed: Saved) returns (ok: bool)
      requires Valid()
      modifies this`frames
      ensures Valid() && ok == Leave(old(Top()), names, shadowed).Some?
      ensures ok ==> frames == old(frames)[|old(frames)| - 1 := Leave(old(Top()), names, shadowed).value]
    {
      var frame := frames[|frames| - 1];
      ghost var start := frame;
      for i := 0 to |names|
        invariant frames == old(frames)
        invariant Leave(frame, names[i..], shadowed) == Leave(start, names, shadowed)
      {
        assert names[i..][1..] == names[i + 1..];
        var r := LeaveOne(frame, names[i], shadowed);
        if r.None? { return false; }
        frame := r.value;
      }
      frames := frames[|frames| - 1 := frame];
      ok := true;
    }

    // ---- analyze -----------------------------------------------------------------------------

    method Analyze(e: IR) returns (r: Option<AIR>)
      requires Valid()
      modifies this`frames, this`labels
      ensures r == Outcome(old(labels), Compiler.Analyze(e, old(Top())))
      ensures r.Some? ==> Valid() && frames == old(frames) && labels == old(labels) + ALabels(r.value)
      decreases e, 1
    {
      match e
      case Int(n) =>
        assert labels + [] == labels;
        r := if -(TWO256 / 2) <= n < TWO256 then Some(AInt(Wrap(n))) else None;
      case Var(x) =>
        assert labels + [] == labels;
        var f := frames[|frames| - 1];
        r := if x in f.slots then Some(AVar(x, f.slots[x])) else None;
      case ExitToReturnPc =>
        assert labels + [] == labels;
        r := Some(AExitToReturnPc);
      case Apply(op, args) =>
        var a := AnalyzeArgs(args);
        r := if a.None? then None else Some(AApply(op, a.value));
      case Seq(es) =>
        var a := AnalyzeArgs(es);
        r := if a.None? then None else Some(ASeq(a.value));
      case Goto(l, args) =>
        var a := AnalyzeArgs(args);
        r := if a.None? then None else Some(AGoto(l, a.value));
      case ExitTo(l, args) =>
        var a := AnalyzeArgs(args);
        r := if a.None? then None else Some(AExitTo(l, a.value));
      case Set(x, val) =>
        var f := frames[|frames| - 1];
        if x !in f.slots { return None; }
        var v := Analyze(val);
        r := if v.None? then None else Some(ASet(x, f.slots[x], v.value));
      case With(_, _, _) => r := AnalyzeWith(e);
      case If(_, _) => r := AnalyzeIf(e);
      case IfElse(_, _, _) => r := AnalyzeIfElse(e);
      case Repeat(_, _, _, _, _) => r := AnalyzeRepeat(e);
      case Label(l, params, b) => r := AnalyzeLabel(l, params, b);
    }

    /** `With.analyze`: the value is analysed before the name is shadowed. */
    method AnalyzeWith(e: IR) returns (r: Option<AIR>)
      requires Valid() && e.With?
      modifies this`frames, this`labels
      ensures r == Outcome(old(labels), Compiler.Analyze(e, old(Top())))
      ensures r.Some? ==> Valid() && frames == old(frames) && labels == old(labels) + ALabels(r.value)
      decreases e, 0
    {
      Two(labels, Compiler.Analyze(e.val, Top()), Compiler.Analyze(e.body, EnterOne(Top(), e.name)));
      var v := Analyze(e.val);
      if v.None? { return None; }
      var b, slot := AnalyzeUnder(e.name, e.body);
      r := if b.None? then None else Some(AWith(e.name, slot, v.value, b.value));
    }

    method AnalyzeIf(e: IR) returns (r: Option<AIR>)
      requires Valid() && e.If?
      modifies this`frames, this`labels
      ensures r == Outcome(old(labels), Compiler.Analyze(e, old(Top())))
      ensures r.Some? ==> Valid() && frames == old(frames) && labels == old(labels) + ALabels(r.value)
      decreases e, 0
    {
      Two(labels, Compiler.Analyze(e.test, Top()), Compiler.Analyze(e.body, Top()));
      var t := Analyze(e.test);
      if t.None? { return None; }
      var b := Analyze(e.body);
      r := if b.None? then None else Some(AIf(t.value, b.value));
    }

    method AnalyzeIfElse(e: IR) returns (r: Option<AIR>)
      requires Valid() && e.IfElse?
      modifies this`frames, this`labels
      ensures r == Outcome(old(labels), Compiler.Analyze(e, old(Top())))
      ensures r.Some? ==> Valid() && frames == old(frames) && labels == old(labels) + ALabels(r.value)
      decreases e, 0
    {
      Two(labels, Compiler.Analyze(e.test, Top()), Compiler.Analyze(e.body, Top()));
      Three(labels, Compiler.Analyze(e.test, Top()), Compiler.Analyze(e.body, Top()), Compiler.Analyze(e.orelse, Top()));
      var t := Analyze(e.test);
      if t.None? { return None; }
      var b := Analyze(e.body);
      if b.None? { return None; }
      var o := Analyze(e.orelse);
      r := if o.None? then None else Some(AIfElse(t.value, b.value, o.value));
    }

    /** `Repeat.analyze`: start and rounds are analysed before the name is shadowed. */
    method AnalyzeRepeat(e: IR) returns (r: Option<AIR>)
      requires Valid() && e.Repeat?
      modifies this`frames, this`labels
      ensures r == Outcome(old(labels), Compiler.Analyze(e, old(Top())))
      ensures r.Some? ==> Valid() && frames == old(frames) && labels == old(labels) + ALabels(r.value)
      decreases e, 0
    {
      Two(labels, Compiler.Analyze(e.start, Top()), Compiler.Analyze(e.rounds, Top()));
      Three(labels, Compiler.Analyze(e.start, Top()), Compiler.Analyze(e.rounds, Top()),
            Compiler.Analyze(e.body, EnterOne(Top(), e.name)));
      var start := Analyze(e.start);
      if start.None? { return None; }
      var rounds := Analyze(e.rounds);
      if rounds.None? { return None; }
      var b, slot := AnalyzeUnder(e.name, e.body);
      r := if b.None? then None else Some(ARepeat(e.name, slot, start.value, rounds.value, e.bound, b.value));
    }

    /** `[arg.analyze() for arg in self.args]` */
    method AnalyzeArgs(args: seq<IR>) returns (r: Option<seq<AIR>>)
      requires Valid()
      modifies this`frames, this`labels
      ensures r == OutcomeAll(old(labels), AnalyzeAll(args, old(Top())))
      ensures r.Some? ==> Valid() && frames == old(frames) && labels == old(labels) + ALabelsAll(r.value)
      decreases args, 0
    {
      hide Compiler.Analyze;
      var done: seq<AIR> := [];
      assert labels + [] == labels;
      for i := 0 to |args|
        invariant Valid() && frames == old(frames) && labels == old(labels) + ALabelsAll(done)
        invariant AnalyzeAll(args[..i], Top()) == Some(done)
      {
        ghost var f := Top();
        var a := Analyze(args[i]);
        assert args[..i + 1] == args[..i] + [args[i]];
        AnalyzeAllSnoc(args[..i], args[i], f);
        var spec := Compiler.Analyze(args[i], f);
        if a.None? {
          if spec.None? {
            AnalyzeAllFails(args, i + 1, f);
          } else {
            ALabelsSnoc(done, spec.value);
            Split(old(labels), ALabelsAll(done), ALabels(spec.value));
            TakenTwice(old(labels), args, i + 1, f);
          }
          return None;
        }
        ALabelsSnoc(done, a.value);
        Split(old(labels), ALabelsAll(done), ALabels(a.value));
        done := done + [a.value];
      }
      assert args[..|args|] == args;
      r := Some(done);
    }

    /** A node in the scope of one more name: enter, analyse, leave. */
    method AnalyzeUnder(x: string, body: IR) returns (r: Option<AIR>, slot: nat)
      requires Valid()
      modifies this`frames, this`labels
      ensures r == Outcome(old(labels), Compiler.Analyze(body, EnterOne(old(Top()), x)))
      ensures r.Some? ==> Valid() && frames == old(frames) && labels == old(labels) + ALabels(r.value)
      ensures slot == old(Top()).current
      decreases body, 2
    {
      ghost var f := Top();
      LeaveUndoesOne(f, x);
      var shadowed := EnterVariables([x]);
      slot := frames[|frames| - 1].slots[x];
      r := Analyze(body);
      if r.None? { return; }
      var ok := ExitVariables([x], shadowed);
      assert frames == old(frames);
    }

    /** `with allocate_local_frame(), variables(params)`: parameters and body of a subroutine. */
    method AnalyzeInNewFrame(params: seq<string>, body: IR) returns (r: Option<AIR>, ps: Option<seq<TVar>>)
      requires Valid()
      modifies this`frames, this`labels
      ensures ps == ParamVars(Enter(EmptyFrame, params), params)
      ensures r == Outcome(old(labels), Compiler.Analyze(body, Enter(EmptyFrame, params)))
      ensures r.Some? ==> Valid() && frames == old(frames) && labels == old(labels) + ALabels(r.value)
      decreases body, 2
    {
      LeaveNeverRaises(EmptyFrame, params);
      frames := frames + [EmptyFrame];
      var shadowed := EnterVariables(params);
      ps := ParamVars(frames[|frames| - 1], params);
      r := Analyze(body);
      if r.None? { return; }
      var ok := ExitVariables(params, shadowed);
      frames := frames[..|frames| - 1];
    }

    /** `Label.analyze`: register the label, then analyse its body; the registered node is then
        filled in where it stands. */
    method AnalyzeLabel(l: string, params: seq<string>, body: IR) returns (r: Option<AIR>)
      requires Valid()
      modifies this`frames, this`labels
      ensures r == Outcome(old(labels), Compiler.Analyze(Label(l, params, body), old(Top())))
      ensures r.Some? ==> Valid() && frames == old(frames) && labels == old(labels) + ALabels(r.value)
      decreases body, 3
    {
      hide Enter; hide Compiler.Analyze; hide ParamVars;
      LabelCode(l, params, body, Top());
      ghost var taken, spec := labels, Compiler.Analyze(body, Enter(EmptyFrame, params));
      if exists i | 0 <= i < |labels| :: labels[i].lbl == l {
        ghost var i :| 0 <= i < |labels| && labels[i].lbl == l;
        NameTaken(taken, i, l, Compiler.Analyze(Label(l, params, body), Top()));
        return None;
      }
      var at, holder := |labels|, ALabel(l, [], AExitToReturnPc);
      labels := labels + [holder];
      var b, ps := AnalyzeInNewFrame(params, body);
      if spec.Some? && ps.Some? {
        LabelsAreLabels(spec.value);
        Finished(taken, holder, ALabel(l, ps.value, spec.value), ALabels(spec.value));
      }
      if b.None? || ps.None? { return None; }
      r := Some(ALabel(l, ps.value, b.value));
      labels := labels[at := r.value];
    }

    // ---- compile -----------------------------------------------------------------------------

    method Append(s: T.Stmt<TVar>)
      modifies this`lines
      ensures lines == old(lines) + [s]
    {
      lines := lines + [s];
    }

    method Extend(ss: seq<T.Stmt<TVar>>)
      modifies this`lines
      ensures lines == old(lines) + ss
    {
      lines := lines + ss;
    }

    /** `with builder.block(...): node.compile(...)`: the lines of the block on their own. */
    method CompileBlock(a: AIR, out: Option<TVar>, want: Ty) returns (block: seq<T.Stmt<TVar>>)
      requires Valid()
      modifies this`lines, this`varId
      ensures Valid() && lines == old(lines)
      ensures var c := Compiler.Compile(a, old(Next()), out, want); block == c.stmts && Next() == c.next
      decreases a, 2
    {
      var outer := lines;
      lines := [];
      Compile(a, out, want);
      block := lines;
      lines := outer;
    }

    /** `compile`: append the code of a node, taking temporaries from the counter. */
    method Compile(a: AIR, out: Option<TVar>, want: Ty)
      requires Valid()
      modifies this`lines, this`varId
      ensures Valid()
      ensures var c := Compiler.Compile(a, old(Next()), out, want); lines == old(lines) + c.stmts && Next() == c.next
      decreases a, 1
    {
      hide Emit;
      match a
      case AInt(n) => Extend(Deliver(Some(T.Lit(n)), TInt, out, want));
      case AVar(x, s) => Extend(Deliver(Some(T.Name(User(x, s))), TInt, out, want));
      case AApply(_, _) => CompileApply(a, out, want);
      case AWith(x, s, val, body) =>
        Compile(val, Some(User(x, s)), TInt);
        Compile(body, out, want);
      case ASet(x, s, val) => Compile(val, Some(User(x, s)), TInt);
      case ASeq(es) =>
        if |es| == 0 { Append(T.PassStmt); } else { CompileEach(es, out, want); }
      case AIf(_, _) => CompileBranch(a, out, want);
      case AIfElse(_, _, _) => CompileBranch(a, out, want);
      case ARepeat(x, s, start, rounds, bound, body) => CompileRepeat(a, out, want);
      case AGoto(_, _) => CompileCall(a, out, want);
      case AExitTo(_, _) => CompileCall(a, out, want);
      case AExitToReturnPc => Append(T.ReturnNone);
      case ALabel(_, _, _) =>
    }

    /** Operands into fresh temporaries, then the template of the operation. A wrong number of
        operands is an assertion failure in Python, where nothing is emitted. */
    method CompileApply(a: AIR, out: Option<TVar>, want: Ty)
      requires Valid() && a.AApply?
      modifies this`lines, this`varId
      ensures Valid()
      ensures var c := Compiler.Compile(a, old(Next()), out, want); lines == old(lines) + c.stmts && Next() == c.next
      decreases a, 0
    {
      hide Emit;
      var n := |a.args|;
      ghost var base := Next();
      var vs := FreshVars(n);
      CompileArgs(a.args, vs, OperandTypes(a.op, n), base);
      if n == Arity(a.op) {
        var m := Emit(a.op, vs);
        Extend(m.stmts + Deliver(m.res, TypeOf(a), out, want));
      }
    }

    method CompileBranch(a: AIR, out: Option<TVar>, want: Ty)
      requires Valid() && (a.AIf? || a.AIfElse?)
      modifies this`lines, this`varId
      ensures Valid()
      ensures var c := Compiler.Compile(a, old(Next()), out, want); lines == old(lines) + c.stmts && Next() == c.next
      decreases a, 0
    {
      hide Compiler.Compile;
      BranchCode(a, Next(), out, want);
      var t := FreshVar();
      Compile(a.test, Some(t), TInt);
      var b := CompileBlock(a.body, out, want);
      if a.AIf? {
        Append(T.IfStmt(t, b, []));
      } else {
        var o := CompileBlock(a.orelse, out, want);
        Append(T.IfStmt(t, b, o));
      }
    }

    method CompileCall(a: AIR, out: Option<TVar>, want: Ty)
      requires Valid() && (a.AGoto? || a.AExitTo?)
      modifies this`lines, this`varId
      ensures Valid()
      ensures var c := Compiler.Compile(a, old(Next()), out, want); lines == old(lines) + c.stmts && Next() == c.next
      decreases a, 0
    {
      hide Emit;
      var n := |a.args|;
      ghost var base := Next();
      var vs := FreshVars(n);
      CompileArgs(a.args, vs, AllInts(n), base);
      Append(if a.AGoto? then T.CallFn(a.lbl, vs) else T.ReturnCall(a.lbl, vs));
    }

    method CompileRepeat(a: AIR, out: Option<TVar>, want: Ty)
      requires Valid() && a.ARepeat?
      modifies this`lines, this`varId
      ensures Valid()
      ensures var c := Compiler.Compile(a, old(Next()), out, want); lines == old(lines) + c.stmts && Next() == c.next
      decreases a, 0
    {
      hide Compiler.Compile;
      RepeatCode(a, Next(), out, want);
      var start := FreshVar();
      var rounds := FreshVar();
      Compile(a.start, Some(start), TInt);
      Compile(a.rounds, Some(rounds), TInt);
      Append(T.AssertAtMost(rounds, a.bound));
      var b := CompileBlock(a.body, None, TNone);
      Append(T.ForRange(User(a.name, a.slot), start, rounds, b));
    }

    /** `_compile_args`: the last operand first. */
    method CompileArgs(args: seq<AIR>, vs: seq<TVar>, wants: seq<Ty>, ghost base: nat)
      requires Valid() && |args| == |vs| == |wants|
      requires vs == Temps(base, |vs|)
      modifies this`lines, this`varId
      ensures Valid()
      ensures var c := Compiler.CompileArgs(args, base, wants, old(Next())); lines == old(lines) + c.stmts && Next() == c.next
      decreases args, 0
    {
      hide Compiler.Compile; hide Compiler.CompileArgs;
      ArgsCodeNone(args, wants, base, Next());
      ghost var whole := Compiler.CompileArgs(args, base, wants, Next());
      assert args[..|args|] == args && wants[..|args|] == wants;
      for i := |args| downto 0
        invariant Valid()
        invariant var rest := Compiler.CompileArgs(args[..i], base, wants[..i], Next());
                  lines + rest.stmts == old(lines) + whole.stmts && rest.next == whole.next
      {
        ArgsCodeLast(args, wants, base, Next(), i);
        Compile(args[i], Some(vs[i]), wants[i]);
      }
      ArgsCodeNone(args, wants, base, Next());
    }

    method CompileEach(es: seq<AIR>, out: Option<TVar>, want: Ty)
      requires Valid() && es != []
      modifies this`lines, this`varId
      ensures Valid()
      ensures var c := CompileSeq(es, old(Next()), out, want); lines == old(lines) + c.stmts && Next() == c.next
      decreases es, 0
    {
      ghost var whole := CompileSeq(es, Next(), out, want);
      for i := 0 to |es| - 1
        invariant Valid()
        invariant var rest := CompileSeq(es[i..], Next(), out, want);
                  lines + rest.stmts == old(lines) + whole.stmts && rest.next == whole.next
      {
        assert es[i..][1..] == es[i + 1..];
        Compile(es[i], None, TNone);
      }
      Compile(es[|es| - 1], out, want);
    }

    /** `compile_main`: the main code, then one function per label. */
    method CompileMain(a: AIR) returns (p: Program)
      requires Valid() && varId == -1 && labels == ALabels(a)
      modifies this`lines, this`varId
      ensures p == CompileProgram(a)
    {
      LabelsAreLabels(a);
      var main := CompileBlock(a, None, TNone);
      var funcs: TFuncs := [];
      ghost var whole := CompileFuncs(labels, Next());
      for i := 0 to |labels|
        invariant Valid() && labels == old(labels)
        invariant funcs + CompileFuncs(labels[i..], Next()) == whole
      {
        assert labels[i..][1..] == labels[i + 1..];
        var code := CompileBlock(labels[i].body, None, TNone);
        funcs := funcs + [T.TFunc(labels[i].lbl, labels[i].params, code)];
      }
      p := Program(main, funcs);
    }
  }

  /** `executor_from_ir`. */
  method ExecutorFromIR(e: IR) returns (p: Option<Program>)
    ensures p == match Outcome([], Compiler.Analyze(e, EmptyFrame)) case None => None case Some(a) => Some(CompileProgram(a))
    ensures p.Some? <==>
              Acceptance.LiteralsOk(e) && Acceptance.Free(e) == {} && Acceptance.LabelsClosed(e) && Acceptance.DistinctLabels(e)
    ensures p.Some? && CompilerProof.WellFormed(e, false, Labels(e)) ==>
              forall h, fuel, stack, vm :: Faithful(h, e, p.value, fuel, stack, vm)
  {
    AcceptedIff(e);
    var ctx := new CompileContext();
    var a := ctx.Analyze(e);
    if a.None? { return None; }
    assert [] + ALabels(a.value) == ALabels(a.value);
    var q := ctx.CompileMain(a.value);
    if CompilerProof.WellFormed(e, false, Labels(e)) {
      forall h, fuel, stack, vm ensures Faithful(h, e, q, fuel, stack, vm) {
        if WordCache.Good(vm.mem) { CompilerCorrect(h, e, a.value, fuel, stack, vm); }
      }
    }
    p := Some(q);
  }

  /** A program comes out exactly when integers are in range, names are bound and labels differ. */
  lemma AcceptedIff(e: IR)
    ensures Outcome([], Compiler.Analyze(e, EmptyFrame)).Some? <==>
              Acceptance.LiteralsOk(e) && Acceptance.Free(e) == {} && Acceptance.LabelsClosed(e) && Acceptance.DistinctLabels(e)
  {
    hide Compiler.Analyze, Acceptance.LiteralsOk, Acceptance.Free, Acceptance.LabelsClosed, Acceptance.SameLabels;
    hide UniqueLabels, Labels, ALabels;
    Acceptance.AnalyzesIff(e, EmptyFrame);
    var spec := Compiler.Analyze(e, EmptyFrame);
    if spec.Some? {
      Acceptance.LabelNames(e, EmptyFrame, spec.value);
      DistinctIff(Labels(e), ALabels(spec.value));
      assert [] + ALabels(spec.value) == ALabels(spec.value);
    }
  }

  lemma DistinctIff(fs: seq<Func>, ls: seq<AIR>)
    requires Acceptance.SameLabels(fs, ls)
    ensures var names := Acceptance.NamesOf(fs);
      UniqueLabels(ls) <==> forall i, j :: 0 <= i < j < |names| ==> names[i] != names[j]
  {
    var names := Acceptance.NamesOf(fs);
    forall i | 0 <= i < |ls| ensures names[i] == ls[i].lbl {}
  }

  /** The program does what the IR means on every run that meets the guards. */
  ghost predicate Faithful(h: Host, e: IR, p: Program, fuel: nat, stack: seq<Raw>, vm: T.Vm) {
    var r := Run(h, fuel, e, View(vm));
    WordCache.Good(vm.mem) && r.world.exact ==> SameRun(r, Start(h, p, fuel, stack, vm))
  }
}
