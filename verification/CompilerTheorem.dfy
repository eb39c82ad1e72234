/** The compiler as a whole: main code and subroutines, for every host, world and depth of calls. */
module CompilerTheorem {
  import opened Wrappers
  import opened Words
  import opened Machine
  import opened SourceIR
  import T = PythonTarget
  import opened Compiler
  import opened OperationProof
  import opened CompilerProof
  import opened Scopes
  import WordCache

  datatype Program = Program(main: seq<T.Stmt<TVar>>, funcs: TFuncs)

  /** `compile_main` on an analysed program. */
  function CompileProgram(a: AIR): Program {
    var c := Compile(a, 0, None, TNone);
    LabelsAreLabels(a);
    Program(c.stmts, CompileFuncs(ALabels(a), c.next))
  }

  /** Run `main(CTX)`: no locals, whatever is on the stack. */
  function Start(h: Host, p: Program, fuel: nat, stack: seq<Raw>, vm: T.Vm): TRes {
    T.Exec(h, p.funcs, fuel, p.main, T.St(map[], stack, vm))
  }

  /** `exec` gives the computation a new `FastMem`. */
  function Fresh(storage: map<int, Word>): T.Vm {
    T.Vm(WordCache.EMPTY, storage)
  }

  lemma {:induction false} LabelsAreLabels(a: AIR)
    ensures forall l :: l in ALabels(a) ==> l.ALabel?
    decreases a, 0
  {
    match a
    case AApply(_, args) => AllLabelsAreLabels(args);
    case AWith(_, _, val, body) => LabelsAreLabels(val); LabelsAreLabels(body);
    case ASet(_, _, val) => LabelsAreLabels(val);
    case ASeq(es) => AllLabelsAreLabels(es);
    case AIf(t, b) => LabelsAreLabels(t); LabelsAreLabels(b);
    case AIfElse(t, b, o) => LabelsAreLabels(t); LabelsAreLabels(b); LabelsAreLabels(o);
    case ARepeat(_, _, s, r, _, b) => LabelsAreLabels(s); LabelsAreLabels(r); LabelsAreLabels(b);
    case AGoto(_, args) => AllLabelsAreLabels(args);
    case AExitTo(_, args) => AllLabelsAreLabels(args);
    case ALabel(_, _, b) => LabelsAreLabels(b);
    case _ =>
  }

  lemma {:induction false} AllLabelsAreLabels(es: seq<AIR>)
    ensures forall l :: l in ALabelsAll(es) ==> l.ALabel?
    decreases es, 1
  {
    if es != [] {
      LabelsAreLabels(es[0]);
      AllLabelsAreLabels(es[1..]);
    }
  }

  // ---- every label of the source becomes the subroutine of that label -------------------

  ghost predicate LabelMatches(all: seq<Func>, f: Func, l: AIR) {
    var frame := Enter(EmptyFrame, f.params);
    && l.ALabel? && l.lbl == f.lbl
    && ParamVars(frame, f.params) == Some(l.params)
    && Analyze(f.body, frame) == Some(l.body)
    && WellFormed(f.body, false, all)
  }

  ghost predicate LabelsMatch(all: seq<Func>, fs: seq<Func>, ls: seq<AIR>) {
    |fs| == |ls| && forall i {:trigger LabelMatches(all, fs[i], ls[i])} :: 0 <= i < |fs| ==> LabelMatches(all, fs[i], ls[i])
  }

  lemma MatchAppend(all: seq<Func>, f1: seq<Func>, l1: seq<AIR>, f2: seq<Func>, l2: seq<AIR>)
    requires LabelsMatch(all, f1, l1) && LabelsMatch(all, f2, l2)
    ensures LabelsMatch(all, f1 + f2, l1 + l2)
  {
    forall i | 0 <= i < |f1 + f2| ensures LabelMatches(all, (f1 + f2)[i], (l1 + l2)[i]) {
      if i < |f1| {
        assert LabelMatches(all, f1[i], l1[i]);
      } else {
        assert LabelMatches(all, f2[i - |f1|], l2[i - |f1|]);
      }
    }
  }

  lemma MatchAppendTwo(all: seq<Func>, f1: seq<Func>, l1: seq<AIR>, f2: seq<Func>, l2: seq<AIR>, f3: seq<Func>, l3: seq<AIR>)
    requires LabelsMatch(all, f1, l1) && LabelsMatch(all, f2, l2) && LabelsMatch(all, f3, l3)
    ensures LabelsMatch(all, f1 + f2 + f3, l1 + l2 + l3)
  {
    MatchAppend(all, f1, l1, f2, l2);
    MatchAppend(all, f1 + f2, l1 + l2, f3, l3);
  }

  lemma MatchNone(all: seq<Func>)
    ensures LabelsMatch(all, [], [])
  {}

  lemma MatchOne(all: seq<Func>, f: Func, l: AIR)
    requires LabelMatches(all, f, l)
    ensures LabelsMatch(all, [f], [l])
  {}

  lemma {:induction false} LabelsOf(all: seq<Func>, e: IR, valued: bool, f: Frame, a: AIR)
    requires WellFormed(e, valued, all) && Analyze(e, f) == Some(a)
    ensures LabelsMatch(all, Labels(e), ALabels(a))
    decreases e, 1
  {
    hide LabelsMatch; hide LabelsAll; hide ALabelsAll; hide AnalyzeAll;
    match e
    case Apply(_, args) => LabelsOfAll(all, args, seq(|args|, _ => true), f, a.args);
    case Seq(es) =>
      LabelsOfAll(all, es, seq(|es|, i requires 0 <= i < |es| => valued && i == |es| - 1), f, a.es);
    case Goto(_, args) => LabelsOfAll(all, args, seq(|args|, _ => true), f, a.args);
    case ExitTo(_, args) => LabelsOfAll(all, args, seq(|args|, _ => true), f, a.args);
    case With(_, _, _) => LabelsOfBinder(all, e, valued, f, a);
    case Repeat(_, _, _, _, _) => LabelsOfBinder(all, e, valued, f, a);
    case Label(_, _, _) => LabelsOfBinder(all, e, valued, f, a);
    case If(_, _) => LabelsOfBranch(all, e, valued, f, a);
    case IfElse(_, _, _) => LabelsOfBranch(all, e, valued, f, a);
    case Set(_, val) => LabelsOf(all, val, true, f, a.val);
    case _ => MatchNone(all);
  }

  lemma {:induction false} LabelsOfBinder(all: seq<Func>, e: IR, valued: bool, f: Frame, a: AIR)
    requires e.With? || e.Repeat? || e.Label?
    requires WellFormed(e, valued, all) && Analyze(e, f) == Some(a)
    ensures LabelsMatch(all, Labels(e), ALabels(a))
    decreases e, 0
  {
    hide LabelsMatch; hide LabelsAll; hide ALabelsAll; hide AnalyzeAll;
    match e
    case With(x, val, body) =>
      LabelsOf(all, val, true, f, a.val);
      LabelsOf(all, body, valued, EnterOne(f, x), a.body);
      MatchAppend(all, Labels(val), ALabels(a.val), Labels(body), ALabels(a.body));
    case Repeat(x, s, r, _, b) =>
      LabelsOf(all, s, true, f, a.start);
      LabelsOf(all, r, true, f, a.rounds);
      LabelsOf(all, b, false, EnterOne(f, x), a.body);
      MatchAppendTwo(all, Labels(s), ALabels(a.start), Labels(r), ALabels(a.rounds), Labels(b), ALabels(a.body));
    case Label(l, ps, b) =>
      LabelsOf(all, b, false, Enter(EmptyFrame, ps), a.body);
      assert LabelMatches(all, Func(l, ps, b), a);
      MatchOne(all, Func(l, ps, b), a);
      MatchAppend(all, [Func(l, ps, b)], [a], Labels(b), ALabels(a.body));
  }

  lemma {:induction false} LabelsOfBranch(all: seq<Func>, e: IR, valued: bool, f: Frame, a: AIR)
    requires e.If? || e.IfElse?
    requires WellFormed(e, valued, all) && Analyze(e, f) == Some(a)
    ensures LabelsMatch(all, Labels(e), ALabels(a))
    decreases e, 0
  {
    hide LabelsMatch; hide LabelsAll; hide ALabelsAll; hide AnalyzeAll;
    match e
    case If(t, b) =>
      LabelsOf(all, t, true, f, a.test);
      LabelsOf(all, b, false, f, a.body);
      MatchAppend(all, Labels(t), ALabels(a.test), Labels(b), ALabels(a.body));
    case IfElse(t, b, o) =>
      LabelsOf(all, t, true, f, a.test);
      LabelsOf(all, b, valued, f, a.body);
      LabelsOf(all, o, valued, f, a.orelse);
      MatchAppendTwo(all, Labels(t), ALabels(a.test), Labels(b), ALabels(a.body), Labels(o), ALabels(a.orelse));
  }

  lemma {:induction false} LabelsOfAll(all: seq<Func>, es: seq<IR>, valued: seq<bool>, f: Frame, a: seq<AIR>)
    requires |valued| == |es| && forall i | 0 <= i < |es| :: WellFormed(es[i], valued[i], all)
    requires AnalyzeAll(es, f) == Some(a)
    ensures LabelsMatch(all, LabelsAll(es), ALabelsAll(a))
    decreases es, 2
  {
    if es != [] {
      LabelsOf(all, es[0], valued[0], f, a[0]);
      LabelsOfAll(all, es[1..], valued[1..], f, a[1..]);
      MatchAppend(all, Labels(es[0]), ALabels(a[0]), LabelsAll(es[1..]), ALabelsAll(a[1..]));
    }
  }

  lemma {:induction false} FuncsLinked(all: seq<Func>, fs: seq<Func>, ls: seq<AIR>, k: nat)
    requires LabelsMatch(all, fs, ls) && forall l :: l in ls ==> l.ALabel?
    ensures Linked(all, fs, CompileFuncs(ls, k))
  {
    if fs != [] {
      var c := Compile(ls[0].body, k, None, TNone);
      forall i | 0 <= i < |fs[1..]| ensures LabelMatches(all, fs[1..][i], ls[1..][i]) {
        assert LabelMatches(all, fs[i + 1], ls[i + 1]);
      }
      FuncsLinked(all, fs[1..], ls[1..], c.next);
      var ts := CompileFuncs(ls, k);
      assert LabelMatches(all, fs[0], ls[0]);
      assert CompiledAs(all, fs[0], ts[0], ls[0].body, k);
      forall i | 0 <= i < |fs| ensures FuncLinked(all, fs[i], ts[i]) {
        if i > 0 { assert FuncLinked(all, fs[1..][i - 1], CompileFuncs(ls[1..], c.next)[i - 1]); }
      }
    }
  }

  // ---- the main theorem -------------------------------------------------------------------

  /** Same outcome (returned and reverted data included) and same memory and storage. */
  ghost predicate SameRun(r: Res, t: TRes) {
    t.ctl == Erase(r.ctl) && WordCache.Flat(t.st.vm.mem) == r.world.mem && t.st.vm.storage == r.world.storage
  }

  /** The compiled subroutines are those of the source's labels. */
  lemma ProgramLinked(main: IR, a: AIR)
    requires WellFormed(main, false, Labels(main)) && Analyze(main, EmptyFrame) == Some(a)
    ensures CompileProgram(a).main == Compile(a, 0, None, TNone).stmts
    ensures Linked(Labels(main), Labels(main), CompileProgram(a).funcs)
  {
    hide Compile;
    var c := Compile(a, 0, None, TNone);
    LabelsOf(Labels(main), main, false, EmptyFrame, a);
    LabelsAreLabels(a);
    FuncsLinked(Labels(main), Labels(main), ALabels(a), c.next);
  }

  /** Running the emitted Python on `FastMem` is running the IR on the EVM, for every well-formed program,
      host, initial memory and storage and depth of calls, as long as each step meets its guard: the number
      `ceil32` rounds is at most 2**256 - 32, a word read is the aligned word around it, bytes returned lie
      in memory, a loop makes no more rounds than its bound and no index passes 2**256. */
  lemma CompilerCorrect(h: Host, main: IR, a: AIR, fuel: nat, stack: seq<Raw>, vm: T.Vm)
    requires WellFormed(main, false, Labels(main)) && Analyze(main, EmptyFrame) == Some(a)
    requires WordCache.Good(vm.mem)
    ensures var r, t := Run(h, fuel, main, View(vm)), Start(h, CompileProgram(a), fuel, stack, vm);
            r.world.exact ==>
              SameRun(r, t) && WordCache.Good(t.st.vm.mem) && (Live(r.ctl) ==> t.st.stack == stack)
  {
    hide WordCache.Good, WordCache.Flat, Eval, T.Exec, Compile, CompileProgram, Linked;
    ProgramLinked(main, a);
    CompileSim(h, Labels(main), CompileProgram(a).funcs, fuel, main, false, EmptyFrame, a, 0, None, TNone, map[], T.St(map[], stack, vm));
  }

  /** An expression compiled into a local delivers its word there, in the type that was asked for,
      and nothing in scope or shadowed is disturbed. */
  lemma ExpressionCorrect(h: Host, fs: seq<Func>, ts: TFuncs, fuel: nat, e: IR, f: Frame, a: AIR, k: nat, want: Ty, env: Env, st: TSt)
    requires WellFormed(e, true, fs) && Linked(fs, fs, ts) && k > 0
    requires Analyze(e, f) == Some(a) && FrameOk(f) && Rel(f, env, st.locals, None)
    requires WordCache.Good(st.vm.mem)
    ensures var r := Eval(h, fs, fuel, e, env, View(st.vm));
            var t := T.Exec(h, ts, fuel, Compile(a, k, Some(Temp(0)), want).stmts, st);
            r.ctl.Val? && r.world.exact ==>
              && t.ctl == Done && Seen(t.st.vm, r.world)
              && Temp(0) in t.st.locals && ToInt(t.st.locals[Temp(0)]) == r.ctl.w && HasType(t.st.locals[Temp(0)], want)
              && (forall x :: x in r.env ==>
                    x in f.slots && User(x, f.slots[x]) in t.st.locals && t.st.locals[User(x, f.slots[x])] == I(r.env[x]))
              && (forall x, s: nat :: User(x, s) in st.locals && s < f.current && !(x in f.slots && f.slots[x] == s) ==>
                    User(x, s) in t.st.locals && t.st.locals[User(x, s)] == st.locals[User(x, s)])
  {
    hide Eval; hide T.Exec; hide Compile; hide Analyze; hide WellFormed; hide WordCache.Good; hide WordCache.Flat;
    CompileSim(h, fs, ts, fuel, e, true, f, a, k, Some(Temp(0)), want, env, st);
    var t := T.Exec(h, ts, fuel, Compile(a, k, Some(Temp(0)), want).stmts, st);
    forall x, s: nat | User(x, s) in st.locals && s < f.current && !(x in f.slots && f.slots[x] == s)
      ensures Keeps(User(x, s), f, k)
    {}
  }

  // ---- acyclic call graphs ------------------------------------------------------------------

  /** Every call in `e` goes to a label of rank below `bound`. */
  ghost predicate CallsBelow(e: IR, rank: string -> nat, bound: nat)
    decreases e
  {
    match e
    case Apply(_, args) => forall i | 0 <= i < |args| :: CallsBelow(args[i], rank, bound)
    case With(_, val, body) => CallsBelow(val, rank, bound) && CallsBelow(body, rank, bound)
    case Set(_, val) => CallsBelow(val, rank, bound)
    case Seq(es) => forall i | 0 <= i < |es| :: CallsBelow(es[i], rank, bound)
    case If(t, b) => CallsBelow(t, rank, bound) && CallsBelow(b, rank, bound)
    case IfElse(t, b, o) => CallsBelow(t, rank, bound) && CallsBelow(b, rank, bound) && CallsBelow(o, rank, bound)
    case Repeat(_, s, r, _, b) => CallsBelow(s, rank, bound) && CallsBelow(r, rank, bound) && CallsBelow(b, rank, bound)
    case Goto(l, args) => rank(l) < bound && forall i | 0 <= i < |args| :: CallsBelow(args[i], rank, bound)
    case ExitTo(l, args) => rank(l) < bound && forall i | 0 <= i < |args| :: CallsBelow(args[i], rank, bound)
    case _ => true
  }

  /** Subroutines call only subroutines of lower rank. */
  ghost predicate Acyclic(fs: seq<Func>, rank: string -> nat) {
    forall f {:trigger CallsBelow(f.body, rank, rank(f.lbl))} :: f in fs ==> CallsBelow(f.body, rank, rank(f.lbl))
  }

  lemma {:induction false} FindIn(fs: seq<Func>, l: string)
    requires Find(fs, l).Found?
    ensures Find(fs, l).f in fs && Find(fs, l).f.lbl == l
  {
    if fs[0].lbl != l { FindIn(fs[1..], l); }
  }

  lemma OpEnds(h: Host, op: Op, a: seq<Word>, w: World)
    requires |a| == Arity(op)
    ensures ApplyOp(h, op, a, w).ctl != Timeout
  {}

  /** A depth above every rank is enough: an acyclic program never runs out of it. */
  lemma {:induction false} AcyclicTerminates(h: Host, fs: seq<Func>, rank: string -> nat, fuel: nat, e: IR, bound: nat, env: Env, w: World)
    requires Acyclic(fs, rank) && CallsBelow(e, rank, bound) && bound <= fuel
    ensures Eval(h, fs, fuel, e, env, w).ctl != Timeout
    decreases fuel, e, 0, 0
  {
    hide ApplyOp; hide EvalArgs; hide EvalSeq; hide EvalLoop; hide Call;
    match e
    case Apply(op, args) =>
      AcyclicOperands(h, fs, rank, fuel, args, bound, env, w);
      var a := EvalArgs(h, fs, fuel, args, env, w);
      if a.stop == Done && |args| == Arity(op) { OpEnds(h, op, a.vals, a.world); }
    case With(x, val, body) =>
      AcyclicTerminates(h, fs, rank, fuel, val, bound, env, w);
      var v := Eval(h, fs, fuel, val, env, w);
      if v.ctl.Val? { AcyclicTerminates(h, fs, rank, fuel, body, bound, v.env[x := v.ctl.w], v.world); }
    case Set(x, val) => AcyclicTerminates(h, fs, rank, fuel, val, bound, env, w);
    case Seq(es) => AcyclicSeq(h, fs, rank, fuel, es, bound, env, w);
    case If(t, b) =>
      AcyclicTerminates(h, fs, rank, fuel, t, bound, env, w);
      var v := Eval(h, fs, fuel, t, env, w);
      if v.ctl.Val? { AcyclicTerminates(h, fs, rank, fuel, b, bound, v.env, v.world); }
    case IfElse(t, b, o) =>
      AcyclicTerminates(h, fs, rank, fuel, t, bound, env, w);
      var v := Eval(h, fs, fuel, t, env, w);
      if v.ctl.Val? { AcyclicTerminates(h, fs, rank, fuel, if v.ctl.w != 0 then b else o, bound, v.env, v.world); }
    case Repeat(x, s, r, n, b) =>
      AcyclicTerminates(h, fs, rank, fuel, s, bound, env, w);
      var v := Eval(h, fs, fuel, s, env, w);
      if v.ctl.Val? {
        AcyclicTerminates(h, fs, rank, fuel, r, bound, v.env, v.world);
        var u := Eval(h, fs, fuel, r, v.env, v.world);
        if u.ctl.Val? {
          AcyclicLoop(h, fs, rank, fuel, x, v.ctl.w, u.ctl.w, b, bound, u.env, u.world);
        }
      }
    case Goto(l, args) => AcyclicCall(h, fs, rank, fuel, l, args, bound, env, w);
    case ExitTo(l, args) => AcyclicCall(h, fs, rank, fuel, l, args, bound, env, w);
    case _ =>
  }

  lemma {:induction false} AcyclicOperands(h: Host, fs: seq<Func>, rank: string -> nat, fuel: nat, args: seq<IR>, bound: nat, env: Env, w: World)
    requires Acyclic(fs, rank) && bound <= fuel && forall i | 0 <= i < |args| :: CallsBelow(args[i], rank, bound)
    ensures EvalArgs(h, fs, fuel, args, env, w).stop != Timeout
    decreases fuel, args, 0, 0
  {
    hide Eval; hide CallsBelow;
    if args != [] {
      var n := |args| - 1;
      AcyclicTerminates(h, fs, rank, fuel, args[n], bound, env, w);
      var v := Eval(h, fs, fuel, args[n], env, w);
      if v.ctl.Val? { AcyclicOperands(h, fs, rank, fuel, args[..n], bound, v.env, v.world); }
    }
  }

  lemma {:induction false} AcyclicSeq(h: Host, fs: seq<Func>, rank: string -> nat, fuel: nat, es: seq<IR>, bound: nat, env: Env, w: World)
    requires Acyclic(fs, rank) && bound <= fuel && forall i | 0 <= i < |es| :: CallsBelow(es[i], rank, bound)
    ensures EvalSeq(h, fs, fuel, es, env, w).ctl != Timeout
    decreases fuel, es, 0, 0
  {
    hide Eval; hide CallsBelow;
    if es != [] {
      AcyclicTerminates(h, fs, rank, fuel, es[0], bound, env, w);
      var r := Eval(h, fs, fuel, es[0], env, w);
      AcyclicSeq(h, fs, rank, fuel, es[1..], bound, r.env, r.world);
    }
  }

  lemma {:induction false} AcyclicLoop(h: Host, fs: seq<Func>, rank: string -> nat, fuel: nat, x: string, i: nat, n: nat, body: IR, bound: nat,
                                       env: Env, w: World)
    requires Acyclic(fs, rank) && bound <= fuel && CallsBelow(body, rank, bound)
    ensures EvalLoop(h, fs, fuel, x, i, n, body, env, w).ctl != Timeout
    decreases fuel, body, 1, n
  {
    hide Eval; hide CallsBelow;
    if n != 0 {
      AcyclicTerminates(h, fs, rank, fuel, body, bound, env[x := Wrap(i)], w.Under(i < TWO256));
      var b := Eval(h, fs, fuel, body, env[x := Wrap(i)], w.Under(i < TWO256));
      AcyclicLoop(h, fs, rank, fuel, x, i + 1, n - 1, body, bound, Restore(env, b.env, x), b.world);
    }
  }

  lemma {:induction false} AcyclicCall(h: Host, fs: seq<Func>, rank: string -> nat, fuel: nat, l: string, args: seq<IR>, bound: nat, env: Env, w: World)
    requires Acyclic(fs, rank) && rank(l) < bound <= fuel && forall i | 0 <= i < |args| :: CallsBelow(args[i], rank, bound)
    ensures Eval(h, fs, fuel, Goto(l, args), env, w).ctl != Timeout
    ensures Eval(h, fs, fuel, ExitTo(l, args), env, w).ctl != Timeout
    decreases fuel, args, 1, 0
  {
    AcyclicOperands(h, fs, rank, fuel, args, bound, env, w);
    var a := EvalArgs(h, fs, fuel, args, env, w);
    if a.stop == Done && Find(fs, l).Found? {
      FindIn(fs, l);
      var f := Find(fs, l).f;
      var ps := ValueParams(f.params);
      if |ps| == |a.vals| {
        AcyclicTerminates(h, fs, rank, fuel - 1, f.body, rank(l), Bind(ps, a.vals), a.world);
      }
    }
  }

  /** For an acyclic program the bound on calls disappears from the statement: with enough depth
      neither side is cut short and the two runs agree. */
  lemma AcyclicCorrect(h: Host, main: IR, a: AIR, rank: string -> nat, fuel: nat, stack: seq<Raw>, vm: T.Vm)
    requires WellFormed(main, false, Labels(main)) && Analyze(main, EmptyFrame) == Some(a)
    requires Acyclic(Labels(main), rank) && CallsBelow(main, rank, fuel) && WordCache.Good(vm.mem)
    ensures var r, t := Run(h, fuel, main, View(vm)), Start(h, CompileProgram(a), fuel, stack, vm);
            r.ctl != Timeout && (r.world.exact ==> SameRun(r, t) && t.ctl != Timeout)
  {
    hide Eval; hide T.Exec; hide Compile; hide Analyze; hide WordCache.Good; hide WordCache.Flat;
    AcyclicTerminates(h, Labels(main), rank, fuel, main, fuel, map[], View(vm));
    CompilerCorrect(h, main, a, fuel, stack, vm);
  }
}
