/** Programs whose text alone shows that every guard is met: for them the compiled run is the EVM's without
    any condition on the run. */
module GuardedPrograms {
  import opened Wrappers
  import opened Words
  import opened Machine
  import opened SourceIR
  import T = PythonTarget
  import opened Compiler
  import opened OperationProof
  import opened CompilerProof
  import opened CompilerTheorem
  import opened Scopes
  import FlatMemory
  import WordCache

  /** Words are read at aligned literal addresses, literals are rounded up, `return` and `revert` hand out
      nothing, copies have a positive literal size, and no opcode touches memory behind the templates. */
  predicate GuardedOp(op: Op, args: seq<IR>) {
    match op
    case MLoad => |args| == 1 && args[0].Int? && Wrap(args[0].n) % 32 == 0
    case CeilTo32 => |args| == 1 && args[0].Int? && Wrap(args[0].n) <= TWO256 - 32
    case ReturnOp => |args| == 2 && args[0].Int? && Wrap(args[0].n) % 32 == 0 && args[1] == Int(0)
    case RevertOp => |args| == 2 && args[0].Int? && Wrap(args[0].n) % 32 == 0 && args[1] == Int(0)
    case CalldataCopy => |args| == 3 && args[2].Int? && Wrap(args[2].n) > 0
    case Opcode(_, _, _) => false
    case _ => true
  }

  /** Loops over literal ranges of words, within their bound. */
  predicate GuardedRange(start: IR, rounds: IR, bound: nat) {
    && start.Int? && rounds.Int? && Wrap(rounds.n) <= bound
    && (Wrap(rounds.n) == 0 || Wrap(start.n) + Wrap(rounds.n) <= TWO256)
  }

  predicate Guarded(e: IR)
    decreases e
  {
    match e
    case Apply(op, args) => GuardedOp(op, args) && AllGuarded(args)
    case With(_, val, body) => Guarded(val) && Guarded(body)
    case Set(_, val) => Guarded(val)
    case Seq(es) => AllGuarded(es)
    case If(t, b) => Guarded(t) && Guarded(b)
    case IfElse(t, b, o) => Guarded(t) && Guarded(b) && Guarded(o)
    case Repeat(_, s, r, bound, b) => GuardedRange(s, r, bound) && Guarded(b)
    case Goto(_, args) => AllGuarded(args)
    case ExitTo(_, args) => AllGuarded(args)
    case _ => true
  }

  predicate AllGuarded(es: seq<IR>)
    decreases es
  {
    forall i | 0 <= i < |es| :: Guarded(es[i])
  }

  ghost predicate GuardedFuncs(fs: seq<Func>) {
    forall f {:trigger Guarded(f.body)} :: f in fs ==> Guarded(f.body)
  }

  /** Literal operands have their own words as values. */
  ghost predicate Literals(args: seq<IR>, ws: seq<Word>) {
    |ws| == |args| && forall i :: 0 <= i < |args| && args[i].Int? ==> ws[i] == Wrap(args[i].n)
  }

  lemma {:induction false} ArgsLiteral(h: Host, fs: seq<Func>, fuel: nat, args: seq<IR>, env: Env, w: World)
    ensures var r := EvalArgs(h, fs, fuel, args, env, w); r.stop == Done ==> Literals(args, r.vals)
    decreases |args|
  {
    if args != [] {
      var n := |args| - 1;
      var v := Eval(h, fs, fuel, args[n], env, w);
      if v.ctl.Val? { ArgsLiteral(h, fs, fuel, args[..n], v.env, v.world); }
    }
  }

  lemma OpExact(h: Host, op: Op, args: seq<IR>, ws: seq<Word>, w: World)
    requires GuardedOp(op, args) && Literals(args, ws) && |ws| == Arity(op) && w.exact
    ensures ApplyOp(h, op, ws, w).world.exact
  {
    hide FlatMemory.Extend, FlatMemory.ReadWord, FlatMemory.WriteWord, CalldataBytes;
  }

  /** Nothing such a program does ever fails a guard. */
  lemma {:induction false} GuardedExact(h: Host, fs: seq<Func>, fuel: nat, e: IR, env: Env, w: World)
    requires Guarded(e) && GuardedFuncs(fs) && w.exact
    ensures Eval(h, fs, fuel, e, env, w).world.exact
    decreases fuel, e, 0, 0
  {
    hide ApplyOp, EvalArgs, EvalSeq, EvalLoop, Call, GuardedFuncs, AllGuarded, GuardedOp;
    match e
    case Apply(op, args) =>
      GuardedOperands(h, fs, fuel, args, env, w);
      ArgsLiteral(h, fs, fuel, args, env, w);
      var a := EvalArgs(h, fs, fuel, args, env, w);
      if a.stop == Done && |args| == Arity(op) { OpExact(h, op, args, a.vals, a.world); }
    case With(x, val, body) =>
      GuardedExact(h, fs, fuel, val, env, w);
      var v := Eval(h, fs, fuel, val, env, w);
      if v.ctl.Val? { GuardedExact(h, fs, fuel, body, v.env[x := v.ctl.w], v.world); }
    case Set(x, val) => GuardedExact(h, fs, fuel, val, env, w);
    case Seq(es) => GuardedBlock(h, fs, fuel, es, env, w);
    case If(t, b) =>
      GuardedExact(h, fs, fuel, t, env, w);
      var v := Eval(h, fs, fuel, t, env, w);
      if v.ctl.Val? { GuardedExact(h, fs, fuel, b, v.env, v.world); }
    case IfElse(t, b, o) =>
      GuardedExact(h, fs, fuel, t, env, w);
      var v := Eval(h, fs, fuel, t, env, w);
      if v.ctl.Val? { GuardedExact(h, fs, fuel, if v.ctl.w != 0 then b else o, v.env, v.world); }
    case Repeat(x, s, r, bound, b) =>
      var v := Eval(h, fs, fuel, s, env, w);
      var u := Eval(h, fs, fuel, r, v.env, v.world);
      assert v == Res(Val(Wrap(s.n)), env, w) && u == Res(Val(Wrap(r.n)), env, w);
      GuardedLoop(h, fs, fuel, x, v.ctl.w, u.ctl.w, b, env, w);
    case Goto(l, args) => GuardedCall(h, fs, fuel, l, args, env, w);
    case ExitTo(l, args) => GuardedCall(h, fs, fuel, l, args, env, w);
    case _ =>
  }

  lemma {:induction false} GuardedOperands(h: Host, fs: seq<Func>, fuel: nat, args: seq<IR>, env: Env, w: World)
    requires AllGuarded(args) && GuardedFuncs(fs) && w.exact
    ensures EvalArgs(h, fs, fuel, args, env, w).world.exact
    decreases fuel, args, 0, 0
  {
    hide Eval, Guarded, GuardedFuncs;
    if args != [] {
      var n := |args| - 1;
      GuardedExact(h, fs, fuel, args[n], env, w);
      var v := Eval(h, fs, fuel, args[n], env, w);
      if v.ctl.Val? { GuardedOperands(h, fs, fuel, args[..n], v.env, v.world); }
    }
  }

  lemma {:induction false} GuardedBlock(h: Host, fs: seq<Func>, fuel: nat, es: seq<IR>, env: Env, w: World)
    requires AllGuarded(es) && GuardedFuncs(fs) && w.exact
    ensures EvalSeq(h, fs, fuel, es, env, w).world.exact
    decreases fuel, es, 0, 0
  {
    hide Eval, Guarded, GuardedFuncs;
    if es != [] {
      GuardedExact(h, fs, fuel, es[0], env, w);
      var r := Eval(h, fs, fuel, es[0], env, w);
      if r.ctl.Val? || r.ctl.Done? { GuardedBlock(h, fs, fuel, es[1..], r.env, r.world); }
    }
  }

  lemma {:induction false} GuardedLoop(h: Host, fs: seq<Func>, fuel: nat, x: string, i: nat, n: nat, body: IR, env: Env, w: World)
    requires Guarded(body) && GuardedFuncs(fs) && w.exact && (n == 0 || i + n <= TWO256)
    ensures EvalLoop(h, fs, fuel, x, i, n, body, env, w).world.exact
    decreases fuel, body, 1, n
  {
    hide Eval, Guarded, GuardedFuncs;
    if n != 0 {
      GuardedExact(h, fs, fuel, body, env[x := Wrap(i)], w);
      assert w.Under(true) == w;
      var b := Eval(h, fs, fuel, body, env[x := Wrap(i)], w);
      GuardedLoop(h, fs, fuel, x, i + 1, n - 1, body, Restore(env, b.env, x), b.world);
    }
  }

  lemma {:induction false} GuardedCall(h: Host, fs: seq<Func>, fuel: nat, l: string, args: seq<IR>, env: Env, w: World)
    requires AllGuarded(args) && GuardedFuncs(fs) && w.exact
    ensures Eval(h, fs, fuel, Goto(l, args), env, w).world.exact
    ensures Eval(h, fs, fuel, ExitTo(l, args), env, w).world.exact
    decreases fuel, args, 1, 0
  {
    hide EvalArgs, AllGuarded, Guarded;
    GuardedOperands(h, fs, fuel, args, env, w);
    var a := EvalArgs(h, fs, fuel, args, env, w);
    if a.stop == Done && fuel > 0 && Find(fs, l).Found? {
      FindIn(fs, l);
      var f := Find(fs, l).f;
      var ps := ValueParams(f.params);
      if |ps| == |a.vals| {
        GuardedExact(h, fs, fuel - 1, f.body, Bind(ps, a.vals), a.world);
      }
    }
  }

  /** The compiled run of such a program is the EVM's, on a new `FastMem` or any coherent one. */
  lemma GuardedCorrect(h: Host, main: IR, a: AIR, fuel: nat, stack: seq<Raw>, vm: T.Vm)
    requires WellFormed(main, false, Labels(main)) && Analyze(main, EmptyFrame) == Some(a)
    requires Guarded(main) && GuardedFuncs(Labels(main)) && WordCache.Good(vm.mem)
    ensures var r, t := Run(h, fuel, main, View(vm)), Start(h, CompileProgram(a), fuel, stack, vm);
      SameRun(r, t) && WordCache.Good(t.st.vm.mem) && (Live(r.ctl) ==> t.st.stack == stack)
  {
    hide Eval, T.Exec, Compile, Analyze, WellFormed, WordCache.Good, WordCache.Flat, CompileProgram, Guarded;
    GuardedExact(h, Labels(main), fuel, main, map[], View(vm));
    CompilerCorrect(h, main, a, fuel, stack, vm);
  }
}
