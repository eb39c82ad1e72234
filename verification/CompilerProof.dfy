/** Semantic preservation: the emitted Python computes what the IR means. */
module CompilerProof {
  import opened Wrappers
  import opened Words
  import opened Machine
  import opened SourceIR
  import T = PythonTarget
  import opened Compiler
  import opened OperationProof
  import opened Scopes
  import WordCache

  type TSt = T.St<TVar>
  type TRes = T.TRes<TVar>
  type TFuncs = seq<T.TFunc<TVar>>

  // ---- well-formed IR ---------------------------------------------------------------

  /** What the executor asserts about the IR it is given: each operation has its number of
      operands, a value is only asked of a node that has one, calls fit their labels, and
      `return_pc` is not used as a variable. A loop does not set its own index. */
  ghost predicate WellFormed(e: IR, valued: bool, fs: seq<Func>)
    decreases e
  {
    match e
    case Int(_) => true
    case Var(x) => x != RETURN_PC
    case Apply(op, args) =>
      && |args| == Arity(op)
      && (valued ==> Produces(op))
      && (forall i {:trigger WellFormed(args[i], true, fs)} | 0 <= i < |args| :: WellFormed(args[i], true, fs))
    case With(x, val, body) => x != RETURN_PC && WellFormed(val, true, fs) && WellFormed(body, valued, fs)
    case Set(x, val) => !valued && x != RETURN_PC && WellFormed(val, true, fs)
    case Seq(es) =>
      && (es == [] ==> !valued)
      && (forall i | 0 <= i < |es| :: WellFormed(es[i], valued && i == |es| - 1, fs))
    case If(t, b) => !valued && WellFormed(t, true, fs) && WellFormed(b, false, fs)
    case IfElse(t, b, o) => WellFormed(t, true, fs) && WellFormed(b, valued, fs) && WellFormed(o, valued, fs)
    case Repeat(x, s, r, _, b) =>
      !valued && x != RETURN_PC && !Assigns(b, x) && WellFormed(s, true, fs) && WellFormed(r, true, fs) && WellFormed(b, false, fs)
    case Goto(l, args) => !valued && CallFits(l, args, fs) && (forall i {:trigger WellFormed(args[i], true, fs)} | 0 <= i < |args| :: WellFormed(args[i], true, fs))
    case ExitTo(l, args) => !valued && CallFits(l, args, fs) && (forall i {:trigger WellFormed(args[i], true, fs)} | 0 <= i < |args| :: WellFormed(args[i], true, fs))
    case ExitToReturnPc => !valued
    case Label(_, _, b) => !valued && WellFormed(b, false, fs)
  }

  /** The code sets this binding of `x`. */
  predicate Assigns(e: IR, x: string)
    decreases e
  {
    match e
    case Apply(_, args) => exists i | 0 <= i < |args| :: Assigns(args[i], x)
    case With(y, val, body) => Assigns(val, x) || (y != x && Assigns(body, x))
    case Set(y, val) => y == x || Assigns(val, x)
    case Seq(es) => exists i | 0 <= i < |es| :: Assigns(es[i], x)
    case If(t, b) => Assigns(t, x) || Assigns(b, x)
    case IfElse(t, b, o) => Assigns(t, x) || Assigns(b, x) || Assigns(o, x)
    case Repeat(y, s, r, _, b) => Assigns(s, x) || Assigns(r, x) || (y != x && Assigns(b, x))
    case Goto(_, args) => exists i | 0 <= i < |args| :: Assigns(args[i], x)
    case ExitTo(_, args) => exists i | 0 <= i < |args| :: Assigns(args[i], x)
    case _ => false
  }

  predicate CallFits(l: string, args: seq<IR>, fs: seq<Func>) {
    Find(fs, l).Found? && |ValueParams(Find(fs, l).f.params)| == |args|
  }

  // ---- compiled subroutines ----------------------------------------------------------

  ghost predicate CompiledAs(all: seq<Func>, f: Func, t: T.TFunc<TVar>, a: AIR, k: nat) {
    var frame := Enter(EmptyFrame, f.params);
    && WellFormed(f.body, false, all)
    && Analyze(f.body, frame) == Some(a)
    && ParamVars(frame, f.params) == Some(t.params)
    && t.code == Compile(a, k, None, TNone).stmts
  }

  ghost predicate FuncLinked(all: seq<Func>, f: Func, t: T.TFunc<TVar>) {
    f.lbl == t.lbl && exists a, k :: CompiledAs(all, f, t, a, k)
  }

  ghost predicate Linked(all: seq<Func>, fs: seq<Func>, ts: TFuncs) {
    |fs| == |ts| && forall i {:trigger FuncLinked(all, fs[i], ts[i])} :: 0 <= i < |fs| ==> FuncLinked(all, fs[i], ts[i])
  }

  lemma {:induction false} FindLinked(all: seq<Func>, fs: seq<Func>, ts: TFuncs, l: string)
    requires Linked(all, fs, ts) && Find(fs, l).Found?
    ensures T.Find(ts, l).Found? && FuncLinked(all, Find(fs, l).f, T.Find(ts, l).f)
  {
    assert FuncLinked(all, fs[0], ts[0]);
    if fs[0].lbl != l { FindLinked(all, fs[1..], ts[1..], l); }
  }

  // ---- the simulation relation -------------------------------------------------------

  /** Every name in scope has its word in its own Python local, except possibly `skip`. */
  ghost predicate Rel(f: Frame, env: Env, locals: map<TVar, Raw>, skip: Option<TVar>) {
    && env.Keys == f.slots.Keys - {RETURN_PC}
    && forall x :: x in env && Some(User(x, f.slots[x])) != skip ==>
         User(x, f.slots[x]) in locals && locals[User(x, f.slots[x])] == I(env[x])
  }

  /** Locals that code compiled under frame `f` with temporaries from `k` on never writes:
      older temporaries, and shadowed bindings (a lower slot that the frame no longer shows). */
  predicate Keeps(v: TVar, f: Frame, k: nat) {
    match v
    case Temp(id) => id < k
    case User(y, t) => t < f.current && !(y in f.slots && f.slots[y] == t)
    case Scratch(_) => false
  }

  ghost predicate Kept(f: Frame, k: nat, l: map<TVar, Raw>, l': map<TVar, Raw>, skip: Option<TVar>) {
    forall v :: v in l && Keeps(v, f, k) && Some(v) != skip ==> v in l' && l'[v] == l[v]
  }

  ghost predicate Sim(f: Frame, k: nat, have: Ty, out: Option<TVar>, want: Ty, st: TSt, r: Res, t: TRes) {
    && t.ctl == Erase(r.ctl)
    && Seen(t.st.vm, r.world)
    && (Live(r.ctl) ==>
          var skip := if r.ctl.Val? then out else None;
          && t.st.stack == st.stack
          && Rel(f, r.env, t.st.locals, skip)
          && Kept(f, k, st.locals, t.st.locals, skip))
    && (r.ctl.Val? && out.Some? ==> Holds(t.st.locals, out.value, r.ctl.w, want, have))
  }

  ghost predicate ArgsSim(f: Frame, base: nat, k: nat, args: seq<AIR>, wants: seq<Ty>, st: TSt, r: ArgsRes, t: TRes)
    requires |wants| == |args|
  {
    && t.ctl == r.stop
    && Seen(t.st.vm, r.world)
    && (Live(r.stop) ==>
          && t.st.stack == st.stack
          && Rel(f, r.env, t.st.locals, None)
          && (forall v :: v in st.locals && Keeps(v, f, k) && !(v.Temp? && base <= v.id < base + |args|) ==>
                v in t.st.locals && t.st.locals[v] == st.locals[v]))
    && (r.stop == Done ==> |r.vals| == |args| && OperandsHold(t.st.locals, Temps(base, |args|), args, r.vals, wants))
  }

  // ---- small facts about analysis and code generation ---------------------------------

  lemma {:induction false} AnalyzeAllAt(es: seq<IR>, f: Frame, r: seq<AIR>, i: nat)
    requires AnalyzeAll(es, f) == Some(r) && i < |es|
    ensures Analyze(es[i], f) == Some(r[i])
  {
    if i > 0 { AnalyzeAllAt(es[1..], f, r[1..], i - 1); }
  }

  lemma {:induction false} AnalyzeAllPrefix(es: seq<IR>, f: Frame, r: seq<AIR>, n: nat)
    requires AnalyzeAll(es, f) == Some(r) && n <= |es|
    ensures AnalyzeAll(es[..n], f) == Some(r[..n])
  {
    if n > 0 {
      AnalyzeAllPrefix(es[1..], f, r[1..], n - 1);
      assert es[..n][1..] == es[1..][..n - 1];
      assert r[..n] == [r[0]] + r[1..][..n - 1];
    }
  }

  lemma {:induction false} NextMonotone(a: AIR, k: nat, out: Option<TVar>, want: Ty)
    ensures Compile(a, k, out, want).next >= k
    decreases a, 0
  {
    hide CompileArgs; hide CompileSeq; hide Emit; hide Deliver;
    match a
    case AApply(op, args) => NextMonotoneArgs(args, k, OperandTypes(op, |args|), k + |args|);
    case AWith(x, s, val, body) =>
      NextMonotone(val, k, Some(User(x, s)), TInt);
      NextMonotone(body, Compile(val, k, Some(User(x, s)), TInt).next, out, want);
    case ASet(x, s, val) => NextMonotone(val, k, Some(User(x, s)), TInt);
    case ASeq(es) => if es != [] { NextMonotoneSeq(es, k, out, want); }
    case AIf(test, body) =>
      NextMonotone(test, k + 1, Some(Temp(k)), TInt);
      NextMonotone(body, Compile(test, k + 1, Some(Temp(k)), TInt).next, out, want);
    case AIfElse(test, body, orelse) =>
      NextMonotone(test, k + 1, Some(Temp(k)), TInt);
      var t := Compile(test, k + 1, Some(Temp(k)), TInt);
      NextMonotone(body, t.next, out, want);
      NextMonotone(orelse, Compile(body, t.next, out, want).next, out, want);
    case ARepeat(x, s, start, rounds, bound, body) =>
      NextMonotone(start, k + 2, Some(Temp(k)), TInt);
      var c := Compile(start, k + 2, Some(Temp(k)), TInt);
      NextMonotone(rounds, c.next, Some(Temp(k + 1)), TInt);
      NextMonotone(body, Compile(rounds, c.next, Some(Temp(k + 1)), TInt).next, None, TNone);
    case AGoto(l, args) => NextMonotoneArgs(args, k, AllInts(|args|), k + |args|);
    case AExitTo(l, args) => NextMonotoneArgs(args, k, AllInts(|args|), k + |args|);
    case _ =>
  }

  lemma {:induction false} NextMonotoneArgs(args: seq<AIR>, base: nat, wants: seq<Ty>, k: nat)
    requires |wants| == |args|
    ensures CompileArgs(args, base, wants, k).next >= k
    decreases args, 1
  {
    if args != [] {
      var n := |args| - 1;
      NextMonotone(args[n], k, Some(Temp(base + n)), wants[n]);
      NextMonotoneArgs(args[..n], base, wants[..n], Compile(args[n], k, Some(Temp(base + n)), wants[n]).next);
    }
  }

  lemma {:induction false} NextMonotoneSeq(es: seq<AIR>, k: nat, out: Option<TVar>, want: Ty)
    requires es != []
    ensures CompileSeq(es, k, out, want).next >= k
    decreases es, 1
  {
    if |es| == 1 {
      NextMonotone(es[0], k, out, want);
    } else {
      NextMonotone(es[0], k, None, TNone);
      NextMonotoneSeq(es[1..], Compile(es[0], k, None, TNone).next, out, want);
    }
  }

  lemma ExecNil(h: Host, ts: TFuncs, fuel: nat, st: TSt)
    ensures T.Exec(h, ts, fuel, [], st) == T.TRes(Done, st)
  {}

  // ---- the simulation, one construct at a time ----------------------------------------

  lemma {:induction false} CompileSim(h: Host, fs: seq<Func>, ts: TFuncs, fuel: nat, e: IR, valued: bool, f: Frame, a: AIR,
                                      k: nat, out: Option<TVar>, want: Ty, env: Env, st: TSt)
    requires WellFormed(e, valued, fs) && Linked(fs, fs, ts) && (out.Some? ==> valued)
    requires Analyze(e, f) == Some(a) && FrameOk(f) && Rel(f, env, st.locals, None)
    requires WordCache.Good(st.vm.mem)
    ensures var r := Eval(h, fs, fuel, e, env, View(st.vm));
            r.world.exact ==>
              && Sim(f, k, TypeOf(a), out, want, st, r, T.Exec(h, ts, fuel, Compile(a, k, out, want).stmts, st))
              && (valued ==> r.ctl != Done)
    decreases fuel, e, 2, 0
  {
    hide WordCache.Good, WordCache.Flat;
    hide Eval; hide T.Exec; hide Compile; hide Analyze; hide WellFormed; hide TypeOf;
    match e
    case Apply(op, args) => OperationSim(h, fs, ts, fuel, e, valued, f, a, k, out, want, env, st);
    case With(_, _, _) => WithSim(h, fs, ts, fuel, e, valued, f, a, k, out, want, env, st);
    case Set(_, _) => SetSim(h, fs, ts, fuel, e, valued, f, a, k, out, want, env, st);
    case Seq(_) => BlockSim(h, fs, ts, fuel, e, valued, f, a, k, out, want, env, st);
    case If(_, _) => IfSim(h, fs, ts, fuel, e, valued, f, a, k, out, want, env, st);
    case IfElse(_, _, _) => IfElseSim(h, fs, ts, fuel, e, valued, f, a, k, out, want, env, st);
    case Repeat(_, _, _, _, _) => RepeatSim(h, fs, ts, fuel, e, valued, f, a, k, out, want, env, st);
    case Goto(_, _) => GotoSim(h, fs, ts, fuel, e, valued, f, a, k, out, want, env, st);
    case ExitTo(_, _) => GotoSim(h, fs, ts, fuel, e, valued, f, a, k, out, want, env, st);
    case _ => LeafSim(h, fs, ts, fuel, e, valued, f, a, k, out, want, env, st);
  }

  lemma ValueSim(h: Host, ts: TFuncs, fuel: nat, f: Frame, k: nat, x: T.Expr<TVar>, w: Word, out: Option<TVar>, want: Ty, env: Env, st: TSt)
    requires Rel(f, env, st.locals, None)
    requires Yields(h, x, st, w, TInt, st.stack, View(st.vm))
    requires WordCache.Good(st.vm.mem)
    ensures Sim(f, k, TInt, out, want, st, Res(Val(w), env, View(st.vm)), T.Exec(h, ts, fuel, Deliver(Some(x), TInt, out, want), st))
  {
    hide WordCache.Good, WordCache.Flat;
    hide T.Exec;
    DeliverExec(h, ts, fuel, x, st, w, TInt, out, want, st.stack, View(st.vm));
  }

  lemma ConstantUnfolds(h: Host, fs: seq<Func>, fuel: nat, n: int, f: Frame, a: AIR, k: nat, out: Option<TVar>, want: Ty, env: Env, w: World)
    requires Analyze(Int(n), f) == Some(a)
    ensures Eval(h, fs, fuel, Int(n), env, w) == Res(Val(Wrap(n)), env, w) && TypeOf(a) == TInt
    ensures Compile(a, k, out, want).stmts == Deliver(Some(T.Lit(Wrap(n))), TInt, out, want)
  {
    hide Deliver;
  }

  lemma UseUnfolds(h: Host, fs: seq<Func>, fuel: nat, x: string, f: Frame, a: AIR, k: nat, out: Option<TVar>, want: Ty, env: Env, w: World)
    requires Analyze(Var(x), f) == Some(a)
    ensures Eval(h, fs, fuel, Var(x), env, w) == Res(if x in env then Val(env[x]) else Fault(Unbound), env, w)
    ensures x in f.slots && TypeOf(a) == TInt
    ensures Compile(a, k, out, want).stmts == Deliver(Some(T.Name(User(x, f.slots[x]))), TInt, out, want)
  {
    hide Deliver;
  }

  lemma NoStatementUnfolds(h: Host, fs: seq<Func>, fuel: nat, e: IR, valued: bool, f: Frame, a: AIR, k: nat, out: Option<TVar>, want: Ty, env: Env, w: World)
    requires (e.ExitToReturnPc? || e.Label?) && WellFormed(e, valued, fs) && Analyze(e, f) == Some(a)
    ensures Eval(h, fs, fuel, e, env, w) == Res(if e.Label? then Done else Ret, env, w) && !valued && TypeOf(a) == TNone
    ensures Compile(a, k, out, want).stmts == if e.Label? then [] else [T.ReturnNone]
  {
    hide AnalyzeAll; hide CompileArgs; hide CompileSeq; hide EvalArgs;
  }

  lemma LeafSim(h: Host, fs: seq<Func>, ts: TFuncs, fuel: nat, e: IR, valued: bool, f: Frame, a: AIR,
      k: nat, out: Option<TVar>, want: Ty, env: Env, st: TSt)
    requires e.Int? || e.Var? || e.ExitToReturnPc? || e.Label?
    requires WellFormed(e, valued, fs) && Linked(fs, fs, ts) && (out.Some? ==> valued)
    requires Analyze(e, f) == Some(a) && FrameOk(f) && Rel(f, env, st.locals, None)
    requires WordCache.Good(st.vm.mem)
    ensures var r := Eval(h, fs, fuel, e, env, View(st.vm));
            r.world.exact ==>
              && Sim(f, k, TypeOf(a), out, want, st, r, T.Exec(h, ts, fuel, Compile(a, k, out, want).stmts, st))
              && (valued ==> r.ctl != Done)
  {
    hide WordCache.Good, WordCache.Flat;
    hide T.Exec; hide Eval; hide Compile; hide Analyze; hide TypeOf; hide Deliver;
    match e
    case Int(n) =>
      ConstantUnfolds(h, fs, fuel, n, f, a, k, out, want, env, View(st.vm));
      ValueSim(h, ts, fuel, f, k, T.Lit(Wrap(n)), Wrap(n), out, want, env, st);
    case Var(x) =>
      UseUnfolds(h, fs, fuel, x, f, a, k, out, want, env, View(st.vm));
      ValueSim(h, ts, fuel, f, k, T.Name(User(x, f.slots[x])), env[x], out, want, env, st);
    case ExitToReturnPc =>
      NoStatementUnfolds(h, fs, fuel, e, valued, f, a, k, out, want, env, View(st.vm));
      ExecOne(h, ts, fuel, T.ReturnNone, st);
    case Label(_, _, _) =>
      NoStatementUnfolds(h, fs, fuel, e, valued, f, a, k, out, want, env, View(st.vm));
      ExecNil(h, ts, fuel, st);
  }

  lemma {:induction false} BlockSim(h: Host, fs: seq<Func>, ts: TFuncs, fuel: nat, e: IR, valued: bool, f: Frame, a: AIR,
      k: nat, out: Option<TVar>, want: Ty, env: Env, st: TSt)
    requires e.Seq?
    requires WellFormed(e, valued, fs) && Linked(fs, fs, ts) && (out.Some? ==> valued)
    requires Analyze(e, f) == Some(a) && FrameOk(f) && Rel(f, env, st.locals, None)
    requires WordCache.Good(st.vm.mem)
    ensures var r := Eval(h, fs, fuel, e, env, View(st.vm));
            r.world.exact ==>
              && Sim(f, k, TypeOf(a), out, want, st, r, T.Exec(h, ts, fuel, Compile(a, k, out, want).stmts, st))
              && (valued ==> r.ctl != Done)
    decreases fuel, e, 0, 0
  {
    hide WordCache.Good, WordCache.Flat;
    hide CompileSeq; hide AnalyzeAll;
    if e.es == [] {
      ExecOne(h, ts, fuel, T.PassStmt, st);
    } else {
      SeqSim(h, fs, ts, fuel, e.es, valued, f, a.es, k, out, want, env, st);
    }
  }

  /** Where code without an `out`, or with a temporary as `out`, leaves the state for the code after it. */
  lemma Continues(f: Frame, k: nat, have: Ty, out: Option<TVar>, want: Ty, st: TSt, r: Res, t: TRes)
    requires Live(r.ctl) && (out.None? || out.value.Temp?) && Sim(f, k, have, out, want, st, r, t)
    ensures t.ctl == Erase(r.ctl) && Seen(t.st.vm, r.world) && Rel(f, r.env, t.st.locals, None)
  {
    hide WordCache.Good, WordCache.Flat;
  }

  /** A part that ends without a value ends the whole construct. */
  lemma Stops(f: Frame, k: nat, k': nat, have': Ty, have: Ty, out': Option<TVar>, want': Ty, out: Option<TVar>, want: Ty, st: TSt, v: Res, t: TRes)
    requires k <= k' && !v.ctl.Val? && v.ctl != Done && Sim(f, k', have', out', want', st, v, t)
    ensures t.ctl == v.ctl && Sim(f, k, have, out, want, st, v, t)
  {
    hide WordCache.Good, WordCache.Flat;
  }

  lemma DeliveredSim(f: Frame, k: nat, args: seq<AIR>, wants: seq<Ty>, have: Ty, out: Option<TVar>, want: Ty, st: TSt,
                     ar: ArgsRes, t1: TRes, p: OpRes, t2: TRes)
    requires |wants| == |args| && ar.stop == Done && ArgsSim(f, k, k + |args|, args, wants, st, ar, t1)
    requires p.world.exact && Delivered(p.ctl, p.world, t1.st, t2, out, want, have)
    ensures Sim(f, k, have, out, want, st, Res(p.ctl, ar.env, p.world), t2)
  {
    hide WordCache.Good, WordCache.Flat;
  }

  /** The operation itself, seen from before its operands. */
  lemma AfterOperands(h: Host, ts: TFuncs, fuel: nat, op: Op, args: seq<AIR>, f: Frame, k: nat, out: Option<TVar>, want: Ty, st: TSt,
                      ar: ArgsRes, t1: TRes, have: Ty, tail: seq<T.Stmt<TVar>>)
    requires |args| == Arity(op) && ar.stop == Done
    requires ArgsSim(f, k, k + |args|, args, OperandTypes(op, |args|), st, ar, t1)
    requires have == TypeOf(AApply(op, args))
    requires var m := Emit(op, Temps(k, |args|)); tail == m.stmts + Deliver(m.res, have, out, want)
    ensures t1.ctl == Done
    ensures var p := ApplyOp(h, op, ar.vals, ar.world);
            p.world.exact ==>
              Sim(f, k, have, out, want, st, Res(p.ctl, ar.env, p.world), T.Exec(h, ts, fuel, tail, t1.st))
  {
    hide WordCache.Good, WordCache.Flat;
    var p := ApplyOp(h, op, ar.vals, ar.world);
    if p.world.exact {
      ApplySim(h, ts, fuel, op, args, ar.vals, Temps(k, |args|), t1.st, out, want);
      DeliveredSim(f, k, args, OperandTypes(op, |args|), have, out, want, st, ar, t1, p, T.Exec(h, ts, fuel, tail, t1.st));
    }
  }

  /** An operand without a value ends the whole operation. */
  lemma OperandStops(f: Frame, k: nat, args: seq<AIR>, wants: seq<Ty>, have: Ty, out: Option<TVar>, want: Ty, st: TSt,
                     ar: ArgsRes, t1: TRes)
    requires |wants| == |args| && ar.stop != Done && !ar.stop.Val? && ArgsSim(f, k, k + |args|, args, wants, st, ar, t1)
    ensures t1.ctl != Done && Sim(f, k, have, out, want, st, Res(ar.stop, ar.env, ar.world), t1)
  {
    hide WordCache.Good, WordCache.Flat;
  }

  /** What an application means, is made of and compiles to. */
  lemma ApplyUnfolds(h: Host, fs: seq<Func>, fuel: nat, e: IR, valued: bool, f: Frame, a: AIR,
                     k: nat, out: Option<TVar>, want: Ty, env: Env, w: World)
    requires e.Apply? && WellFormed(e, valued, fs) && Analyze(e, f) == Some(a)
    ensures a.AApply? && a.op == e.op && AnalyzeAll(e.args, f) == Some(a.args)
    ensures |e.args| == |a.args| == Arity(e.op) && (valued ==> Produces(e.op))
    ensures forall i {:trigger WellFormed(e.args[i], true, fs)} | 0 <= i < |e.args| :: WellFormed(e.args[i], true, fs)
    ensures var ar, r := EvalArgs(h, fs, fuel, e.args, env, w), Eval(h, fs, fuel, e, env, w);
            if ar.stop != Done then r == Res(ar.stop, ar.env, ar.world)
            else var p := ApplyOp(h, e.op, ar.vals, ar.world); r == Res(p.ctl, ar.env, p.world)
    ensures var n, m := |a.args|, Emit(a.op, Temps(k, |a.args|));
            Compile(a, k, out, want).stmts ==
              CompileArgs(a.args, k, OperandTypes(a.op, n), k + n).stmts + (m.stmts + Deliver(m.res, TypeOf(a), out, want))
  {
    hide EvalArgs; hide EvalSeq; hide EvalLoop; hide Call; hide ApplyOp; hide CompileArgs; hide CompileSeq; hide Emit; hide Deliver;
    hide TypeOf; hide AnalyzeAll;
  }

  lemma {:induction false} OperationSim(h: Host, fs: seq<Func>, ts: TFuncs, fuel: nat, e: IR, valued: bool, f: Frame, a: AIR,
      k: nat, out: Option<TVar>, want: Ty, env: Env, st: TSt)
    requires e.Apply?
    requires WellFormed(e, valued, fs) && Linked(fs, fs, ts) && (out.Some? ==> valued)
    requires Analyze(e, f) == Some(a) && FrameOk(f) && Rel(f, env, st.locals, None)
    requires WordCache.Good(st.vm.mem)
    ensures var r := Eval(h, fs, fuel, e, env, View(st.vm));
            r.world.exact ==>
              && Sim(f, k, TypeOf(a), out, want, st, r, T.Exec(h, ts, fuel, Compile(a, k, out, want).stmts, st))
              && (valued ==> r.ctl != Done)
    decreases fuel, e, 0, 0
  {
    hide WordCache.Good, WordCache.Flat;
    hide T.Exec; hide Eval; hide EvalArgs; hide ApplyOp; hide Compile; hide CompileArgs; hide Emit; hide Deliver; hide TypeOf;
    hide WellFormed; hide Analyze; hide AnalyzeAll; hide Sim; hide ArgsSim;
    ApplyUnfolds(h, fs, fuel, e, valued, f, a, k, out, want, env, View(st.vm));
    var n, have := |a.args|, TypeOf(a);
    var wants, temps := OperandTypes(a.op, n), Temps(k, n);
    var c, m := CompileArgs(a.args, k, wants, k + n), Emit(a.op, temps);
    var tail := m.stmts + Deliver(m.res, have, out, want);
    var ar := EvalArgs(h, fs, fuel, e.args, env, View(st.vm));
    var t1 := T.Exec(h, ts, fuel, c.stmts, st);
    OperandsSim(h, fs, ts, fuel, e.args, f, a.args, k, wants, k + n, env, st);
    ExecAppend(h, ts, fuel, c.stmts, tail, st);
    if ar.world.exact && ar.stop == Done {
      NoValueWithoutResult(h, e.op, ar.vals, ar.world);
      AfterOperands(h, ts, fuel, a.op, a.args, f, k, out, want, st, ar, t1, have, tail);
    } else if ar.world.exact {
      OperandStops(f, k, a.args, wants, have, out, want, st, ar, t1);
    }
  }

  lemma NoValueWithoutResult(h: Host, op: Op, ws: seq<Word>, w: World)
    requires |ws| == Arity(op)
    ensures Produces(op) ==> ApplyOp(h, op, ws, w).ctl != Done
  {}

  /** The last operand and then, if it has a value, the others. */
  lemma LastOperand(f: Frame, base: nat, k: nat, k': nat, a: seq<AIR>, wants: seq<Ty>, st: TSt, v: Res, t1: TRes, r: ArgsRes, t2: TRes)
    requires a != [] && |wants| == |a| && base + |a| <= k <= k' && v.ctl != Done
    requires var n := |a| - 1;
             && Sim(f, k, TypeOf(a[n]), Some(Temp(base + n)), wants[n], st, v, t1)
             && (v.ctl.Val? ==> ArgsSim(f, base, k', a[..n], wants[..n], t1.st, r, t2))
    ensures t1.ctl == Erase(v.ctl)
    ensures if v.ctl.Val? then ArgsSim(f, base, k, a, wants, st, r.(vals := r.vals + [v.ctl.w]), t2)
            else ArgsSim(f, base, k, a, wants, st, ArgsRes(v.ctl, [], v.env, v.world), t1)
  {
    hide WordCache.Good, WordCache.Flat;
    if v.ctl.Val? && r.stop == Done { LastOperandKept(f, base, k', a, wants, t1.st, r, t2, v.ctl.w); }
  }

  /** Operands, from the last to the first, each into its own temporary. */
  lemma {:induction false} OperandsSim(h: Host, fs: seq<Func>, ts: TFuncs, fuel: nat, args: seq<IR>, f: Frame, a: seq<AIR>,
                                       base: nat, wants: seq<Ty>, k: nat, env: Env, st: TSt)
    requires Linked(fs, fs, ts) && forall i {:trigger WellFormed(args[i], true, fs)} | 0 <= i < |args| :: WellFormed(args[i], true, fs)
    requires AnalyzeAll(args, f) == Some(a) && |wants| == |args| && base + |args| <= k
    requires FrameOk(f) && Rel(f, env, st.locals, None)
    requires WordCache.Good(st.vm.mem)
    ensures var r := EvalArgs(h, fs, fuel, args, env, View(st.vm));
            r.world.exact ==>
              ArgsSim(f, base, k, a, wants, st, r, T.Exec(h, ts, fuel, CompileArgs(a, base, wants, k).stmts, st))
    decreases fuel, args, 0, 0
  {
    hide WordCache.Good, WordCache.Flat;
    hide Eval; hide T.Exec; hide Compile; hide Analyze; hide WellFormed;
    if args == [] {
      ExecNil(h, ts, fuel, st);
    } else {
      var n := |args| - 1;
      var out := Some(Temp(base + n));
      AnalyzeAllAt(args, f, a, n);
      AnalyzeAllPrefix(args, f, a, n);
      CompileSim(h, fs, ts, fuel, args[n], true, f, a[n], k, out, wants[n], env, st);
      var v := Eval(h, fs, fuel, args[n], env, View(st.vm));
      var c := Compile(a[n], k, out, wants[n]);
      var rest := CompileArgs(a[..n], base, wants[..n], c.next);
      var t1 := T.Exec(h, ts, fuel, c.stmts, st);
      NextMonotone(a[n], k, out, wants[n]);
      ExecAppend(h, ts, fuel, c.stmts, rest.stmts, st);
      var r, t2 := EvalArgs(h, fs, fuel, args[..n], v.env, v.world), T.Exec(h, ts, fuel, rest.stmts, t1.st);
      if v.world.exact && v.ctl.Val? {
        Continues(f, k, TypeOf(a[n]), out, wants[n], st, v, t1);
        OperandsSim(h, fs, ts, fuel, args[..n], f, a[..n], base, wants[..n], c.next, v.env, t1.st);
      }
      if v.world.exact && (v.ctl.Val? ==> r.world.exact) {
        LastOperand(f, base, k, c.next, a, wants, st, v, t1, r, t2);
      }
    }
  }

  lemma LastOperandKept(f: Frame, base: nat, k: nat, a: seq<AIR>, wants: seq<Ty>, st: TSt, r: ArgsRes, t: TRes, w: Word)
    requires a != [] && |wants| == |a| && base + |a| <= k && r.stop == Done
    requires ArgsSim(f, base, k, a[..|a| - 1], wants[..|a| - 1], st, r, t)
    requires Holds(st.locals, Temp(base + |a| - 1), w, wants[|a| - 1], TypeOf(a[|a| - 1]))
    ensures |r.vals| == |a| - 1
    ensures OperandsHold(t.st.locals, Temps(base, |a|), a, r.vals + [w], wants)
  {
    hide WordCache.Good, WordCache.Flat;
    var n := |a| - 1;
    var temps, init := Temps(base, |a|), Temps(base, n);
    forall i | 0 <= i < |a| ensures Holds(t.st.locals, temps[i], (r.vals + [w])[i], wants[i], TypeOf(a[i])) {
      if i < n { assert Holds(t.st.locals, init[i], r.vals[i], wants[..n][i], TypeOf(a[..n][i])); }
    }
  }

  lemma AfterStatement(f: Frame, k: nat, k': nat, have': Ty, have: Ty, out: Option<TVar>, want: Ty, st: TSt, r0: Res, t1: TRes, r: Res, t2: TRes)
    requires k <= k' && (r0.ctl.Val? || r0.ctl.Done?) && Sim(f, k, have', None, TNone, st, r0, t1)
    requires Sim(f, k', have, out, want, t1.st, r, t2)
    ensures Sim(f, k, have, out, want, st, r, t2)
  {
    hide WordCache.Good, WordCache.Flat;
  }

  lemma {:induction false} SeqSim(h: Host, fs: seq<Func>, ts: TFuncs, fuel: nat, es: seq<IR>, valued: bool, f: Frame, a: seq<AIR>,
                                  k: nat, out: Option<TVar>, want: Ty, env: Env, st: TSt)
    requires es != [] && Linked(fs, fs, ts) && (out.Some? ==> valued)
    requires forall i | 0 <= i < |es| :: WellFormed(es[i], valued && i == |es| - 1, fs)
    requires AnalyzeAll(es, f) == Some(a) && FrameOk(f) && Rel(f, env, st.locals, None)
    requires WordCache.Good(st.vm.mem)
    ensures var r := EvalSeq(h, fs, fuel, es, env, View(st.vm));
            r.world.exact ==>
              && Sim(f, k, TNone, out, want, st, r, T.Exec(h, ts, fuel, CompileSeq(a, k, out, want).stmts, st))
              && (valued ==> r.ctl != Done)
    decreases fuel, es, 0, 0
  {
    hide WordCache.Good, WordCache.Flat;
    hide Eval; hide T.Exec; hide Compile; hide Analyze;
    if |es| == 1 {
      CompileSim(h, fs, ts, fuel, es[0], valued, f, a[0], k, out, want, env, st);
    } else {
      CompileSim(h, fs, ts, fuel, es[0], false, f, a[0], k, None, TNone, env, st);
      var r0 := Eval(h, fs, fuel, es[0], env, View(st.vm));
      var c := Compile(a[0], k, None, TNone);
      var rest := CompileSeq(a[1..], c.next, out, want);
      var t1 := T.Exec(h, ts, fuel, c.stmts, st);
      ExecAppend(h, ts, fuel, c.stmts, rest.stmts, st);
      NextMonotone(a[0], k, None, TNone);
      if r0.world.exact && (r0.ctl.Val? || r0.ctl.Done?) {
        Continues(f, k, TypeOf(a[0]), None, TNone, st, r0, t1);
        SeqSim(h, fs, ts, fuel, es[1..], valued, f, a[1..], c.next, out, want, r0.env, t1.st);
        var r := EvalSeq(h, fs, fuel, es[1..], r0.env, r0.world);
        if r.world.exact {
          AfterStatement(f, k, c.next, TypeOf(a[0]), TNone, out, want, st, r0, t1, r, T.Exec(h, ts, fuel, rest.stmts, t1.st));
        }
      } else if r0.world.exact {
        Stops(f, k, k, TypeOf(a[0]), TNone, None, TNone, out, want, st, r0, t1);
      }
    }
  }

  // ---- scopes: the heart of capture freedom -------------------------------------------

  /** Entering a scope: the new binding gets a slot of its own. */
  lemma EnterScope(f: Frame, x: string, env: Env, locals: map<TVar, Raw>, w: Word)
    requires FrameOk(f) && x != RETURN_PC
    requires var v := User(x, f.current); Rel(f, env, locals, Some(v)) && v in locals && locals[v] == I(w)
    ensures FrameOk(EnterOne(f, x)) && Rel(EnterOne(f, x), env[x := w], locals, None)
  {}

  /** Leaving it: the outer binding of `x` was out of reach of the code inside. */
  lemma LeaveScope(f: Frame, x: string, outer: Env, inner: Env, k: nat, l: map<TVar, Raw>, l': map<TVar, Raw>, skip: Option<TVar>)
    requires FrameOk(f) && x != RETURN_PC
    requires Rel(f, outer, l, Some(User(x, f.current)))
    requires Rel(EnterOne(f, x), inner, l', skip)
    requires Kept(EnterOne(f, x), k, l, l', skip)
    ensures Rel(f, Restore(outer, inner, x), l', skip)
  {
    var f' := EnterOne(f, x);
    if x in outer {
      assert Keeps(User(x, f.slots[x]), f', k);
    }
  }

  /** Code in the scope of `x` keeps all that code outside it must keep. */
  lemma ScopeKeeps(f: Frame, x: string, k: nat, k': nat, v: TVar)
    requires k <= k' && Keeps(v, f, k)
    ensures Keeps(v, EnterOne(f, x), k') && v != User(x, f.current)
  {
  }

  lemma BindingValue(f: Frame, x: string, k: nat, vh: Ty, st: TSt, v: Res, t1: TRes)
    requires FrameOk(f) && x != RETURN_PC
    requires v.ctl.Val? && Sim(f, k, vh, Some(User(x, f.current)), TInt, st, v, t1)
    ensures t1.ctl == Done && Seen(t1.st.vm, v.world)
    ensures Rel(EnterOne(f, x), v.env[x := v.ctl.w], t1.st.locals, None)
    ensures FrameOk(EnterOne(f, x)) && EnterOne(f, x).slots[x] == f.current
  {
    hide WordCache.Good, WordCache.Flat;
    EnterScope(f, x, v.env, t1.st.locals, v.ctl.w);
  }

  /** The body of a scope, seen from before the scope. */
  lemma AfterBinding(f: Frame, x: string, k: nat, k': nat, vh: Ty, have: Ty, out: Option<TVar>, want: Ty, st: TSt,
                     v: Res, t1: TRes, b: Res, t2: TRes)
    requires FrameOk(f) && x != RETURN_PC && k <= k'
    requires v.ctl.Val? && Sim(f, k, vh, Some(User(x, f.current)), TInt, st, v, t1)
    requires Sim(EnterOne(f, x), k', have, out, want, t1.st, b, t2)
    ensures Sim(f, k, have, out, want, st, b.(env := Restore(v.env, b.env, x)), t2)
  {
    hide WordCache.Good, WordCache.Flat, Rel, Keeps, Restore, FrameOk, Holds, View, Seen, HasType;
    if Live(b.ctl) {
      var skip := if b.ctl.Val? then out else None;
      LeaveScope(f, x, v.env, b.env, k', t1.st.locals, t2.st.locals, skip);
      forall u | u in st.locals && Keeps(u, f, k) && Some(u) != skip
        ensures u in t2.st.locals && t2.st.locals[u] == st.locals[u]
      {
        ScopeKeeps(f, x, k, k', u);
      }
    }
  }

  lemma WithUnfolds(h: Host, fs: seq<Func>, fuel: nat, e: IR, valued: bool, f: Frame, a: AIR, k: nat, out: Option<TVar>, want: Ty, env: Env, w: World)
    requires e.With? && WellFormed(e, valued, fs) && Analyze(e, f) == Some(a)
    ensures e.name != RETURN_PC && WellFormed(e.val, true, fs) && WellFormed(e.body, valued, fs)
    ensures a.AWith? && Analyze(e.val, f) == Some(a.val) && Analyze(e.body, EnterOne(f, e.name)) == Some(a.body)
    ensures TypeOf(a) == TypeOf(a.body)
    ensures var v, r := Eval(h, fs, fuel, e.val, env, w), Eval(h, fs, fuel, e, env, w);
            if !v.ctl.Val? then r == v.(ctl := Needed(v.ctl))
            else var b := Eval(h, fs, fuel, e.body, v.env[e.name := v.ctl.w], v.world); r == b.(env := Restore(v.env, b.env, e.name))
    ensures var cv := Compile(a.val, k, Some(User(e.name, f.current)), TInt);
            Compile(a, k, out, want).stmts == cv.stmts + Compile(a.body, cv.next, out, want).stmts
  {
    hide EvalArgs; hide EvalSeq; hide Call; hide ApplyOp; hide CompileArgs; hide CompileSeq; hide Emit; hide Deliver;
  }

  lemma {:induction false} WithSim(h: Host, fs: seq<Func>, ts: TFuncs, fuel: nat, e: IR, valued: bool, f: Frame, a: AIR,
      k: nat, out: Option<TVar>, want: Ty, env: Env, st: TSt)
    requires e.With?
    requires WellFormed(e, valued, fs) && Linked(fs, fs, ts) && (out.Some? ==> valued)
    requires Analyze(e, f) == Some(a) && FrameOk(f) && Rel(f, env, st.locals, None)
    requires WordCache.Good(st.vm.mem)
    ensures var r := Eval(h, fs, fuel, e, env, View(st.vm));
            r.world.exact ==>
              && Sim(f, k, TypeOf(a), out, want, st, r, T.Exec(h, ts, fuel, Compile(a, k, out, want).stmts, st))
              && (valued ==> r.ctl != Done)
    decreases fuel, e, 0, 0
  {
    hide WordCache.Good, WordCache.Flat;
    hide T.Exec; hide Eval; hide EvalLoop; hide Compile; hide WellFormed; hide Analyze; hide TypeOf;
    WithUnfolds(h, fs, fuel, e, valued, f, a, k, out, want, env, View(st.vm));
    var x := e.name;
    var here := Some(User(x, f.current));
    var f' := EnterOne(f, x);
    CompileSim(h, fs, ts, fuel, e.val, true, f, a.val, k, here, TInt, env, st);
    var v := Eval(h, fs, fuel, e.val, env, View(st.vm));
    var cv := Compile(a.val, k, here, TInt);
    var cb := Compile(a.body, cv.next, out, want);
    var t1 := T.Exec(h, ts, fuel, cv.stmts, st);
    ExecAppend(h, ts, fuel, cv.stmts, cb.stmts, st);
    NextMonotone(a.val, k, here, TInt);
    if v.world.exact && v.ctl.Val? {
      BindingValue(f, x, k, TypeOf(a.val), st, v, t1);
      CompileSim(h, fs, ts, fuel, e.body, valued, f', a.body, cv.next, out, want, v.env[x := v.ctl.w], t1.st);
      var b := Eval(h, fs, fuel, e.body, v.env[x := v.ctl.w], v.world);
      if b.world.exact {
        AfterBinding(f, x, k, cv.next, TypeOf(a.val), TypeOf(a), out, want, st, v, t1, b, T.Exec(h, ts, fuel, cb.stmts, t1.st));
      }
    } else if v.world.exact {
      Stops(f, k, k, TypeOf(a.val), TypeOf(a), here, TInt, out, want, st, v, t1);
    }
  }

  lemma SetUnfolds(h: Host, fs: seq<Func>, fuel: nat, e: IR, valued: bool, f: Frame, a: AIR, k: nat, out: Option<TVar>, want: Ty, env: Env, w: World)
    requires e.Set? && WellFormed(e, valued, fs) && Analyze(e, f) == Some(a)
    ensures !valued && WellFormed(e.val, true, fs) && e.name in f.slots && e.name != RETURN_PC
    ensures a.ASet? && Analyze(e.val, f) == Some(a.val) && TypeOf(a) == TNone
    ensures var v, r := Eval(h, fs, fuel, e.val, env, w), Eval(h, fs, fuel, e, env, w);
            r == if !v.ctl.Val? then v.(ctl := Needed(v.ctl))
                 else if e.name !in v.env then v.(ctl := Fault(Unbound)) else Res(Done, v.env[e.name := v.ctl.w], v.world)
    ensures Compile(a, k, out, want) == Compile(a.val, k, Some(User(e.name, f.slots[e.name])), TInt)
  {
    hide EvalArgs; hide EvalSeq; hide Call; hide ApplyOp; hide CompileArgs; hide CompileSeq; hide Emit; hide Deliver;
  }

  lemma {:induction false} SetSim(h: Host, fs: seq<Func>, ts: TFuncs, fuel: nat, e: IR, valued: bool, f: Frame, a: AIR,
      k: nat, out: Option<TVar>, want: Ty, env: Env, st: TSt)
    requires e.Set?
    requires WellFormed(e, valued, fs) && Linked(fs, fs, ts) && (out.Some? ==> valued)
    requires Analyze(e, f) == Some(a) && FrameOk(f) && Rel(f, env, st.locals, None)
    requires WordCache.Good(st.vm.mem)
    ensures var r := Eval(h, fs, fuel, e, env, View(st.vm));
            r.world.exact ==>
              && Sim(f, k, TypeOf(a), out, want, st, r, T.Exec(h, ts, fuel, Compile(a, k, out, want).stmts, st))
              && (valued ==> r.ctl != Done)
    decreases fuel, e, 0, 0
  {
    hide WordCache.Good, WordCache.Flat;
    hide T.Exec; hide Eval; hide EvalLoop; hide Compile; hide WellFormed; hide Analyze; hide TypeOf;
    SetUnfolds(h, fs, fuel, e, valued, f, a, k, out, want, env, View(st.vm));
    var out := Some(User(e.name, f.slots[e.name]));
    CompileSim(h, fs, ts, fuel, e.val, true, f, a.val, k, out, TInt, env, st);
  }

  lemma BranchExec(h: Host, ts: TFuncs, fuel: nat, test: seq<T.Stmt<TVar>>, v: TVar, thn: seq<T.Stmt<TVar>>, els: seq<T.Stmt<TVar>>, st: TSt)
    ensures T.Exec(h, ts, fuel, test + [T.IfStmt(v, thn, els)], st) ==
            var t1 := T.Exec(h, ts, fuel, test, st);
            if t1.ctl != Done then t1
            else if v !in t1.st.locals then T.TRes(Fault(Unbound), t1.st)
            else T.Exec(h, ts, fuel, if T.Truthy(t1.st.locals[v]) then thn else els, t1.st)
  {
    var t1 := T.Exec(h, ts, fuel, test, st);
    var branch := T.IfStmt(v, thn, els);
    ExecAppend(h, ts, fuel, test, [branch], st);
    ExecOne(h, ts, fuel, branch, t1.st);
  }

  lemma TestValue(f: Frame, k: nat, vh: Ty, st: TSt, v: Res, t1: TRes)
    requires v.ctl.Val? && Sim(f, k + 1, vh, Some(Temp(k)), TInt, st, v, t1)
    ensures t1.ctl == Done && Seen(t1.st.vm, v.world) && Rel(f, v.env, t1.st.locals, None)
    ensures Temp(k) in t1.st.locals && (T.Truthy(t1.st.locals[Temp(k)]) <==> v.ctl.w != 0)
  {
    hide WordCache.Good, WordCache.Flat;
  }

  /** Code that runs after the test of a branch, seen from before the test. */
  lemma AfterTest(f: Frame, k: nat, k': nat, vh: Ty, have: Ty, out: Option<TVar>, want: Ty, st: TSt, v: Res, t1: TRes, r: Res, t2: TRes)
    requires k < k' && v.ctl.Val? && Sim(f, k + 1, vh, Some(Temp(k)), TInt, st, v, t1)
    requires Sim(f, k', have, out, want, t1.st, r, t2)
    ensures Sim(f, k, TNone, out, want, st, r, t2)
  {
    hide WordCache.Good, WordCache.Flat;
  }

  lemma {:induction false} IfSim(h: Host, fs: seq<Func>, ts: TFuncs, fuel: nat, e: IR, valued: bool, f: Frame, a: AIR,
      k: nat, out: Option<TVar>, want: Ty, env: Env, st: TSt)
    requires e.If?
    requires WellFormed(e, valued, fs) && Linked(fs, fs, ts) && (out.Some? ==> valued)
    requires Analyze(e, f) == Some(a) && FrameOk(f) && Rel(f, env, st.locals, None)
    requires WordCache.Good(st.vm.mem)
    ensures var r := Eval(h, fs, fuel, e, env, View(st.vm));
            r.world.exact ==>
              && Sim(f, k, TypeOf(a), out, want, st, r, T.Exec(h, ts, fuel, Compile(a, k, out, want).stmts, st))
              && (valued ==> r.ctl != Done)
    decreases fuel, e, 0, 0
  {
    hide WordCache.Good, WordCache.Flat;
    hide T.Exec; hide T.Step; hide EvalArgs; hide EvalSeq; hide Call; hide ApplyOp; hide CompileArgs; hide CompileSeq; hide Emit; hide Deliver; hide AnalyzeAll; hide EvalLoop;
    var test := Some(Temp(k));
    CompileSim(h, fs, ts, fuel, e.test, true, f, a.test, k + 1, test, TInt, env, st);
    var v := Eval(h, fs, fuel, e.test, env, View(st.vm));
    var ct := Compile(a.test, k + 1, test, TInt);
    var cb := Compile(a.body, ct.next, None, want);
    var t1 := T.Exec(h, ts, fuel, ct.stmts, st);
    BranchExec(h, ts, fuel, ct.stmts, Temp(k), cb.stmts, [], st);
    ExecNil(h, ts, fuel, t1.st);
    NextMonotone(a.test, k + 1, test, TInt);
    if v.world.exact && v.ctl.Val? {
      TestValue(f, k, TypeOf(a.test), st, v, t1);
      if v.ctl.w != 0 {
        CompileSim(h, fs, ts, fuel, e.body, false, f, a.body, ct.next, None, want, v.env, t1.st);
        var b := Eval(h, fs, fuel, e.body, v.env, v.world);
        if b.world.exact {
          AfterTest(f, k, ct.next, TypeOf(a.test), TypeOf(a.body), None, want, st, v, t1, b, T.Exec(h, ts, fuel, cb.stmts, t1.st));
        }
      } else {
        AfterTest(f, k, ct.next, TypeOf(a.test), TNone, None, want, st, v, t1, Res(Done, v.env, v.world), T.TRes(Done, t1.st));
      }
    } else if v.world.exact {
      Stops(f, k, k + 1, TypeOf(a.test), TNone, test, TInt, None, want, st, v, t1);
    }
  }

  lemma IfElseUnfolds(h: Host, fs: seq<Func>, fuel: nat, e: IR, valued: bool, f: Frame, a: AIR, k: nat, out: Option<TVar>, want: Ty, env: Env, w: World)
    requires e.IfElse? && WellFormed(e, valued, fs) && Analyze(e, f) == Some(a)
    ensures WellFormed(e.test, true, fs) && WellFormed(e.body, valued, fs) && WellFormed(e.orelse, valued, fs)
    ensures a.AIfElse? && Analyze(e.test, f) == Some(a.test) && Analyze(e.body, f) == Some(a.body) && Analyze(e.orelse, f) == Some(a.orelse)
    ensures TypeOf(a) == TNone
    ensures var v, r := Eval(h, fs, fuel, e.test, env, w), Eval(h, fs, fuel, e, env, w);
            r == if !v.ctl.Val? then v.(ctl := Needed(v.ctl))
                 else Eval(h, fs, fuel, if v.ctl.w != 0 then e.body else e.orelse, v.env, v.world)
    ensures var t := Compile(a.test, k + 1, Some(Temp(k)), TInt);
            var b := Compile(a.body, t.next, out, want);
            var o := Compile(a.orelse, b.next, out, want);
            Compile(a, k, out, want).stmts == t.stmts + [T.IfStmt(Temp(k), b.stmts, o.stmts)]
  {
    hide EvalArgs; hide EvalSeq; hide Call; hide ApplyOp; hide CompileArgs; hide CompileSeq; hide Emit; hide Deliver;
  }

  lemma {:induction false} IfElseSim(h: Host, fs: seq<Func>, ts: TFuncs, fuel: nat, e: IR, valued: bool, f: Frame, a: AIR,
      k: nat, out: Option<TVar>, want: Ty, env: Env, st: TSt)
    requires e.IfElse?
    requires WellFormed(e, valued, fs) && Linked(fs, fs, ts) && (out.Some? ==> valued)
    requires Analyze(e, f) == Some(a) && FrameOk(f) && Rel(f, env, st.locals, None)
    requires WordCache.Good(st.vm.mem)
    ensures var r := Eval(h, fs, fuel, e, env, View(st.vm));
            r.world.exact ==>
              && Sim(f, k, TypeOf(a), out, want, st, r, T.Exec(h, ts, fuel, Compile(a, k, out, want).stmts, st))
              && (valued ==> r.ctl != Done)
    decreases fuel, e, 0, 0
  {
    hide WordCache.Good, WordCache.Flat;
    hide T.Exec; hide Eval; hide EvalLoop; hide Compile; hide WellFormed; hide Analyze; hide TypeOf;
    IfElseUnfolds(h, fs, fuel, e, valued, f, a, k, out, want, env, View(st.vm));
    var test := Some(Temp(k));
    CompileSim(h, fs, ts, fuel, e.test, true, f, a.test, k + 1, test, TInt, env, st);
    var v := Eval(h, fs, fuel, e.test, env, View(st.vm));
    var ct := Compile(a.test, k + 1, test, TInt);
    var cb := Compile(a.body, ct.next, out, want);
    var co := Compile(a.orelse, cb.next, out, want);
    var t1 := T.Exec(h, ts, fuel, ct.stmts, st);
    BranchExec(h, ts, fuel, ct.stmts, Temp(k), cb.stmts, co.stmts, st);
    NextMonotone(a.test, k + 1, test, TInt);
    NextMonotone(a.body, ct.next, out, want);
    if v.world.exact && v.ctl.Val? {
      TestValue(f, k, TypeOf(a.test), st, v, t1);
      var e', a', c', k' := if v.ctl.w != 0 then e.body else e.orelse, if v.ctl.w != 0 then a.body else a.orelse,
                            if v.ctl.w != 0 then cb else co, if v.ctl.w != 0 then ct.next else cb.next;
      CompileSim(h, fs, ts, fuel, e', valued, f, a', k', out, want, v.env, t1.st);
      var b := Eval(h, fs, fuel, e', v.env, v.world);
      if b.world.exact {
        AfterTest(f, k, k', TypeOf(a.test), TypeOf(a'), out, want, st, v, t1, b, T.Exec(h, ts, fuel, c'.stmts, t1.st));
      }
    } else if v.world.exact {
      Stops(f, k, k + 1, TypeOf(a.test), TNone, test, TInt, out, want, st, v, t1);
    }
  }

  /** The second of two values that are computed one after the other. */
  lemma SecondValue(f: Frame, k: nat, k1: nat, k2: nat, h1: Ty, h2: Ty, have: Ty, want: Ty, st: TSt, s: Res, t1: TRes, r: Res, t2: TRes)
    requires k + 2 <= k1 <= k2 && s.ctl.Val? && Sim(f, k1, h1, Some(Temp(k)), TInt, st, s, t1)
    requires r.ctl != Done && Sim(f, k2, h2, Some(Temp(k + 1)), TInt, t1.st, r, t2)
    ensures !r.ctl.Val? ==> Sim(f, k, have, None, want, st, r, t2)
    ensures r.ctl.Val? ==>
              && t2.ctl == Done && Seen(t2.st.vm, r.world) && Rel(f, r.env, t2.st.locals, None)
              && T.IntVar(t2.st, Temp(k)) == T.IOk(s.ctl.w) && T.IntVar(t2.st, Temp(k + 1)) == T.IOk(r.ctl.w)
              && Sim(f, k, have, None, want, st, Res(Done, r.env, r.world), t2)
  {
    hide WordCache.Good, WordCache.Flat;
  }

  lemma AfterLoopSetup(f: Frame, k: nat, k': nat, have: Ty, want: Ty, st: TSt, env: Env, w: World, t2: TRes, r: Res, t3: TRes)
    requires k <= k' && Sim(f, k, have, None, want, st, Res(Done, env, w), t2)
    requires !r.ctl.Val? && Sim(f, k', TNone, None, TNone, t2.st, r, t3)
    ensures Sim(f, k, have, None, want, st, r, t3)
  {
    hide WordCache.Good, WordCache.Flat;
  }

  lemma LoopExec(h: Host, ts: TFuncs, fuel: nat, v: TVar, start: TVar, rounds: TVar, bound: nat, body: seq<T.Stmt<TVar>>, s: int, n: nat, st: TSt)
    requires T.IntVar(st, start) == T.IOk(s) && T.IntVar(st, rounds) == T.IOk(n)
    ensures T.Exec(h, ts, fuel, [T.AssertAtMost(rounds, bound), T.ForRange(v, start, rounds, body)], st) ==
            if n > bound then T.TRes(Fault(TooManyRounds), st) else T.For(h, ts, fuel, v, s, n, body, st)
  {
    ExecTwo(h, ts, fuel, T.AssertAtMost(rounds, bound), T.ForRange(v, start, rounds, body), st);
  }

  lemma RepeatUnfolds(h: Host, fs: seq<Func>, fuel: nat, e: IR, valued: bool, f: Frame, a: AIR, k: nat, out: Option<TVar>, want: Ty, env: Env, w: World)
    requires e.Repeat? && WellFormed(e, valued, fs) && Analyze(e, f) == Some(a)
    ensures !valued && e.name != RETURN_PC && WellFormed(e.start, true, fs) && WellFormed(e.rounds, true, fs) && WellFormed(e.body, false, fs)
    ensures a.ARepeat? && Analyze(e.start, f) == Some(a.start) && Analyze(e.rounds, f) == Some(a.rounds)
    ensures Analyze(e.body, EnterOne(f, e.name)) == Some(a.body) && TypeOf(a) == TNone
    ensures var s, all := Eval(h, fs, fuel, e.start, env, w), Eval(h, fs, fuel, e, env, w);
            if !s.ctl.Val? then all == s.(ctl := Needed(s.ctl))
            else
              var r := Eval(h, fs, fuel, e.rounds, s.env, s.world);
              if !r.ctl.Val? then all == r.(ctl := Needed(r.ctl))
              else if r.ctl.w > e.bound then all == r.(ctl := Revert([]), world := r.world.Under(false))
              else all == EvalLoop(h, fs, fuel, e.name, s.ctl.w, r.ctl.w, e.body, r.env, r.world)
    ensures var c := Compile(a.start, k + 2, Some(Temp(k)), TInt);
            var r := Compile(a.rounds, c.next, Some(Temp(k + 1)), TInt);
            var b := Compile(a.body, r.next, None, TNone);
            Compile(a, k, out, want).stmts == c.stmts + (r.stmts +
              [T.AssertAtMost(Temp(k + 1), e.bound), T.ForRange(User(e.name, f.current), Temp(k), Temp(k + 1), b.stmts)])
  {
    hide EvalArgs; hide EvalSeq; hide Call; hide ApplyOp; hide CompileArgs; hide CompileSeq; hide Emit; hide Deliver;
    hide EvalLoop;
  }

  lemma {:induction false} RepeatSim(h: Host, fs: seq<Func>, ts: TFuncs, fuel: nat, e: IR, valued: bool, f: Frame, a: AIR,
      k: nat, out: Option<TVar>, want: Ty, env: Env, st: TSt)
    requires e.Repeat?
    requires WellFormed(e, valued, fs) && Linked(fs, fs, ts) && (out.Some? ==> valued)
    requires Analyze(e, f) == Some(a) && FrameOk(f) && Rel(f, env, st.locals, None)
    requires WordCache.Good(st.vm.mem)
    ensures var r := Eval(h, fs, fuel, e, env, View(st.vm));
            r.world.exact ==>
              && Sim(f, k, TypeOf(a), out, want, st, r, T.Exec(h, ts, fuel, Compile(a, k, out, want).stmts, st))
              && (valued ==> r.ctl != Done)
    decreases fuel, e, 0, 0
  {
    hide WordCache.Good, WordCache.Flat;
    hide T.Exec; hide Eval; hide EvalLoop; hide Compile; hide WellFormed; hide Analyze; hide TypeOf;
    RepeatUnfolds(h, fs, fuel, e, valued, f, a, k, out, want, env, View(st.vm));
    var x := e.name;
    var t0, t1 := Some(Temp(k)), Some(Temp(k + 1));
    CompileSim(h, fs, ts, fuel, e.start, true, f, a.start, k + 2, t0, TInt, env, st);
    var s := Eval(h, fs, fuel, e.start, env, View(st.vm));
    var cs := Compile(a.start, k + 2, t0, TInt);
    var cr := Compile(a.rounds, cs.next, t1, TInt);
    var cb := Compile(a.body, cr.next, None, TNone);
    var loop := [T.AssertAtMost(Temp(k + 1), e.bound), T.ForRange(User(x, f.current), Temp(k), Temp(k + 1), cb.stmts)];
    var e1 := T.Exec(h, ts, fuel, cs.stmts, st);
    ExecAppend(h, ts, fuel, cs.stmts, cr.stmts + loop, st);
    NextMonotone(a.start, k + 2, t0, TInt);
    NextMonotone(a.rounds, cs.next, t1, TInt);
    if s.world.exact && s.ctl.Val? {
      Continues(f, k + 2, TypeOf(a.start), t0, TInt, st, s, e1);
      CompileSim(h, fs, ts, fuel, e.rounds, true, f, a.rounds, cs.next, t1, TInt, s.env, e1.st);
      var r := Eval(h, fs, fuel, e.rounds, s.env, s.world);
      var e2 := T.Exec(h, ts, fuel, cr.stmts, e1.st);
      ExecAppend(h, ts, fuel, cr.stmts, loop, e1.st);
      if r.world.exact {
        SecondValue(f, k, k + 2, cs.next, TypeOf(a.start), TypeOf(a.rounds), TNone, want, st, s, e1, r, e2);
        if r.ctl.Val? {
          LoopExec(h, ts, fuel, User(x, f.current), Temp(k), Temp(k + 1), e.bound, cb.stmts, s.ctl.w, r.ctl.w, e2.st);
          if r.ctl.w <= e.bound {
            LoopSim(h, fs, ts, fuel, x, s.ctl.w, r.ctl.w, e.body, f, a.body, cr.next, r.env, e2.st);
            var l := EvalLoop(h, fs, fuel, x, s.ctl.w, r.ctl.w, e.body, r.env, r.world);
            if l.world.exact {
              AfterLoopSetup(f, k, cr.next, TNone, want, st, r.env, r.world, e2, l,
                             T.For(h, ts, fuel, User(x, f.current), s.ctl.w, r.ctl.w, cb.stmts, e2.st));
            }
          }
        }
      }
    } else if s.world.exact {
      Stops(f, k, k + 2, TypeOf(a.start), TNone, t0, TInt, None, want, st, s, e1);
    }
  }

  lemma StartRound(f: Frame, x: string, k: nat, i: nat, env: Env, st: TSt)
    requires FrameOk(f) && x != RETURN_PC && i < TWO256 && Rel(f, env, st.locals, None)
    requires WordCache.Good(st.vm.mem)
    ensures var st1 := st.(locals := st.locals[User(x, f.current) := I(i)]);
            && FrameOk(EnterOne(f, x)) && Rel(EnterOne(f, x), env[x := i], st1.locals, None)
            && Sim(f, k, TNone, Some(User(x, f.current)), TInt, st, Res(Val(i), env, View(st.vm)), T.TRes(Done, st1))
  {
    hide WordCache.Good, WordCache.Flat;
    EnterScope(f, x, env, st.locals[User(x, f.current) := I(i)], i);
  }

  /** One round, seen from outside the loop. `break` and `continue` go no further. */
  lemma AfterRound(f: Frame, x: string, k: nat, i: nat, have: Ty, env: Env, st: TSt, b: Res, t: TRes)
    requires FrameOk(f) && x != RETURN_PC && i < TWO256 && Rel(f, env, st.locals, None)
    requires Sim(EnterOne(f, x), k, have, None, TNone, st.(locals := st.locals[User(x, f.current) := I(i)]), b, t)
    requires WordCache.Good(st.vm.mem)
    ensures t.ctl == Erase(b.ctl)
    ensures var env' := Restore(env, b.env, x);
            && Sim(f, k, TNone, None, TNone, st, Res(b.ctl, env', b.world), t)
            && (Live(b.ctl) ==> Seen(t.st.vm, b.world) && Rel(f, env', t.st.locals, None))
            && (Live(b.ctl) ==> Sim(f, k, TNone, None, TNone, st, Res(Done, env', b.world), T.TRes(Done, t.st)))
  {
    hide WordCache.Good, WordCache.Flat;
    StartRound(f, x, k, i, env, st);
    var st1 := st.(locals := st.locals[User(x, f.current) := I(i)]);
    AfterBinding(f, x, k, k, TNone, have, None, TNone, st, Res(Val(i), env, View(st.vm)), T.TRes(Done, st1), b, t);
  }

  /** A round and the rounds after it. */
  lemma LoopGlue(h: Host, fs: seq<Func>, ts: TFuncs, fuel: nat, x: string, i: nat, n: nat, body: IR, f: Frame, k: nat, env: Env, st: TSt,
                 code: seq<T.Stmt<TVar>>, b: Res, t: TRes)
    requires n > 0 && i < TWO256 && b.world.exact && t.ctl == Erase(b.ctl)
    requires b == Eval(h, fs, fuel, body, env[x := i], View(st.vm))
    requires t == T.Exec(h, ts, fuel, code, st.(locals := st.locals[User(x, f.current) := I(i)]))
    requires var env' := Restore(env, b.env, x);
             && Sim(f, k, TNone, None, TNone, st, Res(b.ctl, env', b.world), t)
             && (Live(b.ctl) ==> Sim(f, k, TNone, None, TNone, st, Res(Done, env', b.world), T.TRes(Done, t.st)))
    requires b.ctl.Val? || b.ctl.Done? || b.ctl.Cnt? ==>
             var r := EvalLoop(h, fs, fuel, x, i + 1, n - 1, body, Restore(env, b.env, x), b.world);
             r.world.exact ==>
               !r.ctl.Val? && Sim(f, k, TNone, None, TNone, t.st, r, T.For(h, ts, fuel, User(x, f.current), i + 1, n - 1, code, t.st))
    requires WordCache.Good(st.vm.mem)
    ensures var r := EvalLoop(h, fs, fuel, x, i, n, body, env, View(st.vm));
            r.world.exact ==>
              !r.ctl.Val? && Sim(f, k, TNone, None, TNone, st, r, T.For(h, ts, fuel, User(x, f.current), i, n, code, st))
  {
    hide WordCache.Good, WordCache.Flat;
    hide Eval; hide T.Exec;
    if b.ctl.Val? || b.ctl.Done? || b.ctl.Cnt? {
      var env' := Restore(env, b.env, x);
      var r := EvalLoop(h, fs, fuel, x, i + 1, n - 1, body, env', b.world);
      if r.world.exact {
        AfterLoopSetup(f, k, k, TNone, TNone, st, env', b.world, T.TRes(Done, t.st), r,
                       T.For(h, ts, fuel, User(x, f.current), i + 1, n - 1, code, t.st));
      }
    }
  }

  /** No round is left, or the next one has an index that is no word. */
  lemma LoopOver(h: Host, fs: seq<Func>, ts: TFuncs, fuel: nat, x: string, i: nat, n: nat, body: IR, f: Frame, k: nat, env: Env, st: TSt,
                 code: seq<T.Stmt<TVar>>)
    requires n == 0 || i >= TWO256
    requires Rel(f, env, st.locals, None) && WordCache.Good(st.vm.mem)
    ensures var r := EvalLoop(h, fs, fuel, x, i, n, body, env, View(st.vm));
            r.world.exact ==>
              !r.ctl.Val? && Sim(f, k, TNone, None, TNone, st, r, T.For(h, ts, fuel, User(x, f.current), i, n, code, st))
  {
    hide WordCache.Good, WordCache.Flat, Eval, T.Exec;
  }

  lemma LoopInexact(h: Host, fs: seq<Func>, fuel: nat, x: string, i: nat, n: nat, body: IR, env: Env, w: World)
    requires n > 0 && i < TWO256 && w.exact && !Eval(h, fs, fuel, body, env[x := i], w).world.exact
    ensures !EvalLoop(h, fs, fuel, x, i, n, body, env, w).world.exact
  {
    hide Eval;
  }

  lemma {:induction false} LoopSim(h: Host, fs: seq<Func>, ts: TFuncs, fuel: nat, x: string, i: nat, n: nat, body: IR, f: Frame, a: AIR,
                                   k: nat, env: Env, st: TSt)
    requires x != RETURN_PC
    requires WellFormed(body, false, fs) && Linked(fs, fs, ts)
    requires Analyze(body, EnterOne(f, x)) == Some(a) && FrameOk(f) && Rel(f, env, st.locals, None)
    requires WordCache.Good(st.vm.mem)
    ensures var r := EvalLoop(h, fs, fuel, x, i, n, body, env, View(st.vm));
            r.world.exact ==>
              && !r.ctl.Val?
              && Sim(f, k, TNone, None, TNone, st, r,
                     T.For(h, ts, fuel, User(x, f.current), i, n, Compile(a, k, None, TNone).stmts, st))
    decreases fuel, body, 3, n
  {
    hide WordCache.Good, WordCache.Flat;
    hide Eval, EvalLoop, T.Exec, T.For, Compile, Analyze, WellFormed, TypeOf, Sim, FrameOk;
    if n == 0 || i >= TWO256 {
      LoopOver(h, fs, ts, fuel, x, i, n, body, f, k, env, st, Compile(a, k, None, TNone).stmts);
    } else {
      var code := Compile(a, k, None, TNone).stmts;
      var st1 := st.(locals := st.locals[User(x, f.current) := I(i)]);
      StartRound(f, x, k, i, env, st);
      CompileSim(h, fs, ts, fuel, body, false, EnterOne(f, x), a, k, None, TNone, env[x := i], st1);
      var b, t := Eval(h, fs, fuel, body, env[x := i], View(st.vm)), T.Exec(h, ts, fuel, code, st1);
      if b.world.exact {
        AfterRound(f, x, k, i, TypeOf(a), env, st, b, t);
        if b.ctl.Val? || b.ctl.Done? || b.ctl.Cnt? {
          assert Live(b.ctl);
          LoopSim(h, fs, ts, fuel, x, i + 1, n - 1, body, f, a, k, Restore(env, b.env, x), t.st);
        }
        LoopGlue(h, fs, ts, fuel, x, i, n, body, f, k, env, st, code, b, t);
      } else {
        LoopInexact(h, fs, fuel, x, i, n, body, env, View(st.vm));
      }
    }
  }

  // ---- calls ---------------------------------------------------------------------------

  lemma {:induction false} EnterOk(f: Frame, names: seq<string>)
    requires FrameOk(f)
    ensures FrameOk(Enter(f, names)) && Enter(f, names).slots.Keys == f.slots.Keys + set x | x in names
    decreases |names|
  {
    if names != [] {
      EnterOk(EnterOne(f, names[0]), names[1..]);
    }
  }

  lemma {:induction false} ValueParamsAre(ps: seq<string>, x: string)
    ensures x in ValueParams(ps) <==> x in ps && x != RETURN_PC
  {
    if ps != [] { ValueParamsAre(ps[1..], x); }
  }

  /** Binding arguments to parameters gives each name in scope its own local. */
  lemma {:induction false} BindSim(f: Frame, ps: seq<string>, vars: seq<TVar>, vals: seq<Word>, raws: seq<Raw>)
    requires ParamVars(f, ps) == Some(vars) && |vals| == |vars| == |raws|
    requires forall i :: 0 <= i < |vals| ==> raws[i] == I(vals[i])
    ensures var env, l := Bind(ValueParams(ps), vals), T.BindLocals(vars, raws);
            forall x :: x in env ==> x in f.slots && User(x, f.slots[x]) in l && l[User(x, f.slots[x])] == I(env[x])
  {
    hide WordCache.Good, WordCache.Flat;
    if ps != [] {
      if ps[0] == RETURN_PC {
        assert [] + ValueParams(ps[1..]) == ValueParams(ps[1..]);
        BindSim(f, ps[1..], vars, vals, raws);
      } else {
        var vps := ValueParams(ps);
        assert vps[1..] == ValueParams(ps[1..]) && vars[1..] == ParamVars(f, ps[1..]).value;
        BindSim(f, ps[1..], vars[1..], vals[1..], raws[1..]);
      }
    }
  }

  /** The frame in which a subroutine starts. */
  lemma CallFrame(params: seq<string>, vars: seq<TVar>, vals: seq<Word>, raws: seq<Raw>)
    requires ParamVars(Enter(EmptyFrame, params), params) == Some(vars) && |vals| == |vars| == |raws|
    requires forall i :: 0 <= i < |vals| ==> raws[i] == I(vals[i])
    ensures FrameOk(Enter(EmptyFrame, params))
    ensures Rel(Enter(EmptyFrame, params), Bind(ValueParams(params), vals), T.BindLocals(vars, raws), None)
  {
    hide WordCache.Good, WordCache.Flat;
    hide Enter, Bind, T.BindLocals, ParamVars, ValueParams;
    BindSim(Enter(EmptyFrame, params), params, vars, vals, raws);
    EnterOk(EmptyFrame, params);
    forall x { ValueParamsAre(params, x); }
  }

  lemma CallUnfolds(h: Host, fs: seq<Func>, fuel: nat, l: string, vals: seq<Word>, w: World)
    requires Find(fs, l).Found? && |vals| == |ValueParams(Find(fs, l).f.params)|
    ensures var g := Find(fs, l).f;
            var r := Eval(h, fs, fuel, g.body, Bind(ValueParams(g.params), vals), w);
            Call(h, fs, fuel, l, vals, w) == OpRes(FromCall(r.ctl), r.world)
  {
    hide Eval;
  }

  lemma InvokeUnfolds(h: Host, ts: TFuncs, fuel: nat, l: string, a: seq<TVar>, st: TSt)
    requires T.Find(ts, l).Found? && |T.Find(ts, l).f.params| == |a| && forall v :: v in a ==> v in st.locals
    requires WordCache.Good(st.vm.mem)
    ensures var g := T.Find(ts, l).f;
            var r := T.Exec(h, ts, fuel, g.code, T.St(T.BindLocals(g.params, T.Reads(st, a)), st.stack, st.vm));
            T.Invoke(h, ts, fuel, l, a, st) == T.TRes(FromCall(r.ctl), T.St(st.locals, r.st.stack, r.st.vm))
  {
    hide WordCache.Good, WordCache.Flat;
    hide T.Exec;
  }

  lemma {:induction false} InvokeSim(h: Host, fs: seq<Func>, ts: TFuncs, fuel: nat, l: string, a: seq<TVar>, vals: seq<Word>, st: TSt)
    requires Linked(fs, fs, ts) && Find(fs, l).Found?
    requires |a| == |vals| == |ValueParams(Find(fs, l).f.params)|
    requires IntsHold(st.locals, a, vals)
    requires WordCache.Good(st.vm.mem)
    ensures var r := Call(h, fs, fuel, l, vals, View(st.vm));
            var t := T.Invoke(h, ts, fuel, l, a, st);
            r.world.exact ==> CallOk(r, t, st)
    decreases fuel
  {
    hide WordCache.Good, WordCache.Flat;
    hide Eval; hide T.Exec; hide Call; hide T.Invoke; hide Analyze; hide Compile; hide WellFormed; hide Sim; hide CallOk; hide Rel;
    hide Bind; hide T.BindLocals; hide Find; hide T.Find;
    FindLinked(fs, fs, ts, l);
    var g, tg := Find(fs, l).f, T.Find(ts, l).f;
    var body, k :| CompiledAs(fs, g, tg, body, k);
    var frame, env, locals := Enter(EmptyFrame, g.params), Bind(ValueParams(g.params), vals), T.BindLocals(tg.params, T.Reads(st, a));
    CallUnfolds(h, fs, fuel, l, vals, View(st.vm));
    InvokeUnfolds(h, ts, fuel, l, a, st);
    CallFrame(g.params, tg.params, vals, T.Reads(st, a));
    var st0 := T.St(locals, st.stack, st.vm);
    CompileSim(h, fs, ts, fuel, g.body, false, frame, body, k, None, TNone, env, st0);
    var r := Eval(h, fs, fuel, g.body, env, View(st.vm));
    if r.world.exact {
      CallReturns(frame, k, TypeOf(body), st, st0, r, T.Exec(h, ts, fuel, tg.code, st0));
    }
  }

  ghost predicate CallOk(r: OpRes, t: TRes, st: TSt) {
    && t.ctl == r.ctl && Seen(t.st.vm, r.world)
    && !r.ctl.Val? && !r.ctl.Brk? && !r.ctl.Cnt? && !r.ctl.Ret?
    && (r.ctl == Done ==> t.st.locals == st.locals && t.st.stack == st.stack)
  }

  lemma CallReturns(f: Frame, k: nat, have: Ty, st: TSt, st0: TSt, r: Res, t: TRes)
    requires Sim(f, k, have, None, TNone, st0, r, t) && st0.stack == st.stack
    ensures CallOk(OpRes(FromCall(r.ctl), r.world), T.TRes(FromCall(t.ctl), T.St(st.locals, t.st.stack, t.st.vm)), st)
  {
    hide WordCache.Good, WordCache.Flat;
  }

  lemma AfterCall(f: Frame, k: nat, args: seq<AIR>, wants: seq<Ty>, have: Ty, want: Ty, st: TSt, ar: ArgsRes, t1: TRes,
                  c: OpRes, t2: TRes, ctl: Ctl)
    requires |wants| == |args| && ar.stop == Done && ArgsSim(f, k, k + |args|, args, wants, st, ar, t1)
    requires CallOk(c, t2, t1.st) && ctl == (if c.ctl == Done && ctl == Ret then Ret else c.ctl)
    ensures Sim(f, k, have, None, want, st, Res(ctl, ar.env, c.world), t2.(ctl := ctl))
  {
    hide WordCache.Good, WordCache.Flat;
  }

  lemma OperandInts(f: Frame, k: nat, args: seq<AIR>, st: TSt, ar: ArgsRes, t1: TRes)
    requires ar.stop == Done && ArgsSim(f, k, k + |args|, args, AllInts(|args|), st, ar, t1)
    ensures t1.ctl == Done && Seen(t1.st.vm, ar.world) && |ar.vals| == |args|
    ensures IntsHold(t1.st.locals, Temps(k, |args|), ar.vals)
  {
    hide WordCache.Good, WordCache.Flat;
    var temps := Temps(k, |args|);
    forall i | 0 <= i < |args| ensures temps[i] in t1.st.locals && t1.st.locals[temps[i]] == I(ar.vals[i]) {
      assert Holds(t1.st.locals, temps[i], ar.vals[i], TInt, TypeOf(args[i]));
    }
  }

  lemma CallExec(h: Host, ts: TFuncs, fuel: nat, code: seq<T.Stmt<TVar>>, l: string, temps: seq<TVar>, exit: bool, st: TSt)
    ensures var t1 := T.Exec(h, ts, fuel, code, st);
            T.Exec(h, ts, fuel, code + [if exit then T.ReturnCall(l, temps) else T.CallFn(l, temps)], st) ==
            if t1.ctl != Done then t1
            else if fuel == 0 then T.TRes(Timeout, t1.st)
            else
              var i := T.Invoke(h, ts, fuel - 1, l, temps, t1.st);
              if exit && i.ctl == Done then i.(ctl := Ret) else i
  {
    var t1 := T.Exec(h, ts, fuel, code, st);
    var call := if exit then T.ReturnCall(l, temps) else T.CallFn(l, temps);
    ExecAppend(h, ts, fuel, code, [call], st);
    ExecOne(h, ts, fuel, call, t1.st);
  }

  /** The operands of a call, and the subroutine on their values. */
  lemma {:induction false} CallParts(h: Host, fs: seq<Func>, ts: TFuncs, fuel: nat, l: string, args: seq<IR>, f: Frame, a: seq<AIR>,
                                     k: nat, env: Env, st: TSt, ar: ArgsRes, t1: TRes)
    requires Linked(fs, fs, ts) && CallFits(l, args, fs)
    requires forall i {:trigger WellFormed(args[i], true, fs)} | 0 <= i < |args| :: WellFormed(args[i], true, fs)
    requires AnalyzeAll(args, f) == Some(a) && FrameOk(f) && Rel(f, env, st.locals, None)
    requires ar == EvalArgs(h, fs, fuel, args, env, View(st.vm))
    requires t1 == T.Exec(h, ts, fuel, CompileArgs(a, k, AllInts(|a|), k + |a|).stmts, st)
    requires WordCache.Good(st.vm.mem)
    ensures ar.world.exact ==> ArgsSim(f, k, k + |a|, a, AllInts(|a|), st, ar, t1)
    ensures ar.world.exact && ar.stop == Done && fuel > 0 ==>
              var c := Call(h, fs, fuel - 1, l, ar.vals, ar.world);
              c.world.exact ==> CallOk(c, T.Invoke(h, ts, fuel - 1, l, Temps(k, |a|), t1.st), t1.st)
    decreases fuel, args, 1, 0
  {
    hide WordCache.Good, WordCache.Flat;
    hide EvalArgs; hide T.Exec; hide CompileArgs; hide Call; hide T.Invoke; hide Find; hide WellFormed; hide AnalyzeAll;
    OperandsSim(h, fs, ts, fuel, args, f, a, k, AllInts(|a|), k + |a|, env, st);
    if ar.world.exact && ar.stop == Done && fuel > 0 {
      OperandInts(f, k, a, st, ar, t1);
      InvokeSim(h, fs, ts, fuel - 1, l, Temps(k, |a|), ar.vals, t1.st);
    }
  }

  lemma CallStmtUnfolds(h: Host, fs: seq<Func>, fuel: nat, l: string, args: seq<IR>, a: seq<AIR>, k: nat, want: Ty, exit: bool, env: Env, w: World)
    ensures var ar := EvalArgs(h, fs, fuel, args, env, w);
      Eval(h, fs, fuel, if exit then ExitTo(l, args) else Goto(l, args), env, w) ==
        if ar.stop != Done then Res(ar.stop, ar.env, ar.world)
        else if fuel == 0 then Res(Timeout, ar.env, ar.world)
        else
          var c := Call(h, fs, fuel - 1, l, ar.vals, ar.world);
          Res(if exit && c.ctl == Done then Ret else c.ctl, ar.env, c.world)
    ensures Compile(if exit then AExitTo(l, a) else AGoto(l, a), k, None, want).stmts ==
      CompileArgs(a, k, AllInts(|a|), k + |a|).stmts +
        [if exit then T.ReturnCall(l, Temps(k, |a|)) else T.CallFn(l, Temps(k, |a|))]
  {
    hide EvalArgs, Call, CompileArgs;
  }

  lemma CallGlue(h: Host, fs: seq<Func>, ts: TFuncs, fuel: nat, l: string, args: seq<IR>, f: Frame, a: seq<AIR>,
                 k: nat, want: Ty, exit: bool, env: Env, st: TSt, ar: ArgsRes, t1: TRes)
    requires ar == EvalArgs(h, fs, fuel, args, env, View(st.vm))
    requires t1 == T.Exec(h, ts, fuel, CompileArgs(a, k, AllInts(|a|), k + |a|).stmts, st)
    requires ar.world.exact ==> ArgsSim(f, k, k + |a|, a, AllInts(|a|), st, ar, t1)
    requires ar.world.exact && ar.stop == Done && fuel > 0 ==>
               var c := Call(h, fs, fuel - 1, l, ar.vals, ar.world);
               c.world.exact ==> CallOk(c, T.Invoke(h, ts, fuel - 1, l, Temps(k, |a|), t1.st), t1.st)
    requires WordCache.Good(st.vm.mem)
    ensures var r := Eval(h, fs, fuel, if exit then ExitTo(l, args) else Goto(l, args), env, View(st.vm));
            var t := T.Exec(h, ts, fuel, Compile(if exit then AExitTo(l, a) else AGoto(l, a), k, None, want).stmts, st);
            r.world.exact ==> Sim(f, k, TNone, None, want, st, r, t)
  {
    hide WordCache.Good, WordCache.Flat;
    hide EvalArgs; hide T.Exec; hide CompileArgs; hide Call; hide T.Invoke;
    hide Eval, Compile, Sim;
    CallStmtUnfolds(h, fs, fuel, l, args, a, k, want, exit, env, View(st.vm));
    var wants, temps := AllInts(|a|), Temps(k, |a|);
    CallExec(h, ts, fuel, CompileArgs(a, k, wants, k + |a|).stmts, l, temps, exit, st);
    if ar.stop != Done {
      if ar.world.exact { OperandStops(f, k, a, wants, TNone, None, want, st, ar, t1); }
    } else if fuel == 0 {
      if ar.world.exact { AfterCall(f, k, a, wants, TNone, want, st, ar, t1, OpRes(Timeout, ar.world), T.TRes(Timeout, t1.st), Timeout); }
    } else {
      var c := Call(h, fs, fuel - 1, l, ar.vals, ar.world);
      if c.world.exact {
        AfterCall(f, k, a, wants, TNone, want, st, ar, t1, c, T.Invoke(h, ts, fuel - 1, l, temps, t1.st),
                  if exit && c.ctl == Done then Ret else c.ctl);
      }
    }
  }

  lemma {:induction false} GotoSim(h: Host, fs: seq<Func>, ts: TFuncs, fuel: nat, e: IR, valued: bool, f: Frame, a: AIR,
      k: nat, out: Option<TVar>, want: Ty, env: Env, st: TSt)
    requires e.Goto? || e.ExitTo?
    requires WellFormed(e, valued, fs) && Linked(fs, fs, ts) && (out.Some? ==> valued)
    requires Analyze(e, f) == Some(a) && FrameOk(f) && Rel(f, env, st.locals, None)
    requires WordCache.Good(st.vm.mem)
    ensures var r := Eval(h, fs, fuel, e, env, View(st.vm));
            r.world.exact ==>
              && Sim(f, k, TypeOf(a), out, want, st, r, T.Exec(h, ts, fuel, Compile(a, k, out, want).stmts, st))
              && (valued ==> r.ctl != Done)
    decreases fuel, e, 0, 0
  {
    hide WordCache.Good, WordCache.Flat;
    hide EvalArgs; hide T.Exec; hide CompileArgs; hide Call; hide T.Invoke;
    var n := |a.args|;
    var ar := EvalArgs(h, fs, fuel, e.args, env, View(st.vm));
    var t1 := T.Exec(h, ts, fuel, CompileArgs(a.args, k, AllInts(n), k + n).stmts, st);
    CallParts(h, fs, ts, fuel, e.lbl, e.args, f, a.args, k, env, st, ar, t1);
    CallGlue(h, fs, ts, fuel, e.lbl, e.args, f, a.args, k, want, e.ExitTo?, env, st, ar, t1);
  }
}
