/** The identifiers that end up in the emitted Python text, and when they keep the compiler correct. */
module Naming {
  import opened Wrappers
  import opened Machine
  import opened SourceIR
  import opened PythonTarget
  import opened Compiler
  import OperationProof
  import WordCache
  import CompilerProof
  import opened CompilerTheorem
  import opened Rename

  // ---- decimal numerals ---------------------------------------------------------------------

  function Digit(n: nat): char
    requires n < 10
  {
    ('0' as int + n) as char
  }

  /** `str(n)`. */
  function Dec(n: nat): (s: string)
    ensures s != [] && (n < 10 <==> |s| == 1)
  {
    if n < 10 then [Digit(n)] else Dec(n / 10) + [Digit(n % 10)]
  }

  /** The number that digits stand for, read from the left. */
  function NumberOf(s: string): int {
    if s == [] then 0 else 10 * NumberOf(s[..|s| - 1]) + (s[|s| - 1] as int - '0' as int)
  }

  /** The decimal numeral of the number, without leading zeros. */
  lemma {:induction false} DecIs(n: nat)
    ensures NumberOf(Dec(n)) == n && (|Dec(n)| > 1 ==> Dec(n)[0] != '0')
  {
    if n >= 10 {
      DecIs(n / 10);
      assert Dec(n)[..|Dec(n)| - 1] == Dec(n / 10);
      if |Dec(n / 10)| == 1 { assert Dec(n / 10) == [Digit(n / 10)]; }
    } else {
      assert [Digit(n)][..0] == [];
    }
  }

  lemma {:induction false} DecDigits(n: nat)
    ensures forall i :: 0 <= i < |Dec(n)| ==> '0' <= Dec(n)[i] <= '9'
  {
    if n >= 10 { DecDigits(n / 10); }
  }

  lemma {:induction false} DecInjective(m: nat, n: nat)
    requires Dec(m) == Dec(n)
    ensures m == n
  {
    var s, t := Dec(m), Dec(n);
    assert s[|s| - 1] == Digit(m % 10) && t[|t| - 1] == Digit(n % 10);
    if m >= 10 {
      assert s[..|s| - 1] == Dec(m / 10) && t[..|t| - 1] == Dec(n / 10);
      DecInjective(m / 10, n / 10);
    }
  }

  // ---- rendering ------------------------------------------------------------------------------

  /** A name with a slot number after it. */
  function Suffixed(x: string, slot: nat): string {
    x + "_" + Dec(slot)
  }

  /** `VariableExecutor.out_name`, `freshvar`, and the names fixed in the templates. */
  function Render(v: TVar): string {
    match v
    case Temp(id) => "var__" + Dec(id)
    case User(x, slot) => "__user_" + (if slot > 0 then Suffixed(x, slot) else x)
    case Scratch(s) => s
  }

  lemma SuffixSplit(x: string, s: nat, y: string, t: nat)
    requires Suffixed(x, s) == Suffixed(y, t)
    ensures x == y && s == t
  {
    DecDigits(s);
    DecDigits(t);
    var a, b := Suffixed(x, s), Suffixed(y, t);
    assert a[|x|] == '_' && b[|y|] == '_';
    assert forall i :: |x| < i < |a| ==> a[i] == Dec(s)[i - |x| - 1];
    assert forall i :: |y| < i < |b| ==> b[i] == Dec(t)[i - |y| - 1];
    assert |x| == |y|;
    assert a[..|x|] == x && b[..|y|] == y;
    assert a[|x| + 1..] == Dec(s) && b[|y| + 1..] == Dec(t);
    DecInjective(s, t);
  }

  /** Two bindings share an identifier exactly when one has slot 0 and is called like the other
      with its slot number appended. */
  lemma CollisionIff(x: string, s: nat, y: string, t: nat)
    ensures Render(User(x, s)) == Render(User(y, t)) && User(x, s) != User(y, t) <==>
            (s == 0 && t > 0 && x == Suffixed(y, t)) || (t == 0 && s > 0 && y == Suffixed(x, s))
  {
    var p := "__user_";
    var a, b := if s > 0 then Suffixed(x, s) else x, if t > 0 then Suffixed(y, t) else y;
    assert (p + a)[|p|..] == a && (p + b)[|p|..] == b;
    if s > 0 && t > 0 && a == b { SuffixSplit(x, s, y, t); }
    if s == 0 && t > 0 { assert |Suffixed(y, t)| > |y|; }
    if t == 0 && s > 0 { assert |Suffixed(x, s)| > |x|; }
  }

  const TEMPLATE_NAMES := {"val", "preimage", "image"}

  /** The locals of a program whose variables are called `names`. */
  predicate InProgram(names: set<string>, v: TVar) {
    match v
    case Temp(_) => true
    case User(x, _) => x in names
    case Scratch(s) => s in TEMPLATE_NAMES
  }

  function Within(names: set<string>): TVar -> bool {
    v => InProgram(names, v)
  }

  /** No name of the program is another one with `_` and a positive number after it. */
  ghost predicate Separated(names: set<string>) {
    forall x, y, t: nat {:trigger x in names, Suffixed(y, t)} :: x in names && y in names && t > 0 ==> x != Suffixed(y, t)
  }

  lemma RenderKinds(u: TVar, v: TVar, names: set<string>)
    requires InProgram(names, u) && InProgram(names, v) && Render(u) == Render(v)
    ensures u.Temp? == v.Temp? && u.User? == v.User?
    ensures u.Temp? || u.Scratch? ==> u == v
  {
    if u.Temp? && v.Temp? {
      var p := "var__";
      assert (p + Dec(u.id))[|p|..] == Dec(u.id) && (p + Dec(v.id))[|p|..] == Dec(v.id);
      DecInjective(u.id, v.id);
    }
    if u.Temp? { assert Render(u)[2] == 'r' && Render(u)[0] == 'v'; }
    if v.Temp? { assert Render(v)[2] == 'r' && Render(v)[0] == 'v'; }
    if u.User? { assert Render(u)[0] == '_'; }
    if v.User? { assert Render(v)[0] == '_'; }
    if u.Scratch? { assert Render(u) in TEMPLATE_NAMES; assert Render(u)[0] != '_' && (Render(u)[0] == 'v' ==> Render(u)[2] == 'l'); }
    if v.Scratch? { assert Render(v) in TEMPLATE_NAMES; assert Render(v)[0] != '_' && (Render(v)[0] == 'v' ==> Render(v)[2] == 'l'); }
  }

  /** Identifiers stand for different locals exactly when the names of the program are separated. */
  lemma RenderInjectiveIff(names: set<string>)
    ensures InjectiveOn(Render, Within(names)) <==> Separated(names)
  {
    var p := Within(names);
    if Separated(names) {
      forall u, v | p(u) && p(v) && Render(u) == Render(v) ensures u == v {
        RenderKinds(u, v, names);
        if u.User? { CollisionIff(u.name, u.slot, v.name, v.slot); }
      }
    } else {
      var x, y, t: nat :| x in names && y in names && t > 0 && x == Suffixed(y, t);
      CollisionIff(x, 0, y, t);
      assert p(User(x, 0)) && p(User(y, t)) && Render(User(x, 0)) == Render(User(y, t));
    }
  }

  // ---- emitted code uses only the program's names ------------------------------------------------

  /** Every name bound or used in `e`. */
  ghost predicate NamesIn(e: IR, names: set<string>)
    decreases e
  {
    match e
    case Var(x) => x in names
    case Apply(_, args) => forall i | 0 <= i < |args| :: NamesIn(args[i], names)
    case With(x, val, body) => x in names && NamesIn(val, names) && NamesIn(body, names)
    case Set(x, val) => x in names && NamesIn(val, names)
    case Seq(es) => forall i | 0 <= i < |es| :: NamesIn(es[i], names)
    case If(t, b) => NamesIn(t, names) && NamesIn(b, names)
    case IfElse(t, b, o) => NamesIn(t, names) && NamesIn(b, names) && NamesIn(o, names)
    case Repeat(x, s, r, _, b) => x in names && NamesIn(s, names) && NamesIn(r, names) && NamesIn(b, names)
    case Goto(_, args) => forall i | 0 <= i < |args| :: NamesIn(args[i], names)
    case ExitTo(_, args) => forall i | 0 <= i < |args| :: NamesIn(args[i], names)
    case Label(_, ps, b) => (forall i | 0 <= i < |ps| :: ps[i] in names) && NamesIn(b, names)
    case _ => true
  }

  ghost predicate ANamesIn(a: AIR, names: set<string>)
    decreases a
  {
    match a
    case AVar(x, _) => x in names
    case AApply(_, args) => forall i | 0 <= i < |args| :: ANamesIn(args[i], names)
    case AWith(x, _, val, body) => x in names && ANamesIn(val, names) && ANamesIn(body, names)
    case ASet(x, _, val) => x in names && ANamesIn(val, names)
    case ASeq(es) => forall i | 0 <= i < |es| :: ANamesIn(es[i], names)
    case AIf(t, b) => ANamesIn(t, names) && ANamesIn(b, names)
    case AIfElse(t, b, o) => ANamesIn(t, names) && ANamesIn(b, names) && ANamesIn(o, names)
    case ARepeat(x, _, s, r, _, b) => x in names && ANamesIn(s, names) && ANamesIn(r, names) && ANamesIn(b, names)
    case AGoto(_, args) => forall i | 0 <= i < |args| :: ANamesIn(args[i], names)
    case AExitTo(_, args) => forall i | 0 <= i < |args| :: ANamesIn(args[i], names)
    case ALabel(_, ps, b) => AllIn(Within(names), ps) && ANamesIn(b, names)
    case _ => true
  }

  lemma {:induction false} ParamVarsIn(f: Frame, ps: seq<string>, names: set<string>)
    requires ParamVars(f, ps).Some? && forall i | 0 <= i < |ps| :: ps[i] in names
    ensures AllIn(Within(names), ParamVars(f, ps).value)
  {
    if ps != [] { ParamVarsIn(f, ps[1..], names); }
  }

  lemma {:induction false} AnalyzeNames(e: IR, f: Frame, a: AIR, names: set<string>)
    requires Analyze(e, f) == Some(a) && NamesIn(e, names)
    ensures ANamesIn(a, names)
    decreases e, 0
  {
    match e
    case Apply(_, args) => AnalyzeAllNames(args, f, a.args, names);
    case With(x, val, body) => AnalyzeNames(val, f, a.val, names); AnalyzeNames(body, EnterOne(f, x), a.body, names);
    case Set(_, val) => AnalyzeNames(val, f, a.val, names);
    case Seq(es) => AnalyzeAllNames(es, f, a.es, names);
    case If(t, b) => AnalyzeNames(t, f, a.test, names); AnalyzeNames(b, f, a.body, names);
    case IfElse(t, b, o) =>
      AnalyzeNames(t, f, a.test, names);
      AnalyzeNames(b, f, a.body, names);
      AnalyzeNames(o, f, a.orelse, names);
    case Repeat(x, s, r, _, b) =>
      AnalyzeNames(s, f, a.start, names);
      AnalyzeNames(r, f, a.rounds, names);
      AnalyzeNames(b, EnterOne(f, x), a.body, names);
    case Goto(_, args) => AnalyzeAllNames(args, f, a.args, names);
    case ExitTo(_, args) => AnalyzeAllNames(args, f, a.args, names);
    case Label(_, ps, b) =>
      ParamVarsIn(Enter(EmptyFrame, ps), ps, names);
      AnalyzeNames(b, Enter(EmptyFrame, ps), a.body, names);
    case _ =>
  }

  lemma {:induction false} AnalyzeAllNames(es: seq<IR>, f: Frame, a: seq<AIR>, names: set<string>)
    requires AnalyzeAll(es, f) == Some(a) && forall i | 0 <= i < |es| :: NamesIn(es[i], names)
    ensures forall i | 0 <= i < |a| :: ANamesIn(a[i], names)
    decreases es, 1
  {
    if es != [] {
      AnalyzeNames(es[0], f, a[0], names);
      AnalyzeAllNames(es[1..], f, a[1..], names);
      forall i | 0 <= i < |a| ensures ANamesIn(a[i], names) {
        if i > 0 { assert a[i] == a[1..][i - 1]; }
      }
    }
  }

  lemma {:induction false} UsesAppend(p: TVar -> bool, s: seq<Stmt<TVar>>, t: seq<Stmt<TVar>>)
    requires CodeUses(p, s) && CodeUses(p, t)
    ensures CodeUses(p, s + t)
  {
    if s == [] {
      assert s + t == t;
    } else {
      assert (s + t)[1..] == s[1..] + t;
      UsesAppend(p, s[1..], t);
    }
  }

  lemma UsesOne(p: TVar -> bool, s: Stmt<TVar>)
    requires Uses(p, s)
    ensures CodeUses(p, [s])
  {
    assert [s][1..] == [];
  }

  lemma UsesTwo(p: TVar -> bool, s: Stmt<TVar>, t: Stmt<TVar>)
    requires Uses(p, s) && Uses(p, t)
    ensures CodeUses(p, [s, t])
  {
    assert [s, t][1..] == [t];
    UsesOne(p, t);
  }

  lemma {:induction false} PushesUse(p: TVar -> bool, a: seq<TVar>)
    requires AllIn(p, a)
    ensures CodeUses(p, Pushes(a))
  {
    if a != [] {
      PushesUse(p, a[1..]);
      UsesOne(p, PushInt(a[0]));
      UsesAppend(p, Pushes(a[1..]), [PushInt(a[0])]);
    }
  }

  predicate OutIn(names: set<string>, out: Option<TVar>) {
    out.Some? ==> InProgram(names, out.value)
  }

  lemma DeliverUses(res: Option<Expr<TVar>>, have: Ty, out: Option<TVar>, want: Ty, names: set<string>)
    requires OutIn(names, out) && (res.Some? ==> ExprUses(Within(names), res.value))
    ensures CodeUses(Within(names), Deliver(res, have, out, want))
  {
    if res.Some? { UsesOne(Within(names), Deliver(res, have, out, want)[0]); }
  }

  predicate Templates(p: TVar -> bool) {
    p(Scratch("val")) && p(Scratch("preimage")) && p(Scratch("image"))
  }

  /** Templates that are one expression. */
  lemma EmitExprUses(op: Op, a: seq<TVar>, p: TVar -> bool)
    requires |a| == Arity(op) && AllIn(p, a) && Emit(op, a).stmts == []
    ensures Emit(op, a).res.Some? ==> ExprUses(p, Emit(op, a).res.value)
  {
    hide CodeUses; hide Pushes; hide Uses;
    assert forall i :: 0 <= i < |a| ==> p(a[i]);
  }

  /** Templates with statements: these, and the result. */
  lemma MemoryStmtUses(op: Op, a: seq<TVar>, p: TVar -> bool)
    requires |a| == Arity(op) && AllIn(p, a) && Templates(p)
    requires op.Sha3_64? || op.Sha3_32? || op.CalldataLoad? || op.CalldataCopy? || op.MLoad? || op.MStore? || op.SStore?
    ensures var m := Emit(op, a); forall i :: 0 <= i < |m.stmts| ==> Uses(p, m.stmts[i])
    ensures Emit(op, a).stmts != [] && Emit(op, a).res.Some? ==> ExprUses(p, Emit(op, a).res.value)
  {
    hide CodeUses; hide Pushes;
    assert forall i :: 0 <= i < |a| ==> p(a[i]);
    if op.Sha3_64? {
      assert AllIn(p, [a[0], a[1]]);
    } else if op.Sha3_32? {
      assert AllIn(p, [a[0]]);
    }
  }

  lemma PlainStmtUses(op: Op, a: seq<TVar>, p: TVar -> bool)
    requires |a| == Arity(op) && AllIn(p, a) && !op.Opcode?
    requires !(op.Sha3_64? || op.Sha3_32? || op.CalldataLoad? || op.CalldataCopy? || op.MLoad? || op.MStore? || op.SStore?)
    ensures var m := Emit(op, a); forall i :: 0 <= i < |m.stmts| ==> Uses(p, m.stmts[i])
    ensures Emit(op, a).stmts != [] ==> Emit(op, a).res.None?
  {
    hide CodeUses; hide Pushes; hide ExprUses;
    assert forall i :: 0 <= i < |a| ==> p(a[i]);
  }

  lemma EmitStmtUses(op: Op, a: seq<TVar>, p: TVar -> bool)
    requires |a| == Arity(op) && AllIn(p, a) && Templates(p) && !op.Opcode?
    ensures var m := Emit(op, a); forall i :: 0 <= i < |m.stmts| ==> Uses(p, m.stmts[i])
    ensures Emit(op, a).stmts != [] && Emit(op, a).res.Some? ==> ExprUses(p, Emit(op, a).res.value)
  {
    hide Emit, Uses, ExprUses;
    if op.Sha3_64? || op.Sha3_32? || op.CalldataLoad? || op.CalldataCopy? || op.MLoad? || op.MStore? || op.SStore? {
      MemoryStmtUses(op, a, p);
    } else {
      PlainStmtUses(op, a, p);
    }
  }

  lemma {:induction false} AllUse(p: TVar -> bool, ss: seq<Stmt<TVar>>)
    requires forall i :: 0 <= i < |ss| ==> Uses(p, ss[i])
    ensures CodeUses(p, ss)
  {
    hide Uses;
    if ss != [] { AllUse(p, ss[1..]); }
  }

  /** The statements of a template, and its result. */
  lemma EmitUses(op: Op, a: seq<TVar>, names: set<string>)
    requires |a| == Arity(op) && AllIn(Within(names), a)
    ensures CodeUses(Within(names), Emit(op, a).stmts)
    ensures Emit(op, a).res.Some? ==> ExprUses(Within(names), Emit(op, a).res.value)
  {
    var p := Within(names);
    assert Templates(p);
    if op.Opcode? {
      PushesUse(p, a);
      UsesOne(p, CallOpcode(op.code, op.consumes, op.produces));
      UsesAppend(p, Pushes(a), [CallOpcode(op.code, op.consumes, op.produces)]);
    } else {
      hide CodeUses; hide Emit; hide Uses; hide ExprUses;
      EmitStmtUses(op, a, p);
      AllUse(p, Emit(op, a).stmts);
      if Emit(op, a).stmts == [] { EmitExprUses(op, a, p); }
    }
  }

  lemma TempsIn(k: nat, n: nat, names: set<string>)
    ensures AllIn(Within(names), Temps(k, n))
  {}

  lemma {:induction false} CompileUses(a: AIR, k: nat, out: Option<TVar>, want: Ty, names: set<string>)
    requires ANamesIn(a, names) && OutIn(names, out)
    ensures CodeUses(Within(names), Compile(a, k, out, want).stmts)
    decreases a, 2
  {
    hide CodeUses; hide Emit; hide Deliver; hide CompileArgs; hide CompileSeq;
    var p := Within(names);
    match a
    case AInt(n) => DeliverUses(Some(Lit(n)), TInt, out, want, names);
    case AVar(x, s) => DeliverUses(Some(Name(User(x, s))), TInt, out, want, names);
    case AApply(op, args) =>
      var n := |args|;
      var c := CompileArgs(args, k, OperandTypes(op, n), k + n);
      CompileArgsUses(args, k, OperandTypes(op, n), k + n, names);
      if n == Arity(op) {
        var m := Emit(op, Temps(k, n));
        TempsIn(k, n, names);
        EmitUses(op, Temps(k, n), names);
        DeliverUses(m.res, TypeOf(a), out, want, names);
        UsesAppend(p, m.stmts, Deliver(m.res, TypeOf(a), out, want));
        UsesAppend(p, c.stmts, m.stmts + Deliver(m.res, TypeOf(a), out, want));
      }
    case AWith(x, s, val, body) =>
      var v := Compile(val, k, Some(User(x, s)), TInt);
      CompileUses(val, k, Some(User(x, s)), TInt, names);
      CompileUses(body, v.next, out, want, names);
      UsesAppend(p, v.stmts, Compile(body, v.next, out, want).stmts);
    case ASet(x, s, val) => CompileUses(val, k, Some(User(x, s)), TInt, names);
    case ASeq(es) => if es == [] { UsesOne(p, PassStmt); } else { CompileSeqUses(es, k, out, want, names); }
    case AIf(_, _) => BranchUses(a, k, out, want, names);
    case AIfElse(_, _, _) => BranchUses(a, k, out, want, names);
    case ARepeat(_, _, _, _, _, _) => LoopUses(a, k, out, want, names);
    case AGoto(l, args) =>
      TempsIn(k, |args|, names);
      CompileArgsUses(args, k, AllInts(|args|), k + |args|, names);
      UsesOne(p, CallFn(l, Temps(k, |args|)));
      UsesAppend(p, CompileArgs(args, k, AllInts(|args|), k + |args|).stmts, [CallFn(l, Temps(k, |args|))]);
    case AExitTo(l, args) =>
      TempsIn(k, |args|, names);
      CompileArgsUses(args, k, AllInts(|args|), k + |args|, names);
      UsesOne(p, ReturnCall(l, Temps(k, |args|)));
      UsesAppend(p, CompileArgs(args, k, AllInts(|args|), k + |args|).stmts, [ReturnCall(l, Temps(k, |args|))]);
    case AExitToReturnPc => UsesOne(p, ReturnNone);
    case ALabel(_, _, _) => UsesNone(p);
  }

  lemma UsesNone(p: TVar -> bool)
    ensures CodeUses(p, [])
  {}

  lemma {:induction false} BranchUses(a: AIR, k: nat, out: Option<TVar>, want: Ty, names: set<string>)
    requires (a.AIf? || a.AIfElse?) && ANamesIn(a, names) && OutIn(names, out)
    ensures CodeUses(Within(names), Compile(a, k, out, want).stmts)
    decreases a, 1
  {
    hide CodeUses;
    var p := Within(names);
    var t := Compile(a.test, k + 1, Some(Temp(k)), TInt);
    var b := Compile(a.body, t.next, out, want);
    CompileUses(a.test, k + 1, Some(Temp(k)), TInt, names);
    CompileUses(a.body, t.next, out, want, names);
    var els := if a.AIf? then [] else Compile(a.orelse, b.next, out, want).stmts;
    if a.AIf? { UsesNone(p); } else { CompileUses(a.orelse, b.next, out, want, names); }
    UsesOne(p, IfStmt(Temp(k), b.stmts, els));
    UsesAppend(p, t.stmts, [IfStmt(Temp(k), b.stmts, els)]);
  }

  lemma {:induction false} LoopUses(a: AIR, k: nat, out: Option<TVar>, want: Ty, names: set<string>)
    requires a.ARepeat? && ANamesIn(a, names)
    ensures CodeUses(Within(names), Compile(a, k, out, want).stmts)
    decreases a, 1
  {
    hide CodeUses;
    var p := Within(names);
    var c := Compile(a.start, k + 2, Some(Temp(k)), TInt);
    var r := Compile(a.rounds, c.next, Some(Temp(k + 1)), TInt);
    var b := Compile(a.body, r.next, None, TNone);
    CompileUses(a.start, k + 2, Some(Temp(k)), TInt, names);
    CompileUses(a.rounds, c.next, Some(Temp(k + 1)), TInt, names);
    CompileUses(a.body, r.next, None, TNone, names);
    var s0, s1 := AssertAtMost(Temp(k + 1), a.bound), ForRange(User(a.name, a.slot), Temp(k), Temp(k + 1), b.stmts);
    UsesTwo(p, s0, s1);
    UsesAppend(p, r.stmts, [s0, s1]);
    UsesAppend(p, c.stmts, r.stmts + [s0, s1]);
  }

  lemma {:induction false} CompileArgsUses(args: seq<AIR>, base: nat, wants: seq<Ty>, k: nat, names: set<string>)
    requires |wants| == |args| && forall i | 0 <= i < |args| :: ANamesIn(args[i], names)
    ensures CodeUses(Within(names), CompileArgs(args, base, wants, k).stmts)
    decreases args, 1
  {
    hide CodeUses; hide Compile; hide ANamesIn;
    if args == [] {
      UsesNone(Within(names));
    } else {
      var n := |args| - 1;
      var c := Compile(args[n], k, Some(Temp(base + n)), wants[n]);
      CompileUses(args[n], k, Some(Temp(base + n)), wants[n], names);
      CompileArgsUses(args[..n], base, wants[..n], c.next, names);
      UsesAppend(Within(names), c.stmts, CompileArgs(args[..n], base, wants[..n], c.next).stmts);
    }
  }

  lemma {:induction false} CompileSeqUses(es: seq<AIR>, k: nat, out: Option<TVar>, want: Ty, names: set<string>)
    requires es != [] && OutIn(names, out) && forall i | 0 <= i < |es| :: ANamesIn(es[i], names)
    ensures CodeUses(Within(names), CompileSeq(es, k, out, want).stmts)
    decreases es, 1
  {
    hide CodeUses; hide Compile; hide ANamesIn;
    if |es| == 1 {
      CompileUses(es[0], k, out, want, names);
    } else {
      var c := Compile(es[0], k, None, TNone);
      CompileUses(es[0], k, None, TNone, names);
      CompileSeqUses(es[1..], c.next, out, want, names);
      UsesAppend(Within(names), c.stmts, CompileSeq(es[1..], c.next, out, want).stmts);
    }
  }

  lemma {:induction false} LabelsNames(a: AIR, names: set<string>)
    requires ANamesIn(a, names)
    ensures forall l :: l in ALabels(a) ==> ANamesIn(l, names)
    decreases a, 0
  {
    match a
    case AApply(_, args) => AllLabelsNames(args, names);
    case AWith(_, _, val, body) => LabelsNames(val, names); LabelsNames(body, names);
    case ASet(_, _, val) => LabelsNames(val, names);
    case ASeq(es) => AllLabelsNames(es, names);
    case AIf(t, b) => LabelsNames(t, names); LabelsNames(b, names);
    case AIfElse(t, b, o) => LabelsNames(t, names); LabelsNames(b, names); LabelsNames(o, names);
    case ARepeat(_, _, s, r, _, b) => LabelsNames(s, names); LabelsNames(r, names); LabelsNames(b, names);
    case AGoto(_, args) => AllLabelsNames(args, names);
    case AExitTo(_, args) => AllLabelsNames(args, names);
    case ALabel(_, _, b) => LabelsNames(b, names);
    case _ =>
  }

  lemma {:induction false} AllLabelsNames(es: seq<AIR>, names: set<string>)
    requires forall i | 0 <= i < |es| :: ANamesIn(es[i], names)
    ensures forall l :: l in ALabelsAll(es) ==> ANamesIn(l, names)
    decreases es, 1
  {
    hide ANamesIn;
    if es != [] {
      LabelsNames(es[0], names);
      AllLabelsNames(es[1..], names);
    }
  }

  lemma {:induction false} FuncsUses(ls: seq<AIR>, k: nat, names: set<string>)
    requires forall l :: l in ls ==> l.ALabel? && ANamesIn(l, names)
    ensures FuncsUse(Within(names), CompileFuncs(ls, k))
  {
    if ls != [] {
      assert ls[0] in ls;
      CompileUses(ls[0].body, k, None, TNone, names);
      FuncsUses(ls[1..], Compile(ls[0].body, k, None, TNone).next, names);
    }
  }

  // ---- the theorem on the text ---------------------------------------------------------------------

  /** The program as Python sees it: locals are strings. */
  function StartText(h: Host, p: Program, fuel: nat, stack: seq<Raw>, vm: Vm): TRes<string> {
    Exec(h, MapFuncs(Render, p.funcs), fuel, MapCode(Render, p.main), St(map[], stack, vm))
  }

  /** The emitted text computes what the IR means if no name of the program is another one with
      `_` and a positive number after it. */
  lemma TextCorrect(h: Host, main: IR, a: AIR, names: set<string>, fuel: nat, stack: seq<Raw>, vm: Vm)
    requires CompilerProof.WellFormed(main, false, Labels(main)) && Analyze(main, EmptyFrame) == Some(a)
    requires NamesIn(main, names) && Separated(names) && WordCache.Good(vm.mem)
    ensures var r, t := Run(h, fuel, main, OperationProof.View(vm)), StartText(h, CompileProgram(a), fuel, stack, vm);
            r.world.exact ==> t.ctl == OperationProof.Erase(r.ctl) && OperationProof.Seen(t.st.vm, r.world)
  {
    hide Eval; hide Exec; hide Analyze; hide CompilerProof.WellFormed; hide Compile; hide WordCache.Good; hide WordCache.Flat;
    var p := CompileProgram(a);
    CompilerCorrect(h, main, a, fuel, stack, vm);
    AnalyzeNames(main, EmptyFrame, a, names);
    CompileUses(a, 0, None, TNone, names);
    LabelsNames(a, names);
    LabelsAreLabels(a);
    FuncsUses(ALabels(a), Compile(a, 0, None, TNone).next, names);
    RenderInjectiveIff(names);
    RenameExec(Render, Within(names), h, p.funcs, fuel, p.main, St(map[], stack, vm), St(map[], stack, vm));
  }

  // ---- and without the condition --------------------------------------------------------------------

  /** `with x_1 = 7: with x = 9: sstore(0, x_1)` */
  const CLASH := With("x_1", Int(7), With("x", Int(9), Apply(SStore, [Int(0), Var("x_1")])))

  const CLASH_ANALYZED :=
    AWith("x_1", 0, AInt(7), AWith("x", 1, AInt(9), AApply(SStore, [AInt(0), AVar("x_1", 0)])))

  lemma ClashAnalyzed()
    ensures Analyze(CLASH, EmptyFrame) == Some(CLASH_ANALYZED)
  {
    var f := EnterOne(EnterOne(EmptyFrame, "x_1"), "x");
    assert f.slots["x_1"] == 0 by { assert "x_1" != "x"; }
    var i0, v, a0, av := Int(0), Var("x_1"), AInt(0), AVar("x_1", 0);
    assert Analyze(v, f) == Some(av) && Analyze(i0, f) == Some(a0);
    assert [i0, v][1..] == [v] && [v][1..] == [] && [av] + [] == [av] && [a0] + [av] == [a0, av];
    assert AnalyzeAll([v], f) == Some([av]);
    assert AnalyzeAll([i0, v], f) == Some([a0, av]);
    assert Analyze(Apply(SStore, [i0, v]), f) == Some(AApply(SStore, [a0, av]));
  }

  lemma ClashOperands()
    ensures CompileArgs([AInt(0), AVar("x_1", 0)], 0, OperandTypes(SStore, 2), 2) ==
            Code([Assign(Temp(1), Name(User("x_1", 0))), Assign(Temp(0), Lit(0))], 2)
  {
    var a0, av, wants := AInt(0), AVar("x_1", 0), OperandTypes(SStore, 2);
    assert [a0, av][..1] == [a0] && [a0][..0] == [];
    assert Compile(a0, 2, Some(Temp(0)), TInt) == Code([Assign(Temp(0), Lit(0))], 2);
    assert Compile(av, 2, Some(Temp(1)), TInt) == Code([Assign(Temp(1), Name(User("x_1", 0)))], 2);
    var first := CompileArgs([a0], 0, wants[..1], 2);
    assert CompileArgs([a0][..0], 0, wants[..1][..0], 2) == Code([], 2);
    assert first == Code([Assign(Temp(0), Lit(0))], 2) by {
      assert [Assign(Temp(0), Lit(0))] + [] == [Assign(Temp(0), Lit(0))];
    }
  }

  const CLASH_CODE: seq<Stmt<TVar>> :=
    [Assign(User("x_1", 0), Lit(7)), Assign(User("x", 1), Lit(9)), Assign(Temp(1), Name(User("x_1", 0))),
     Assign(Temp(0), Lit(0)), RaiseIfStatic, SetStorage(Temp(0), Temp(1))]

  const CLASH_STORE: AIR := AApply(SStore, [AInt(0), AVar("x_1", 0)])

  lemma ClashStoreCompiled()
    ensures Compile(CLASH_STORE, 0, None, TNone).stmts ==
            [Assign(Temp(1), Name(User("x_1", 0))), Assign(Temp(0), Lit(0)), RaiseIfStatic, SetStorage(Temp(0), Temp(1))]
  {
    hide CompileArgs; hide CompileSeq;
    ClashOperands();
    var temps := Temps(0, 2);
    assert Emit(SStore, temps).stmts == [RaiseIfStatic, SetStorage(Temp(0), Temp(1))];
  }

  lemma ClashCompiled()
    ensures CompileProgram(CLASH_ANALYZED) == Program(CLASH_CODE, [])
  {
    hide CompileArgs; hide CompileSeq; hide Emit;
    ClashStoreCompiled();
    assert Compile(AInt(9), 0, Some(User("x", 1)), TInt) == Code([Assign(User("x", 1), Lit(9))], 0);
    assert Compile(AInt(7), 0, Some(User("x_1", 0)), TInt) == Code([Assign(User("x_1", 0), Lit(7))], 0);
    var inner := Compile(AWith("x", 1, AInt(9), CLASH_STORE), 0, None, TNone);
    assert inner.stmts == [Assign(User("x", 1), Lit(9))] + Compile(CLASH_STORE, 0, None, TNone).stmts;
    assert Compile(CLASH_ANALYZED, 0, None, TNone).stmts == [Assign(User("x_1", 0), Lit(7))] + inner.stmts;
    assert [AInt(0), AVar("x_1", 0)][1..] == [AVar("x_1", 0)] && [AVar("x_1", 0)][1..] == [];
    assert ALabelsAll([AVar("x_1", 0)]) == [] && ALabelsAll([AInt(0), AVar("x_1", 0)]) == [];
  }

  lemma {:induction false} MapCodeAt<K, L>(f: K -> L, ss: seq<Stmt<K>>, i: nat)
    requires i < |ss|
    ensures MapCode(f, ss)[i] == MapStmt(f, ss[i])
  {
    if i > 0 { MapCodeAt(f, ss[1..], i - 1); }
  }

  lemma StoreText(h: Host, fuel: nat, v: string, st: St<string>)
    requires !h.isStatic && v in st.locals && st.locals[v] == I(9) && v != "var__1" && v != "var__0"
    ensures var r := Exec(h, [], fuel, [Assign("var__1", Name(v)), Assign("var__0", Lit(0)), RaiseIfStatic, SetStorage("var__0", "var__1")], st);
            r.ctl == Done && r.st.vm == st.vm.(storage := st.vm.storage[0 := 9])
  {
    var s1, s2, s3, s4: Stmt<string> := Assign("var__1", Name(v)), Assign("var__0", Lit(0)), RaiseIfStatic, SetStorage("var__0", "var__1");
    assert [s1, s2, s3, s4] == [s1, s2] + [s3, s4];
    OperationProof.ExecAppend(h, [], fuel, [s1, s2], [s3, s4], st);
    OperationProof.ExecTwo(h, [], fuel, s1, s2, st);
    var st2 := Exec(h, [], fuel, [s1, s2], st).st;
    assert "var__1" != "var__0";
    assert st2.locals["var__1"] == I(9) && st2.locals["var__0"] == I(0);
    OperationProof.ExecTwo(h, [], fuel, s3, s4, st2);
  }

  lemma ClashNames()
    ensures Render(User("x", 1)) == "__user_x_1" == Render(User("x_1", 0))
    ensures Render(Temp(1)) == "var__1" && Render(Temp(0)) == "var__0"
    ensures "__user_x_1" != "var__1" && "__user_x_1" != "var__0"
  {
    assert Dec(1) == "1" && Dec(0) == "0";
    assert "__user_x_1"[0] == '_' && "var__1"[0] == 'v' && "var__0"[0] == 'v';
  }

  const CLASH_TAIL: seq<Stmt<string>> :=
    [Assign("var__1", Name("__user_x_1")), Assign("var__0", Lit(0)), RaiseIfStatic, SetStorage("var__0", "var__1")]

  lemma ClashRendered()
    ensures MapCode(Render, CLASH_CODE) == [Assign("__user_x_1", Lit(7)), Assign("__user_x_1", Lit(9))] + CLASH_TAIL
  {
    ClashNames();
    hide Render; hide MapCode;
    var code := MapCode(Render, CLASH_CODE);
    forall i: nat | i < 6 ensures code[i] == MapStmt(Render, CLASH_CODE[i]) { MapCodeAt(Render, CLASH_CODE, i); }
    assert code[0] == Assign("__user_x_1", Lit(7)) && code[1] == Assign("__user_x_1", Lit(9));
    assert code[2] == CLASH_TAIL[0] && code[3] == CLASH_TAIL[1] && code[4] == CLASH_TAIL[2] && code[5] == CLASH_TAIL[3];
  }

  lemma ClashText(h: Host, fuel: nat, vm: Vm)
    requires !h.isStatic
    ensures StartText(h, Program(CLASH_CODE, []), fuel, [], vm).st.vm == vm.(storage := vm.storage[0 := 9])
  {
    hide Exec; hide Step; hide Render; hide MapCode;
    var v := "__user_x_1";
    ClashNames();
    ClashRendered();
    var s0: Stmt<string>, s1: Stmt<string> := Assign(v, Lit(7)), Assign(v, Lit(9));
    var st: St<string> := St(map[], [], vm);
    OperationProof.ExecAppend(h, [], fuel, [s0, s1], CLASH_TAIL, st);
    OperationProof.ExecTwo(h, [], fuel, s0, s1, st);
    ClashAssigned(h, fuel, v, st);
    StoreText(h, fuel, v, St(st.locals[v := I(7)][v := I(9)], [], vm));
  }

  lemma ClashAssigned(h: Host, fuel: nat, v: string, st: St<string>)
    ensures var r := Step(h, [], fuel, Assign(v, Lit(7)), st);
            && r == TRes(Done, st.(locals := st.locals[v := I(7)]))
            && Step(h, [], fuel, Assign(v, Lit(9)), r.st) == TRes(Done, st.(locals := st.locals[v := I(7)][v := I(9)]))
  {}

  lemma ClashStored(h: Host, fs: seq<Func>, fuel: nat, w: World)
    requires !h.isStatic
    ensures Eval(h, fs, fuel, Apply(SStore, [Int(0), Var("x_1")]), map["x_1" := 7]["x" := 9], w)
            == Res(Done, map["x_1" := 7]["x" := 9], w.(storage := w.storage[0 := 7]))
  {
    hide EvalSeq; hide EvalLoop; hide Call;
    var env: Env := map["x_1" := 7]["x" := 9];
    assert "x_1" != "x";
    var i0, v := Int(0), Var("x_1");
    assert [i0, v][..1] == [i0] && [i0][..0] == [];
    assert EvalArgs(h, fs, fuel, [i0][..0], env, w) == ArgsRes(Done, [], env, w);
    assert EvalArgs(h, fs, fuel, [i0], env, w) == ArgsRes(Done, [0], env, w);
    assert EvalArgs(h, fs, fuel, [i0, v], env, w) == ArgsRes(Done, [0, 7], env, w);
  }

  lemma ClashSource(h: Host, fuel: nat, w: World)
    requires !h.isStatic
    ensures var r := Run(h, fuel, CLASH, w); r.ctl == Done && r.world == w.(storage := w.storage[0 := 7])
  {
    hide EvalArgs; hide EvalSeq; hide EvalLoop; hide Call; hide ApplyOp;
    var fs, inner := Labels(CLASH), Apply(SStore, [Int(0), Var("x_1")]);
    ClashStored(h, fs, fuel, w);
    var outer := With("x", Int(9), inner);
    assert Eval(h, fs, fuel, Int(9), map["x_1" := 7], w) == Res(Val(9), map["x_1" := 7], w);
    var r := Eval(h, fs, fuel, outer, map["x_1" := 7], w);
    assert r.ctl == Done && r.world == w.(storage := w.storage[0 := 7]);
    assert Eval(h, fs, fuel, Int(7), map[], w) == Res(Val(7), map[], w);
    assert map[]["x_1" := 7] == map["x_1" := 7];
  }

  lemma ClashWellFormed()
    ensures CompilerProof.WellFormed(CLASH, false, Labels(CLASH))
  {
    var fs := Labels(CLASH);
    assert "x_1"[0] != RETURN_PC[0] && "x"[0] != RETURN_PC[0];
    var inner := Apply(SStore, [Int(0), Var("x_1")]);
    assert CompilerProof.WellFormed(inner.args[0], true, fs) && CompilerProof.WellFormed(inner.args[1], true, fs);
    assert CompilerProof.WellFormed(inner, false, fs);
  }

  /** The guard is needed: the inner `x` overwrites the outer `x_1`, and 9 is stored instead of 7. */
  lemma ClashChangesTheResult(h: Host, fuel: nat, vm: Vm)
    requires !h.isStatic
    ensures CompilerProof.WellFormed(CLASH, false, Labels(CLASH)) && Analyze(CLASH, EmptyFrame) == Some(CLASH_ANALYZED)
    ensures Run(h, fuel, CLASH, OperationProof.View(vm)).ctl == Done && Run(h, fuel, CLASH, OperationProof.View(vm)).world.Load(0) == 7
    ensures StartText(h, CompileProgram(CLASH_ANALYZED), fuel, [], vm).st.vm.Load(0) == 9
  {
    hide Eval; hide Exec; hide Compile; hide Analyze; hide CompilerProof.WellFormed; hide MapCode;
    ClashWellFormed();
    ClashAnalyzed();
    ClashCompiled();
    ClashSource(h, fuel, OperationProof.View(vm));
    ClashText(h, fuel, vm);
  }
}
