/** What `analyze` and `compile` compute, as functions: names resolved to slots, nested
    expressions laid out as statements over fresh temporaries. */
module Compiler {
  import opened Wrappers
  import opened Words
  import opened Machine
  import opened SourceIR
  import opened PythonTarget

  /** The type that an executor class declares for the value it produces. */
  datatype Ty = TInt | TBytes | TStackItem | TNone

  /** Python locals: `var_<id>`, `__user_<name>_<slot>`, and the names fixed in the templates. */
  datatype TVar = Temp(id: nat) | User(name: string, slot: nat) | Scratch(s: string)

  /** IR after analysis: every use of a name carries the slot of its binding. */
  datatype AIR =
    | AInt(n: Word)
    | AVar(name: string, slot: nat)
    | AApply(op: Op, args: seq<AIR>)
    | AWith(name: string, slot: nat, val: AIR, body: AIR)
    | ASet(name: string, slot: nat, val: AIR)
    | ASeq(es: seq<AIR>)
    | AIf(test: AIR, body: AIR)
    | AIfElse(test: AIR, body: AIR, orelse: AIR)
    | ARepeat(name: string, slot: nat, start: AIR, rounds: AIR, bound: nat, body: AIR)
    | AGoto(lbl: string, args: seq<AIR>)
    | AExitTo(lbl: string, args: seq<AIR>)
    | AExitToReturnPc
    | ALabel(lbl: string, params: seq<TVar>, body: AIR)

  // ---- scopes ---------------------------------------------------------------------

  /** `FrameInfo`: the binding of each visible name and the next free slot. */
  datatype Frame = Frame(slots: map<string, nat>, current: nat)

  const EmptyFrame := Frame(map[], 0)

  /** Binding one more name: it takes the next slot, whatever it meant before. */
  function EnterOne(f: Frame, x: string): Frame {
    Frame(f.slots[x := f.current], f.current + 1)
  }

  /** The frame inside `with variables(names)`. */
  function Enter(f: Frame, names: seq<string>): (r: Frame)
    ensures r.current == f.current + |names|
    decreases |names|
  {
    if names == [] then f else Enter(EnterOne(f, names[0]), names[1..])
  }

  // ---- analysis -------------------------------------------------------------------

  /** The parameters that a subroutine is called with, under their slots. */
  function ParamVars(f: Frame, params: seq<string>): (r: Option<seq<TVar>>)
    ensures r.Some? ==> |r.value| == |ValueParams(params)|
  {
    if params == [] then Some([]) else
    var rest := ParamVars(f, params[1..]);
    if params[0] !in f.slots || rest.None? then None
    else if params[0] == RETURN_PC then rest
    else Some([User(params[0], f.slots[params[0]])] + rest.value)
  }

  /** `analyze`; `None` where Python raises. */
  function Analyze(e: IR, f: Frame): Option<AIR>
    decreases e
  {
    match e
    case Int(n) => if -(TWO256 / 2) <= n < TWO256 then Some(AInt(Wrap(n))) else None
    case Var(x) => if x in f.slots then Some(AVar(x, f.slots[x])) else None
    case Apply(op, args) =>
      var a := AnalyzeAll(args, f);
      if a.None? then None else Some(AApply(op, a.value))
    case With(x, val, body) =>
      var v := Analyze(val, f);
      var f' := EnterOne(f, x);
      var b := Analyze(body, f');
      if v.None? || b.None? then None else Some(AWith(x, f'.slots[x], v.value, b.value))
    case Set(x, val) =>
      var v := Analyze(val, f);
      if v.None? || x !in f.slots then None else Some(ASet(x, f.slots[x], v.value))
    case Seq(es) =>
      var a := AnalyzeAll(es, f);
      if a.None? then None else Some(ASeq(a.value))
    case If(t, b) =>
      var at, ab := Analyze(t, f), Analyze(b, f);
      if at.None? || ab.None? then None else Some(AIf(at.value, ab.value))
    case IfElse(t, b, o) =>
      var at, ab, ao := Analyze(t, f), Analyze(b, f), Analyze(o, f);
      if at.None? || ab.None? || ao.None? then None else Some(AIfElse(at.value, ab.value, ao.value))
    case Repeat(x, s, r, bound, b) =>
      var as_, ar := Analyze(s, f), Analyze(r, f);
      var f' := EnterOne(f, x);
      var ab := Analyze(b, f');
      if as_.None? || ar.None? || ab.None? then None
      else Some(ARepeat(x, f'.slots[x], as_.value, ar.value, bound, ab.value))
    case Goto(l, args) =>
      var a := AnalyzeAll(args, f);
      if a.None? then None else Some(AGoto(l, a.value))
    case ExitTo(l, args) =>
      var a := AnalyzeAll(args, f);
      if a.None? then None else Some(AExitTo(l, a.value))
    case ExitToReturnPc => Some(AExitToReturnPc)
    case Label(l, params, b) =>
      var f' := Enter(EmptyFrame, params);
      var ps, ab := ParamVars(f', params), Analyze(b, f');
      if ps.None? || ab.None? then None else Some(ALabel(l, ps.value, ab.value))
  }

  function AnalyzeAll(es: seq<IR>, f: Frame): (r: Option<seq<AIR>>)
    ensures r.Some? ==> |r.value| == |es|
    decreases es
  {
    if es == [] then Some([]) else
    var a, rest := Analyze(es[0], f), AnalyzeAll(es[1..], f);
    if a.None? || rest.None? then None else Some([a.value] + rest.value)
  }

  /** The labels of an analysed program, in the order in which `add_label` sees them. */
  function ALabels(a: AIR): seq<AIR>
    decreases a
  {
    match a
    case AApply(_, args) => ALabelsAll(args)
    case AWith(_, _, val, body) => ALabels(val) + ALabels(body)
    case ASet(_, _, val) => ALabels(val)
    case ASeq(es) => ALabelsAll(es)
    case AIf(t, b) => ALabels(t) + ALabels(b)
    case AIfElse(t, b, o) => ALabels(t) + ALabels(b) + ALabels(o)
    case ARepeat(_, _, s, r, _, b) => ALabels(s) + ALabels(r) + ALabels(b)
    case AGoto(_, args) => ALabelsAll(args)
    case AExitTo(_, args) => ALabelsAll(args)
    case ALabel(_, _, b) => [a] + ALabels(b)
    case _ => []
  }

  function ALabelsAll(es: seq<AIR>): seq<AIR>
    decreases es
  {
    if es == [] then [] else ALabels(es[0]) + ALabelsAll(es[1..])
  }

  // ---- types ----------------------------------------------------------------------

  /** `_sig`: the type in which operand `i` must arrive. */
  function OperandType(op: Op, i: nat): Ty {
    match op
    case Select => if i == 0 then TInt else TStackItem
    case Sha3_64 => TBytes
    case Sha3_32 => TBytes
    case _ => TInt
  }

  /** `_type`. */
  function TypeOf(a: AIR): Ty {
    match a
    case AInt(_) => TInt
    case AVar(_, _) => TInt
    case AWith(_, _, _, body) => TypeOf(body)
    case AApply(op, args) =>
      (match op
       case Select =>
         if |args| == 3 && TypeOf(args[1]) == TypeOf(args[2]) then TypeOf(args[1]) else TStackItem
       case Caller => TBytes
       case CalldataLoad => TBytes
       case Sha3_64 => TNone
       case Sha3_32 => TNone
       case Opcode(_, _, _) => TStackItem
       case _ => if Produces(op) || op == SStore then TInt else TNone)
    case _ => TNone
  }

  // ---- code generation ------------------------------------------------------------

  datatype Emitted = Emitted(stmts: seq<Stmt<TVar>>, res: Option<Expr<TVar>>)

  function Pushes(args: seq<TVar>): seq<Stmt<TVar>> {
    if args == [] then [] else Pushes(args[1..]) + [PushInt(args[0])]
  }

  /** `_compile` of each operation, given the locals that hold its operands. */
  function Emit(op: Op, a: seq<TVar>): Emitted
    requires |a| == Arity(op)
  {
    match op
    case Arith(f, signed) => Emitted([], Some(Binop(f, signed, a[0], a[1])))
    case Shl => Emitted([], Some(ShiftLeft(a[1], a[0])))
    case Shr => Emitted([], Some(ShiftRight(a[1], a[0])))
    case Sar => Emitted([], Some(SignedShiftRight(a[1], a[0])))
    case Select => Emitted([], Some(Cond(a[1], a[0], a[2])))
    case IsZero => Emitted([], Some(EqZero(a[0])))
    case CeilTo32 => Emitted([], Some(Ceil32Of(a[0])))
    case Caller => Emitted([], Some(MsgSender))
    case CallValue => Emitted([], Some(MsgValue))
    case CalldataSize => Emitted([], Some(LenMsgData))
    case CalldataLoad => Emitted([LoadCalldata(Scratch("val"), a[0])], Some(Name(Scratch("val"))))
    case MLoad => Emitted([ExtendMem(a[0])], Some(ReadWord(a[0])))
    case MStore => Emitted([ExtendMem(a[0]), StoreWord(a[0], a[1])], None)
    case CalldataCopy =>
      Emitted([CutCalldata(Scratch("val"), a[1], a[2]), ExtendBy(a[0], a[2]), WriteMem(a[0], a[2], Scratch("val"))], None)
    case SLoad => Emitted([], Some(GetStorage(a[0])))
    case SStore => Emitted([RaiseIfStatic, SetStorage(a[0], a[1])], None)
    case Sha3_64 =>
      Emitted([Preimage(Scratch("preimage"), [a[0], a[1]]), Assign(Scratch("image"), Keccak(Scratch("preimage")))],
              Some(Name(Scratch("image"))))
    case Sha3_32 => Emitted([Preimage(Scratch("preimage"), [a[0]])], Some(Keccak(Scratch("preimage"))))
    case Assert => Emitted([RaiseUnless(a[0])], None)
    case RevertOp => Emitted([RaiseRevert(a[0], a[1])], None)
    case ReturnOp => Emitted([RaiseReturn(a[0], a[1])], None)
    case Stop => Emitted([RaiseStop], None)
    case Break => Emitted([BreakStmt], None)
    case Continue => Emitted([ContinueStmt], None)
    case Pass => Emitted([PassStmt], None)
    case CleanupRepeat => Emitted([PassStmt], None)
    case Opcode(code, n, produces) =>
      Emitted(Pushes(a) + [CallOpcode(code, n, produces)], if produces then Some(StackPop) else None)
  }

  /** The conversion put around a result of static type `have` where `want` is expected. */
  function Convert(e: Expr<TVar>, have: Ty, want: Ty): Expr<TVar> {
    if have == want then e
    else match want
      case TInt => ToIntCall(e)
      case TBytes => ToBytesCall(e)
      case _ => Paren(e)
  }

  /** The end of `compile`: store the result, or evaluate it for its effect. */
  function Deliver(res: Option<Expr<TVar>>, have: Ty, out: Option<TVar>, want: Ty): seq<Stmt<TVar>> {
    if res.None? then []
    else if out.None? then [ExprStmt(res.value)]
    else [Assign(out.value, Convert(res.value, have, want))]
  }

  function Temps(base: nat, n: nat): (r: seq<TVar>)
    ensures |r| == n && forall i :: 0 <= i < n ==> r[i] == Temp(base + i)
  {
    seq(n, i requires 0 <= i => Temp(base + i))
  }

  function OperandTypes(op: Op, n: nat): (r: seq<Ty>)
    ensures |r| == n && forall i :: 0 <= i < n ==> r[i] == OperandType(op, i)
  {
    seq(n, i requires 0 <= i => OperandType(op, i))
  }

  function AllInts(n: nat): (r: seq<Ty>)
    ensures |r| == n && forall i :: 0 <= i < n ==> r[i] == TInt
  {
    seq(n, i => TInt)
  }

  datatype Code = Code(stmts: seq<Stmt<TVar>>, next: nat)

  /** `compile(out, out_typ)` when the temporaries `var_<next>` onwards are unused. */
  function Compile(a: AIR, next: nat, out: Option<TVar>, want: Ty): Code
    decreases a, 0
  {
    match a
    case AInt(n) => Code(Deliver(Some(Lit(n)), TInt, out, want), next)
    case AVar(x, s) => Code(Deliver(Some(Name(User(x, s))), TInt, out, want), next)
    case AApply(op, args) =>
      var n := |args|;
      var c := CompileArgs(args, next, OperandTypes(op, n), next + n);
      if n != Arity(op) then c else
      var m := Emit(op, Temps(next, n));
      Code(c.stmts + (m.stmts + Deliver(m.res, TypeOf(a), out, want)), c.next)
    case AWith(x, s, val, body) =>
      var v := Compile(val, next, Some(User(x, s)), TInt);
      var b := Compile(body, v.next, out, want);
      Code(v.stmts + b.stmts, b.next)
    case ASet(x, s, val) => Compile(val, next, Some(User(x, s)), TInt)
    case ASeq(es) => if es == [] then Code([PassStmt], next) else CompileSeq(es, next, out, want)
    case AIf(test, body) =>
      var t := Compile(test, next + 1, Some(Temp(next)), TInt);
      var b := Compile(body, t.next, out, want);
      Code(t.stmts + [IfStmt(Temp(next), b.stmts, [])], b.next)
    case AIfElse(test, body, orelse) =>
      var t := Compile(test, next + 1, Some(Temp(next)), TInt);
      var b := Compile(body, t.next, out, want);
      var o := Compile(orelse, b.next, out, want);
      Code(t.stmts + [IfStmt(Temp(next), b.stmts, o.stmts)], o.next)
    case ARepeat(x, s, start, rounds, bound, body) =>
      var c := Compile(start, next + 2, Some(Temp(next)), TInt);
      var r := Compile(rounds, c.next, Some(Temp(next + 1)), TInt);
      var b := Compile(body, r.next, None, TNone);
      Code(c.stmts + (r.stmts +
           [AssertAtMost(Temp(next + 1), bound), ForRange(User(x, s), Temp(next), Temp(next + 1), b.stmts)]), b.next)
    case AGoto(l, args) =>
      var n := |args|;
      var c := CompileArgs(args, next, AllInts(n), next + n);
      Code(c.stmts + [CallFn(l, Temps(next, n))], c.next)
    case AExitTo(l, args) =>
      var n := |args|;
      var c := CompileArgs(args, next, AllInts(n), next + n);
      Code(c.stmts + [ReturnCall(l, Temps(next, n))], c.next)
    case AExitToReturnPc => Code([ReturnNone], next)
    case ALabel(_, _, _) => Code([], next)
  }

  /** `_compile_args`: operand `i` goes to `Temp(base + i)`, the last operand first. */
  function CompileArgs(args: seq<AIR>, base: nat, wants: seq<Ty>, next: nat): Code
    requires |wants| == |args|
    decreases args, 1
  {
    if args == [] then Code([], next) else
    var n := |args| - 1;
    var c := Compile(args[n], next, Some(Temp(base + n)), wants[n]);
    var r := CompileArgs(args[..n], base, wants[..n], c.next);
    Code(c.stmts + r.stmts, r.next)
  }

  function CompileSeq(es: seq<AIR>, next: nat, out: Option<TVar>, want: Ty): Code
    requires es != []
    decreases es, 1
  {
    if |es| == 1 then Compile(es[0], next, out, want) else
    var c := Compile(es[0], next, None, TNone);
    var r := CompileSeq(es[1..], c.next, out, want);
    Code(c.stmts + r.stmts, r.next)
  }

  /** `compile_func` for every label, after the main code. */
  function CompileFuncs(ls: seq<AIR>, next: nat): seq<TFunc<TVar>>
    requires forall l :: l in ls ==> l.ALabel?
  {
    if ls == [] then [] else
    var c := Compile(ls[0].body, next, None, TNone);
    [TFunc(ls[0].lbl, ls[0].params, c.stmts)] + CompileFuncs(ls[1..], c.next)
  }
}
