/** Vyper IR as the executor receives it, with a direct big-step semantics: lexically scoped
    names, words as the only values, operands right to left. */
module SourceIR {
  import opened Words
  import opened Machine
  import FlatMemory

  datatype IR =
    | Int(n: int)
    | Var(name: string)
    | Apply(op: Op, args: seq<IR>)
    | With(name: string, val: IR, body: IR)
    | Set(name: string, val: IR)
    | Seq(es: seq<IR>)
    | If(test: IR, body: IR)
    | IfElse(test: IR, body: IR, orelse: IR)
    | Repeat(name: string, start: IR, rounds: IR, bound: nat, body: IR)
    | Goto(lbl: string, args: seq<IR>)
    | ExitTo(lbl: string, args: seq<IR>)
    | ExitToReturnPc
    | Label(lbl: string, params: seq<string>, body: IR)

  datatype Func = Func(lbl: string, params: seq<string>, body: IR)

  type Env = map<string, Word>

  const RETURN_PC := "return_pc"

  /** Parameters that carry a value; the return address is not one. */
  function ValueParams(params: seq<string>): (r: seq<string>)
    ensures RETURN_PC !in r
    ensures forall x :: x in r ==> x in params
  {
    if params == [] then []
    else (if params[0] == RETURN_PC then [] else [params[0]]) + ValueParams(params[1..])
  }

  /** The subroutines of a program, in the order in which their labels are met. */
  function Labels(e: IR): seq<Func>
    decreases e
  {
    match e
    case Apply(_, args) => LabelsAll(args)
    case With(_, val, body) => Labels(val) + Labels(body)
    case Set(_, val) => Labels(val)
    case Seq(es) => LabelsAll(es)
    case If(t, b) => Labels(t) + Labels(b)
    case IfElse(t, b, o) => Labels(t) + Labels(b) + Labels(o)
    case Repeat(_, s, r, _, b) => Labels(s) + Labels(r) + Labels(b)
    case Goto(_, args) => LabelsAll(args)
    case ExitTo(_, args) => LabelsAll(args)
    case Label(l, ps, b) => [Func(l, ps, b)] + Labels(b)
    case _ => []
  }

  function LabelsAll(es: seq<IR>): seq<Func>
    decreases es
  {
    if es == [] then [] else Labels(es[0]) + LabelsAll(es[1..])
  }

  datatype FindResult = Missing | Found(f: Func)

  function Find(fs: seq<Func>, lbl: string): FindResult {
    if fs == [] then Missing
    else if fs[0].lbl == lbl then Found(fs[0])
    else Find(fs[1..], lbl)
  }

  // ---- meaning of the operations -------------------------------------------------

  datatype OpRes = OpRes(ctl: Ctl, world: World)

  function Bool(b: bool): Word { if b then 1 else 0 }

  /** EVM `shl`, `shr`, `sar`: a shift of 256 or more leaves no bit of the value. */
  function EvmShl(bits: Word, v: Word): Word {
    if bits >= 256 then 0 else Wrap(v * Pow2(bits))
  }

  function EvmShr(bits: Word, v: Word): Word {
    if bits >= 256 then 0 else (ShrinkDiv(v, Pow2(bits)); v / Pow2(bits))
  }

  function EvmSar(bits: Word, v: Word): Word {
    var s := AsSigned(v);
    if bits >= 256 then (if s < 0 then TWO256 - 1 else 0) else Wrap(s / Pow2(bits))
  }

  /** `(x + 31) & ~31`. */
  function EvmCeil(x: Word): Word {
    var n: Word := Wrap(x + 31);
    Floor32(n)
  }

  lemma ShrinkDiv(v: nat, d: nat)
    requires d > 0
    ensures 0 <= v / d <= v
  {
    if v / d != 0 { MulMonotone(v / d, 1, d); }
  }

  /** One operation on words, as the EVM has it. The guards of `exact`: a number rounded up stays a word, a
      word read is what its aligned word holds, returned bytes lie in memory, nothing is copied past its end. */
  function ApplyOp(h: Host, op: Op, a: seq<Word>, w: World): (r: OpRes)
    requires |a| == Arity(op)
    ensures r.world.exact ==> w.exact
  {
    match op
    case Arith(f, signed) =>
      OpRes(Val(Wrap(if signed then h.arith(f, AsSigned(a[0]), AsSigned(a[1])) else h.arith(f, a[0], a[1]))), w)
    case Shl => OpRes(Val(EvmShl(a[0], a[1])), w)
    case Shr => OpRes(Val(EvmShr(a[0], a[1])), w)
    case Sar => OpRes(Val(EvmSar(a[0], a[1])), w)
    case Select => OpRes(Val(if a[0] != 0 then a[1] else a[2]), w)
    case IsZero => OpRes(Val(Bool(a[0] == 0)), w)
    case CeilTo32 => OpRes(Val(EvmCeil(a[0])), w.Under(a[0] <= TWO256 - 32))
    case Caller => OpRes(Val(ItemWord(B(h.sender))), w)
    case CallValue => OpRes(Val(h.value), w)
    case CalldataSize => OpRes(Val(|h.data|), w)
    case CalldataLoad => OpRes(Val(ItemWord(B(CalldataWord(h.data, a[0])))), w)
    case MLoad => LoadMem(w, a[0])
    case MStore => StoreMem(w, a[0], a[1])
    case CalldataCopy => OpRes(Done, CopyMem(w, a[0], CalldataBytes(h.data, a[1], a[2])))
    case SLoad => OpRes(Val(w.Load(a[0])), w)
    case SStore =>
      if h.isStatic then OpRes(Fault(StaticWrite), w)
      else OpRes(Done, w.(storage := w.storage[a[0] := a[1]]))
    case Sha3_64 => OpRes(Val(ItemWord(B(h.keccak(Bytes32(a[0]) + Bytes32(a[1]))))), w)
    case Sha3_32 => OpRes(Val(ItemWord(B(h.keccak(Bytes32(a[0]))))), w)
    case Assert => OpRes(if a[0] != 0 then Done else Revert([]), w)
    case RevertOp => var o := Output(w, a[0], a[1]); OpRes(Revert(o.0), o.1)
    case ReturnOp => var o := Output(w, a[0], a[1]); OpRes(Halt(o.0), o.1)
    case Stop => OpRes(Halt([]), w)
    case Break => OpRes(Brk, w)
    case Continue => OpRes(Cnt, w)
    case Pass => OpRes(Done, w)
    case CleanupRepeat => OpRes(Done, w)
    case Opcode(code, _, produces) => OpcodeMeans(h, code, produces, a, w)
  }

  function LoadMem(w: World, ptr: nat): OpRes {
    var m := FlatMemory.Extend(w.mem, ptr, 32);
    OpRes(Val(FlatMemory.ReadWord(m, ptr)), w.(mem := m).Under(FlatMemory.Harmless(m, ptr)))
  }

  function StoreMem(w: World, ptr: nat, v: Word): OpRes {
    OpRes(Done, w.(mem := FlatMemory.WriteWord(FlatMemory.Extend(w.mem, ptr, 32), ptr, v)))
  }

  /** Copying no bytes does nothing on the EVM. */
  function CopyMem(w: World, ptr: nat, val: seq<Byte>): World {
    if val == [] then w.Under(Ceil32(ptr) <= |w.mem|)
    else w.(mem := FlatMemory.WriteBytes(FlatMemory.Extend(w.mem, ptr, |val|), ptr, val))
  }

  function OpcodeMeans(h: Host, code: nat, produces: bool, a: seq<Word>, w: World): (r: OpRes)
    ensures r.world.exact ==> w.exact
  {
    match h.opcode(code, a, w.mem, w.storage)
    case OpOk(es, st, r) => OpRes(if produces then Val(ItemWord(r)) else Done, Affect(w, es).(storage := st))
    case OpHalt(es, st, out) => OpRes(Halt(out), Affect(w, es).(storage := st))
    case OpRevert(es, st, out) => OpRes(Revert(out), Affect(w, es).(storage := st))
  }

  /** The bytes that `return` and `revert` hand out: memory is extended to them. */
  function Output(w: World, ptr: nat, size: nat): (r: (seq<Byte>, World))
    ensures |r.0| == size
  {
    var m := FlatMemory.Extend(w.mem, ptr, size);
    (FlatMemory.ReadBytes(m, ptr, size), w.(mem := m).Under(FlatMemory.InRange(w.mem, ptr, size)))
  }

  // ---- big-step semantics ---------------------------------------------------------

  datatype Res = Res(ctl: Ctl, env: Env, world: World)

  /** `stop` is `Done` when all operands have values, `vals` in operand order. */
  datatype ArgsRes = ArgsRes(stop: Ctl, vals: seq<Word>, env: Env, world: World)

  /** Leaving the scope of `x`: its outer binding comes back, every other change stays. */
  function Restore(outer: Env, inner: Env, x: string): Env {
    if x in outer then inner[x := outer[x]] else inner - {x}
  }

  function Bind(params: seq<string>, vals: seq<Word>): (env: Env)
    requires |params| == |vals|
    ensures env.Keys == set x | x in params
  {
    if params == [] then map[] else Bind(params[1..], vals[1..])[params[0] := vals[0]]
  }

  /** In operand position only a value lets evaluation go on. */
  function Needed(c: Ctl): Ctl {
    if c == Done then Fault(NoValue) else c
  }

  function Eval(h: Host, fs: seq<Func>, fuel: nat, e: IR, env: Env, w: World): (r: Res)
    ensures r.world.exact ==> w.exact
    decreases fuel, e, 0, 0
  {
    match e
    case Int(n) => Res(Val(Wrap(n)), env, w)
    case Var(x) => Res(if x in env then Val(env[x]) else Fault(Unbound), env, w)
    case Apply(op, args) =>
      var a := EvalArgs(h, fs, fuel, args, env, w);
      if a.stop != Done then Res(a.stop, a.env, a.world)
      else if |args| != Arity(op) then Res(Fault(BadCall), a.env, a.world)
      else var p := ApplyOp(h, op, a.vals, a.world); Res(p.ctl, a.env, p.world)
    case With(x, val, body) =>
      var v := Eval(h, fs, fuel, val, env, w);
      if !v.ctl.Val? then v.(ctl := Needed(v.ctl)) else
      var b := Eval(h, fs, fuel, body, v.env[x := v.ctl.w], v.world);
      b.(env := Restore(v.env, b.env, x))
    case Set(x, val) =>
      var v := Eval(h, fs, fuel, val, env, w);
      if !v.ctl.Val? then v.(ctl := Needed(v.ctl))
      else if x !in v.env then v.(ctl := Fault(Unbound))
      else Res(Done, v.env[x := v.ctl.w], v.world)
    case Seq(es) => EvalSeq(h, fs, fuel, es, env, w)
    case If(test, body) =>
      var t := Eval(h, fs, fuel, test, env, w);
      if !t.ctl.Val? then t.(ctl := Needed(t.ctl))
      else if t.ctl.w != 0 then Eval(h, fs, fuel, body, t.env, t.world)
      else Res(Done, t.env, t.world)
    case IfElse(test, body, orelse) =>
      var t := Eval(h, fs, fuel, test, env, w);
      if !t.ctl.Val? then t.(ctl := Needed(t.ctl))
      else Eval(h, fs, fuel, if t.ctl.w != 0 then body else orelse, t.env, t.world)
    case Repeat(x, start, rounds, bound, body) =>
      var s := Eval(h, fs, fuel, start, env, w);
      if !s.ctl.Val? then s.(ctl := Needed(s.ctl)) else
      var r := Eval(h, fs, fuel, rounds, s.env, s.world);
      if !r.ctl.Val? then r.(ctl := Needed(r.ctl))
      else if r.ctl.w > bound then r.(ctl := Revert([]), world := r.world.Under(false))
      else EvalLoop(h, fs, fuel, x, s.ctl.w, r.ctl.w, body, r.env, r.world)
    case Goto(l, args) =>
      var a := EvalArgs(h, fs, fuel, args, env, w);
      if a.stop != Done then Res(a.stop, a.env, a.world) else
      if fuel == 0 then Res(Timeout, a.env, a.world) else
      var c := Call(h, fs, fuel - 1, l, a.vals, a.world);
      Res(c.ctl, a.env, c.world)
    case ExitTo(l, args) =>
      var a := EvalArgs(h, fs, fuel, args, env, w);
      if a.stop != Done then Res(a.stop, a.env, a.world) else
      if fuel == 0 then Res(Timeout, a.env, a.world) else
      var c := Call(h, fs, fuel - 1, l, a.vals, a.world);
      Res(if c.ctl == Done then Ret else c.ctl, a.env, c.world)
    case ExitToReturnPc => Res(Ret, env, w)
    case Label(_, _, _) => Res(Done, env, w)
  }

  /** Operands are evaluated from the last to the first. */
  function EvalArgs(h: Host, fs: seq<Func>, fuel: nat, args: seq<IR>, env: Env, w: World): (r: ArgsRes)
    ensures r.stop == Done ==> |r.vals| == |args|
    ensures !r.stop.Val?
    ensures r.world.exact ==> w.exact
    decreases fuel, args, 0, 0
  {
    if args == [] then ArgsRes(Done, [], env, w) else
    var n := |args| - 1;
    var v := Eval(h, fs, fuel, args[n], env, w);
    if !v.ctl.Val? then ArgsRes(Needed(v.ctl), [], v.env, v.world) else
    var r := EvalArgs(h, fs, fuel, args[..n], v.env, v.world);
    r.(vals := r.vals + [v.ctl.w])
  }

  function EvalSeq(h: Host, fs: seq<Func>, fuel: nat, es: seq<IR>, env: Env, w: World): (r: Res)
    ensures r.world.exact ==> w.exact
    decreases fuel, es, 0, 0
  {
    if es == [] then Res(Done, env, w) else
    var r := Eval(h, fs, fuel, es[0], env, w);
    if |es| == 1 || !(r.ctl.Val? || r.ctl.Done?) then r
    else EvalSeq(h, fs, fuel, es[1..], r.env, r.world)
  }

  /** `n` more rounds, the index counting modulo 2**256; `i` is the count without the modulus, and a round
      is exact while the two are the same. Bodies do not set their index (see `WellFormed`). */
  function EvalLoop(h: Host, fs: seq<Func>, fuel: nat, x: string, i: nat, n: nat, body: IR, env: Env, w: World): (r: Res)
    ensures r.world.exact ==> w.exact
    decreases fuel, body, 1, n
  {
    if n == 0 then Res(Done, env, w) else
    var b := Eval(h, fs, fuel, body, env[x := Wrap(i)], w.Under(i < TWO256));
    var env' := Restore(env, b.env, x);
    match b.ctl
    case Brk => Res(Done, env', b.world)
    case Val(_) => EvalLoop(h, fs, fuel, x, i + 1, n - 1, body, env', b.world)
    case Done => EvalLoop(h, fs, fuel, x, i + 1, n - 1, body, env', b.world)
    case Cnt => EvalLoop(h, fs, fuel, x, i + 1, n - 1, body, env', b.world)
    case _ => Res(b.ctl, env', b.world)
  }

  function Call(h: Host, fs: seq<Func>, fuel: nat, l: string, vals: seq<Word>, w: World): (r: OpRes)
    ensures r.world.exact ==> w.exact
    decreases fuel
  {
    match Find(fs, l)
    case Missing => OpRes(Fault(BadCall), w)
    case Found(f) =>
      var ps := ValueParams(f.params);
      if |ps| != |vals| then OpRes(Fault(BadCall), w)
      else
        var r := Eval(h, fs, fuel, f.body, Bind(ps, vals), w);
        OpRes(FromCall(r.ctl), r.world)
  }

  /** A whole program: its subroutines are the labels inside it. */
  function Run(h: Host, fuel: nat, main: IR, w: World): Res {
    Eval(h, Labels(main), fuel, main, map[], w)
  }
}
