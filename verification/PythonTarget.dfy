/** The Python that the executor emits, as a syntax tree over local variables of any type `V`,
    and its execution: one dictionary of locals per function, one VM stack, and
    `FastMem` as the memory. */
module PythonTarget {
  import opened Words
  import opened Machine
  import WordCache

  datatype Expr<V> =
    | Lit(n: int)
    | Name(v: V)
    | ToIntCall(e: Expr<V>)
    | ToBytesCall(e: Expr<V>)
    | Paren(e: Expr<V>)
    | Binop(f: string, signed: bool, x: V, y: V)   // ((f(x, y)) % 2**256), operands signed on demand
    | ShiftRight(val: V, bits: V)                  // val >> bits
    | SignedShiftRight(val: V, bits: V)            // ((_as_signed(val) >> bits) % 2**256)
    | ShiftLeft(val: V, bits: V)                   // ((val << bits) % 2**256)
    | Cond(x: V, test: V, y: V)                    // x if test else y
    | EqZero(x: V)
    | Ceil32Of(x: V)
    | MsgSender | MsgValue | LenMsgData
    | ReadWord(ptr: V)
    | GetStorage(slot: V)
    | Keccak(preimage: V)
    | StackPop

  datatype Stmt<V> =
    | Assign(v: V, e: Expr<V>)
    | ExprStmt(e: Expr<V>)
    | PassStmt | BreakStmt | ContinueStmt | ReturnNone
    | LoadCalldata(dst: V, ptr: V)
    | CutCalldata(dst: V, ptr: V, size: V)
    | Preimage(dst: V, parts: seq<V>)              // each part right-justified to 32 bytes
    | ExtendMem(ptr: V)
    | ExtendBy(ptr: V, size: V)
    | WriteMem(ptr: V, size: V, val: V)
    | StoreWord(ptr: V, val: V)
    | SetStorage(slot: V, val: V)
    | RaiseIfStatic
    | RaiseUnless(test: V)
    | RaiseRevert(ptr: V, size: V)
    | RaiseReturn(ptr: V, size: V)
    | RaiseStop
    | PushInt(v: V)
    | CallOpcode(code: nat, consumes: nat, produces: bool)
    | AssertAtMost(v: V, bound: nat)
    | IfStmt(test: V, thn: seq<Stmt<V>>, els: seq<Stmt<V>>)
    | ForRange(i: V, start: V, rounds: V, body: seq<Stmt<V>>)  // range(start, start + rounds)
    | CallFn(lbl: string, args: seq<V>)
    | ReturnCall(lbl: string, args: seq<V>)

  datatype TFunc<V> = TFunc(lbl: string, params: seq<V>, code: seq<Stmt<V>>)

  /** The part of the computation that outlives a call. */
  datatype Vm = Vm(mem: WordCache.Memory, storage: map<int, Word>)
  {
    function Load(slot: int): Word {
      if slot in storage then storage[slot] else 0
    }
  }

  datatype St<V> = St(locals: map<V, Raw>, stack: seq<Raw>, vm: Vm)
  {
    function Remember(mem: WordCache.Memory): St<V> {
      this.(vm := vm.(mem := mem))
    }
  }

  datatype ERes<V> = EOk(val: Raw, st: St<V>) | EErr(kind: FaultKind)
  datatype IntRes = IOk(n: int) | IErr(kind: FaultKind)

  function IntVar<V>(st: St<V>, v: V): IntRes {
    if v !in st.locals then IErr(Unbound)
    else match st.locals[v] case I(n) => IOk(n) case B(_) => IErr(TypeError)
  }

  /** A natural number: an address, a slot or a shift; negative ones raise. */
  function NatVar<V>(st: St<V>, v: V): (r: IntRes)
    ensures r.IOk? ==> r.n >= 0
  {
    var r := IntVar(st, v);
    if r.IOk? && r.n < 0 then IErr(TypeError) else r
  }

  function WordVar<V>(st: St<V>, v: V): (r: IntRes)
    ensures r.IOk? ==> 0 <= r.n < TWO256
  {
    var r := NatVar(st, v);
    if r.IOk? && r.n >= TWO256 then IErr(TypeError) else r
  }

  predicate Truthy(r: Raw) {
    match r case I(n) => n != 0 case B(bs) => bs != []
  }

  function EvalExpr<V>(h: Host, e: Expr<V>, st: St<V>): ERes<V> {
    match e
    case Lit(n) => EOk(I(n), st)
    case Name(v) => if v in st.locals then EOk(st.locals[v], st) else EErr(Unbound)
    case ToIntCall(e) =>
      var r := EvalExpr(h, e, st);
      if r.EErr? then r else EOk(I(ToInt(r.val)), r.st)
    case ToBytesCall(e) =>
      var r := EvalExpr(h, e, st);
      if r.EErr? then r else
      (match r.val
       case B(bs) => EOk(B(RJust32(bs)), r.st)
       case I(n) => if 0 <= n < TWO256 then EOk(B(Bytes32(n)), r.st) else EErr(TypeError))
    case Paren(e) => EvalExpr(h, e, st)
    case Binop(f, signed, x, y) =>
      var a := if signed then WordVar(st, x) else IntVar(st, x);
      var b := if signed then WordVar(st, y) else IntVar(st, y);
      if a.IErr? then EErr(a.kind) else if b.IErr? then EErr(b.kind) else
      EOk(I(Wrap(if signed then h.arith(f, AsSigned(a.n), AsSigned(b.n)) else h.arith(f, a.n, b.n))), st)
    case ShiftRight(val, bits) =>
      var a, b := IntVar(st, val), NatVar(st, bits);
      if a.IErr? then EErr(a.kind) else if b.IErr? then EErr(b.kind) else EOk(I(a.n / Pow2(b.n)), st)
    case SignedShiftRight(val, bits) =>
      var a, b := WordVar(st, val), NatVar(st, bits);
      if a.IErr? then EErr(a.kind) else if b.IErr? then EErr(b.kind) else
      EOk(I(Wrap(AsSigned(a.n) / Pow2(b.n))), st)
    case ShiftLeft(val, bits) =>
      var a, b := IntVar(st, val), NatVar(st, bits);
      if a.IErr? then EErr(a.kind) else if b.IErr? then EErr(b.kind) else EOk(I(Wrap(a.n * Pow2(b.n))), st)
    case Cond(x, test, y) =>
      if test !in st.locals then EErr(Unbound) else
      var v := if Truthy(st.locals[test]) then x else y;
      if v in st.locals then EOk(st.locals[v], st) else EErr(Unbound)
    case EqZero(x) =>
      if x !in st.locals then EErr(Unbound) else EOk(I(if st.locals[x] == I(0) then 1 else 0), st)
    case Ceil32Of(x) =>
      var a := NatVar(st, x);
      if a.IErr? then EErr(a.kind) else EOk(I(Ceil32(a.n)), st)
    case MsgSender => EOk(B(h.sender), st)
    case MsgValue => EOk(I(h.value), st)
    case LenMsgData => EOk(I(|h.data|), st)
    case ReadWord(ptr) =>
      var p := NatVar(st, ptr);
      if p.IErr? then EErr(p.kind) else
      var r := WordCache.ReadWord(st.vm.mem, p.n);
      if r.ok then EOk(I(r.w), st.Remember(r.m)) else EErr(OutsideMemory)
    case GetStorage(slot) =>
      var s := IntVar(st, slot);
      if s.IErr? then EErr(s.kind) else EOk(I(st.vm.Load(s.n)), st)
    case Keccak(p) =>
      if p !in st.locals then EErr(Unbound) else
      (match st.locals[p] case B(bs) => EOk(B(h.keccak(bs)), st) case I(_) => EErr(TypeError))
    case StackPop =>
      if st.stack == [] then EErr(StackUnderflow)
      else EOk(st.stack[|st.stack| - 1], st.(stack := st.stack[..|st.stack| - 1]))
  }

  /** `extend_memory` leaves memory alone for size 0; `memory_read_bytes` and `memory_write` are `FastMem`'s. */
  function TouchOne(m: WordCache.Memory, e: Effect): WordCache.Did {
    match e
    case Access(p, n) =>
      var r := WordCache.ReadBytes(if n > 0 then WordCache.Extend(m, p, n) else m, p, n);
      WordCache.Did(r.m, r.ok)
    case Store(p, val) => WordCache.Write(if val != [] then WordCache.Extend(m, p, |val|) else m, p, val)
  }

  function Touch(m: WordCache.Memory, effects: seq<Effect>): WordCache.Did
    decreases |effects|
  {
    if effects == [] then WordCache.Did(m, true) else
    var d := TouchOne(m, effects[0]);
    if d.ok then Touch(d.m, effects[1..]) else d
  }

  datatype TRes<V> = TRes(ctl: Ctl, st: St<V>)

  /** The `n` topmost stack items as numbers, top first. */
  function TopInts(stack: seq<Raw>, n: nat): (r: seq<int>)
    requires n <= |stack|
    ensures |r| == n && forall i :: 0 <= i < n ==> r[i] == ToInt(stack[|stack| - 1 - i])
  {
    seq(n, i requires 0 <= i < n => ToInt(stack[|stack| - 1 - i]))
  }

  datatype PartsRes = POk(bs: seq<Byte>) | PErr(kind: FaultKind)

  function JoinParts<V>(st: St<V>, parts: seq<V>): PartsRes {
    if parts == [] then POk([])
    else if parts[0] !in st.locals then PErr(Unbound)
    else if st.locals[parts[0]].I? then PErr(TypeError)
    else
      var rest := JoinParts(st, parts[1..]);
      if rest.PErr? then rest else POk(RJust32(st.locals[parts[0]].bs) + rest.bs)
  }

  function Reads<V>(st: St<V>, vs: seq<V>): (r: seq<Raw>)
    requires forall v :: v in vs ==> v in st.locals
    ensures |r| == |vs| && forall i :: 0 <= i < |vs| ==> r[i] == st.locals[vs[i]]
  {
    seq(|vs|, i requires 0 <= i < |vs| => st.locals[vs[i]])
  }

  function BindLocals<V>(ps: seq<V>, vals: seq<Raw>): (m: map<V, Raw>)
    requires |ps| == |vals|
    ensures m.Keys == set p | p in ps
  {
    if ps == [] then map[] else BindLocals(ps[1..], vals[1..])[ps[0] := vals[0]]
  }

  datatype FindResult<V> = Missing | Found(f: TFunc<V>)

  function Find<V>(fs: seq<TFunc<V>>, lbl: string): FindResult<V> {
    if fs == [] then Missing
    else if fs[0].lbl == lbl then Found(fs[0])
    else Find(fs[1..], lbl)
  }

  function Exec<V>(h: Host, fs: seq<TFunc<V>>, fuel: nat, ss: seq<Stmt<V>>, st: St<V>): TRes<V>
    decreases fuel, ss, 0, 0
  {
    if ss == [] then TRes(Done, st) else
    var r := Step(h, fs, fuel, ss[0], st);
    if r.ctl != Done then r else Exec(h, fs, fuel, ss[1..], r.st)
  }

  function Step<V>(h: Host, fs: seq<TFunc<V>>, fuel: nat, s: Stmt<V>, st: St<V>): TRes<V>
    decreases fuel, s, 0, 0
  {
    match s
    case Assign(v, e) =>
      var r := EvalExpr(h, e, st);
      if r.EErr? then TRes(Fault(r.kind), st)
      else TRes(Done, r.st.(locals := r.st.locals[v := r.val]))
    case ExprStmt(e) =>
      var r := EvalExpr(h, e, st);
      if r.EErr? then TRes(Fault(r.kind), st) else TRes(Done, r.st)
    case PassStmt => TRes(Done, st)
    case BreakStmt => TRes(Brk, st)
    case ContinueStmt => TRes(Cnt, st)
    case ReturnNone => TRes(Ret, st)
    case LoadCalldata(dst, ptr) =>
      var p := NatVar(st, ptr);
      if p.IErr? then TRes(Fault(p.kind), st)
      else TRes(Done, st.(locals := st.locals[dst := B(CalldataWord(h.data, p.n))]))
    case CutCalldata(dst, ptr, size) =>
      var p, n := NatVar(st, ptr), NatVar(st, size);
      if p.IErr? then TRes(Fault(p.kind), st)
      else if n.IErr? then TRes(Fault(n.kind), st)
      else TRes(Done, st.(locals := st.locals[dst := B(CalldataBytes(h.data, p.n, n.n))]))
    case Preimage(dst, parts) =>
      var p := JoinParts(st, parts);
      if p.PErr? then TRes(Fault(p.kind), st)
      else TRes(Done, st.(locals := st.locals[dst := B(p.bs)]))
    case ExtendMem(ptr) =>
      var p := NatVar(st, ptr);
      if p.IErr? then TRes(Fault(p.kind), st)
      else TRes(Done, st.Remember(WordCache.Extend(st.vm.mem, p.n, 32)))
    case ExtendBy(ptr, size) =>
      var p, n := NatVar(st, ptr), NatVar(st, size);
      if p.IErr? then TRes(Fault(p.kind), st)
      else if n.IErr? then TRes(Fault(n.kind), st)
      else TRes(Done, st.Remember(WordCache.Extend(st.vm.mem, p.n, n.n)))
    case WriteMem(ptr, size, val) =>
      var p, n := NatVar(st, ptr), NatVar(st, size);
      if p.IErr? then TRes(Fault(p.kind), st)
      else if n.IErr? then TRes(Fault(n.kind), st)
      else if val !in st.locals then TRes(Fault(Unbound), st)
      else if st.locals[val].I? || |st.locals[val].bs| != n.n then TRes(Fault(TypeError), st)
      else
        var d := WordCache.Write(st.vm.mem, p.n, st.locals[val].bs);
        TRes(if d.ok then Done else Fault(OutsideMemory), st.Remember(d.m))
    case StoreWord(ptr, val) =>
      var p, v := NatVar(st, ptr), WordVar(st, val);
      if p.IErr? then TRes(Fault(p.kind), st)
      else if v.IErr? then TRes(Fault(v.kind), st)
      else
        var d := WordCache.WriteWord(st.vm.mem, p.n, v.n);
        TRes(if d.ok then Done else Fault(OutsideMemory), st.Remember(d.m))
    case SetStorage(slot, val) =>
      var p, v := IntVar(st, slot), WordVar(st, val);
      if p.IErr? then TRes(Fault(p.kind), st)
      else if v.IErr? then TRes(Fault(v.kind), st)
      else TRes(Done, st.(vm := st.vm.(storage := st.vm.storage[p.n := v.n])))
    case RaiseIfStatic => TRes(if h.isStatic then Fault(StaticWrite) else Done, st)
    case RaiseUnless(test) =>
      if test !in st.locals then TRes(Fault(Unbound), st)
      else TRes(if Truthy(st.locals[test]) then Done else Revert([]), st)
    case RaiseRevert(ptr, size) =>
      var p, n := NatVar(st, ptr), NatVar(st, size);
      if p.IErr? then TRes(Fault(p.kind), st)
      else if n.IErr? then TRes(Fault(n.kind), st)
      else
        var r := WordCache.ReadBytes(st.vm.mem, p.n, n.n);
        TRes(if r.ok then Revert(r.bs) else Fault(OutsideMemory), st.Remember(r.m))
    case RaiseReturn(ptr, size) =>
      var p, n := NatVar(st, ptr), NatVar(st, size);
      if p.IErr? then TRes(Fault(p.kind), st)
      else if n.IErr? then TRes(Fault(n.kind), st)
      else
        var r := WordCache.ReadBytes(st.vm.mem, p.n, n.n);
        TRes(if r.ok then Halt(r.bs) else Fault(OutsideMemory), st.Remember(r.m))
    case RaiseStop => TRes(Halt([]), st)
    case PushInt(v) =>
      var n := IntVar(st, v);
      if n.IErr? then TRes(Fault(n.kind), st) else TRes(Done, st.(stack := st.stack + [I(n.n)]))
    case CallOpcode(code, consumes, produces) =>
      if |st.stack| < consumes then TRes(Fault(StackUnderflow), st) else
      var rest := st.stack[..|st.stack| - consumes];
      var o := h.opcode(code, TopInts(st.stack, consumes), WordCache.Flat(st.vm.mem), st.vm.storage);
      var d := Touch(st.vm.mem, o.effects);
      if !d.ok then TRes(Fault(OutsideMemory), St(st.locals, rest, Vm(d.m, st.vm.storage))) else
      (match o
       case OpOk(_, s, r) => TRes(Done, St(st.locals, if produces then rest + [r] else rest, Vm(d.m, s)))
       case OpHalt(_, s, out) => TRes(Halt(out), St(st.locals, rest, Vm(d.m, s)))
       case OpRevert(_, s, out) => TRes(Revert(out), St(st.locals, rest, Vm(d.m, s))))
    case AssertAtMost(v, bound) =>
      var n := IntVar(st, v);
      if n.IErr? then TRes(Fault(n.kind), st)
      else TRes(if n.n <= bound then Done else Fault(TooManyRounds), st)
    case IfStmt(test, thn, els) =>
      if test !in st.locals then TRes(Fault(Unbound), st)
      else if Truthy(st.locals[test]) then Exec(h, fs, fuel, thn, st)
      else Exec(h, fs, fuel, els, st)
    case ForRange(i, start, rounds, body) =>
      var a, n := IntVar(st, start), IntVar(st, rounds);
      if a.IErr? then TRes(Fault(a.kind), st)
      else if n.IErr? then TRes(Fault(n.kind), st)
      else if n.n < 0 then TRes(Done, st)
      else For(h, fs, fuel, i, a.n, n.n, body, st)
    case CallFn(lbl, args) =>
      if fuel == 0 then TRes(Timeout, st) else Invoke(h, fs, fuel - 1, lbl, args, st)
    case ReturnCall(lbl, args) =>
      if fuel == 0 then TRes(Timeout, st) else
      var r := Invoke(h, fs, fuel - 1, lbl, args, st);
      if r.ctl == Done then r.(ctl := Ret) else r
  }

  /** `n` more rounds of `for i in range(...)`, the next index being `cur`. */
  function For<V>(h: Host, fs: seq<TFunc<V>>, fuel: nat, i: V, cur: int, n: nat, body: seq<Stmt<V>>, st: St<V>): TRes<V>
    decreases fuel, body, 1, n
  {
    if n == 0 then TRes(Done, st) else
    var b := Exec(h, fs, fuel, body, st.(locals := st.locals[i := I(cur)]));
    match b.ctl
    case Brk => TRes(Done, b.st)
    case Done => For(h, fs, fuel, i, cur + 1, n - 1, body, b.st)
    case Cnt => For(h, fs, fuel, i, cur + 1, n - 1, body, b.st)
    case _ => b
  }

  /** A call has its own locals; the stack and the computation are those of the caller. */
  function Invoke<V>(h: Host, fs: seq<TFunc<V>>, fuel: nat, lbl: string, args: seq<V>, st: St<V>): TRes<V>
    decreases fuel
  {
    if !(forall v :: v in args ==> v in st.locals) then TRes(Fault(Unbound), st)
    else match Find(fs, lbl)
      case Missing => TRes(Fault(BadCall), st)
      case Found(f) =>
        if |f.params| != |args| then TRes(Fault(BadCall), st) else
        var r := Exec(h, fs, fuel, f.code, St(BindLocals(f.params, Reads(st, args)), st.stack, st.vm));
        TRes(FromCall(r.ctl), St(st.locals, r.st.stack, r.st.vm))
  }
}
