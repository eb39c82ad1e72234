/** The code emitted for one operation computes what the operation means on words. */
module OperationProof {
  import opened Wrappers
  import opened Words
  import opened Machine
  import opened SourceIR
  import opened PythonTarget
  import opened Compiler
  import FlatMemory
  import WordCache

  /** The world that the target's computation stands for. */
  function View(vm: Vm): World {
    World(WordCache.Flat(vm.mem), vm.storage, true)
  }

  /** The computation stands for this world: its word cache is coherent and its bytes are these. */
  ghost predicate Seen(vm: Vm, w: World) {
    WordCache.Good(vm.mem) && View(vm) == w
  }

  ghost predicate HasType(r: Raw, t: Ty) {
    match t
    case TInt => r.I?
    case TBytes => r.B?
    case _ => true
  }

  /** Local `v` stands for word `w` and may be used where type `want` is expected;
      where anything is accepted it still has the static type `have` of the code it came from. */
  ghost predicate Holds(locals: map<TVar, Raw>, v: TVar, w: Word, want: Ty, have: Ty) {
    && v in locals
    && IsItem(locals[v])
    && ToInt(locals[v]) == w
    && HasType(locals[v], want)
    && (want == TStackItem ==> HasType(locals[v], have))
  }

  ghost predicate OperandsHold(locals: map<TVar, Raw>, a: seq<TVar>, args: seq<AIR>, ws: seq<Word>, wants: seq<Ty>)
    requires |a| == |args| == |ws| == |wants|
  {
    forall i :: 0 <= i < |ws| ==> Holds(locals, a[i], ws[i], wants[i], TypeOf(args[i]))
  }

  ghost predicate IntsHold(locals: map<TVar, Raw>, a: seq<TVar>, ws: seq<Word>)
    requires |a| == |ws|
  {
    forall i :: 0 <= i < |ws| ==> a[i] in locals && locals[a[i]] == I(ws[i])
  }

  /** Statements have no value, so the target reports `Done` where the source has a value. */
  function Erase(c: Ctl): Ctl {
    if c.Val? then Done else c
  }

  predicate Live(c: Ctl) {
    c.Val? || c.Done? || c.Brk? || c.Cnt? || c.Ret?
  }

  /** Only the names fixed in the templates differ. */
  ghost predicate OnlyScratch(l: map<TVar, Raw>, l': map<TVar, Raw>) {
    forall v :: v in l && !v.Scratch? ==> v in l' && l'[v] == l[v]
  }

  lemma {:induction false} ExecAppend<V>(h: Host, fs: seq<TFunc<V>>, fuel: nat, s1: seq<Stmt<V>>, s2: seq<Stmt<V>>, st: St<V>)
    ensures Exec(h, fs, fuel, s1 + s2, st) ==
            var r := Exec(h, fs, fuel, s1, st);
            if r.ctl != Done then r else Exec(h, fs, fuel, s2, r.st)
  {
    if s1 == [] {
      assert s1 + s2 == s2;
    } else {
      assert (s1 + s2)[1..] == s1[1..] + s2;
      var r := Step(h, fs, fuel, s1[0], st);
      if r.ctl == Done { ExecAppend(h, fs, fuel, s1[1..], s2, r.st); }
    }
  }

  lemma ExecOne<V>(h: Host, fs: seq<TFunc<V>>, fuel: nat, s: Stmt<V>, st: St<V>)
    ensures Exec(h, fs, fuel, [s], st) == Step(h, fs, fuel, s, st)
  {
    var r := Step(h, fs, fuel, s, st);
    assert [s][1..] == [];
  }

  lemma ExecTwo<V>(h: Host, fs: seq<TFunc<V>>, fuel: nat, s: Stmt<V>, t: Stmt<V>, st: St<V>)
    ensures Exec(h, fs, fuel, [s, t], st) ==
            var r := Step(h, fs, fuel, s, st);
            if r.ctl != Done then r else Step(h, fs, fuel, t, r.st)
  {
    assert [s, t] == [s] + [t];
    ExecAppend(h, fs, fuel, [s], [t], st);
    ExecOne(h, fs, fuel, s, st);
    ExecOne(h, fs, fuel, t, Step(h, fs, fuel, s, st).st);
  }

  // ---- shifts: the Python expressions against the EVM operations ---------------------

  lemma ShlAgrees(bits: Word, v: Word)
    ensures Wrap(v * Pow2(bits)) == EvmShl(bits, v)
  {
    if bits >= 256 {
      Pow2Add(bits - 256, 256);
      Pow2At256();
      assert v * (Pow2(bits - 256) * TWO256) == (v * Pow2(bits - 256)) * TWO256;
      ModMultiple(v * Pow2(bits - 256), TWO256);
    }
  }

  lemma ShrAgrees(bits: Word, v: Word)
    ensures v / Pow2(bits) == EvmShr(bits, v)
  {
    if bits >= 256 {
      Pow2At256();
      Pow2Monotone(256, bits);
      DivUnique(v, Pow2(bits), 0);
    }
  }

  lemma SarAgrees(bits: Word, v: Word)
    ensures Wrap(AsSigned(v) / Pow2(bits)) == EvmSar(bits, v)
  {
    if bits >= 256 {
      var s := AsSigned(v);
      Pow2At256();
      Pow2Monotone(256, bits);
      DivUnique(s, Pow2(bits), if s < 0 then -1 else 0);
      DivUnique(-1, TWO256, -1);
    }
  }

  // ---- opcodes: operands travel over the VM stack ------------------------------------

  function ReversedInts(ws: seq<Word>): (r: seq<Raw>)
    ensures |r| == |ws| && forall i :: 0 <= i < |ws| ==> r[|ws| - 1 - i] == I(ws[i])
  {
    seq(|ws|, i requires 0 <= i < |ws| => I(ws[|ws| - 1 - i]))
  }

  lemma {:induction false} PushesExec(h: Host, fs: seq<TFunc<TVar>>, fuel: nat, a: seq<TVar>, ws: seq<Word>, st: St<TVar>)
    requires |a| == |ws| && IntsHold(st.locals, a, ws)
    ensures Exec(h, fs, fuel, Pushes(a), st) == TRes(Done, st.(stack := st.stack + ReversedInts(ws)))
  {
    if a == [] {
      assert st.stack + ReversedInts(ws) == st.stack;
    } else {
      PushesExec(h, fs, fuel, a[1..], ws[1..], st);
      var st1 := st.(stack := st.stack + ReversedInts(ws[1..]));
      ExecAppend(h, fs, fuel, Pushes(a[1..]), [PushInt(a[0])], st);
      ExecOne(h, fs, fuel, PushInt(a[0]), st1);
      assert st1.stack + [I(ws[0])] == st.stack + ReversedInts(ws);
    }
  }

  /** One effect of an opcode on `FastMem` is that effect on flat memory. */
  lemma TouchOneSim(m: WordCache.Memory, w: World, e: Effect)
    requires WordCache.Good(m) && WordCache.Flat(m) == w.mem && AffectOne(w, e).exact
    ensures var d := TouchOne(m, e); d.ok && WordCache.Good(d.m) && WordCache.Flat(d.m) == AffectOne(w, e).mem
  {
    hide WordCache.Flat, WordCache.Coherent, WordCache.Fits, WordCache.Extend, WordCache.ReadBytes, WordCache.Write;
    match e
    case Access(p, n) =>
      var x := if n > 0 then WordCache.Extend(m, p, n) else m;
      if n > 0 { Extended(m, p, n); }
      ReadsKept(x, p, n);
    case Store(p, val) =>
      var x := if val != [] then WordCache.Extend(m, p, |val|) else m;
      if val != [] { Extended(m, p, |val|); }
      WordCache.WriteIs(x, p, val);
  }

  lemma Extended(m: WordCache.Memory, p: nat, n: nat)
    requires WordCache.Good(m) && n > 0
    ensures var x := WordCache.Extend(m, p, n);
      WordCache.Good(x) && WordCache.Flat(x) == FlatMemory.Extend(WordCache.Flat(m), p, n)
  {
    WordCache.ExtendIs(m, p, n);
  }

  lemma ReadsKept(m: WordCache.Memory, p: nat, n: nat)
    requires WordCache.Good(m)
    ensures var r := WordCache.ReadBytes(m, p, n);
      && (r.ok <==> FlatMemory.InRange(WordCache.Flat(m), p, n))
      && (r.ok ==> WordCache.Good(r.m) && WordCache.Flat(r.m) == WordCache.Flat(m)
                   && r.bs == FlatMemory.ReadBytes(WordCache.Flat(m), p, n))
  {
    WordCache.ReadBytesIs(m, p, n);
  }

  lemma {:induction false} TouchSim(m: WordCache.Memory, w: World, es: seq<Effect>)
    requires WordCache.Good(m) && WordCache.Flat(m) == w.mem && Affect(w, es).exact
    ensures var d := Touch(m, es); d.ok && WordCache.Good(d.m) && WordCache.Flat(d.m) == Affect(w, es).mem
    decreases |es|
  {
    hide WordCache.Flat, WordCache.Good, AffectOne, TouchOne;
    if es != [] {
      TouchOneSim(m, w, es[0]);
      TouchSim(TouchOne(m, es[0]).m, AffectOne(w, es[0]), es[1..]);
    }
  }

  lemma TopOperands(stack: seq<Raw>, ws: seq<Word>)
    ensures var s := stack + ReversedInts(ws);
      TopInts(s, |ws|) == ws && s[..|s| - |ws|] == stack
  {
    var s := stack + ReversedInts(ws);
    forall i: nat | i < |ws| ensures TopInts(s, |ws|)[i] == ws[i] {
      var j := |ws| - 1 - i;
      assert ReversedInts(ws)[j] == I(ws[i]);
      assert s[|stack| + j] == ReversedInts(ws)[j];
      assert |s| - 1 - i == |stack| + j;
    }
  }

  lemma OpcodeStep(h: Host, fs: seq<TFunc<TVar>>, fuel: nat, code: nat, produces: bool, ws: seq<Word>, st: St<TVar>)
    ensures var o := h.opcode(code, ws, View(st.vm).mem, st.vm.storage);
      var d := Touch(st.vm.mem, o.effects);
      var r := Step(h, fs, fuel, CallOpcode(code, |ws|, produces), st.(stack := st.stack + ReversedInts(ws)));
      d.ok ==>
        && r.ctl == (match o case OpOk(_, _, _) => Done case OpHalt(_, _, out) => Halt(out) case OpRevert(_, _, out) => Revert(out))
        && r.st.locals == st.locals && r.st.vm == Vm(d.m, o.storage)
        && r.st.stack == if o.OpOk? && produces then st.stack + [o.result] else st.stack
  {
    hide Touch, WordCache.Flat, WordCache.ReadBytes, WordCache.ReadWord, WordCache.Write, WordCache.WriteWord, WordCache.Extend, CalldataBytes;
    hide ReversedInts, TopInts;
    TopOperands(st.stack, ws);
  }

  /** The operands reach the opcode in order, and its result is left on the stack. */
  lemma OpcodeExec(h: Host, fs: seq<TFunc<TVar>>, fuel: nat, code: nat, produces: bool, a: seq<TVar>, ws: seq<Word>, st: St<TVar>)
    requires |a| == |ws| && IntsHold(st.locals, a, ws) && WordCache.Good(st.vm.mem)
    ensures var p := OpcodeMeans(h, code, produces, ws, View(st.vm));
            var o := h.opcode(code, ws, View(st.vm).mem, st.vm.storage);
            var r := Exec(h, fs, fuel, Pushes(a) + [CallOpcode(code, |a|, produces)], st);
            p.world.exact ==>
              && r.ctl == Erase(p.ctl) && Seen(r.st.vm, p.world) && r.st.locals == st.locals
              && r.st.stack == if o.OpOk? && produces then st.stack + [o.result] else st.stack
  {
    hide WordCache.Good, WordCache.Flat, Touch, Affect, Exec, Step, Pushes, ReversedInts;
    PushesExec(h, fs, fuel, a, ws, st);
    var st1 := st.(stack := st.stack + ReversedInts(ws));
    ExecAppend(h, fs, fuel, Pushes(a), [CallOpcode(code, |a|, produces)], st);
    ExecOne(h, fs, fuel, CallOpcode(code, |a|, produces), st1);
    OpcodeStep(h, fs, fuel, code, produces, ws, st);
    var o := h.opcode(code, ws, View(st.vm).mem, st.vm.storage);
    if Affect(View(st.vm), o.effects).exact { TouchSim(st.vm.mem, View(st.vm), o.effects); }
  }

  // ---- delivering a result -----------------------------------------------------------

  /** Evaluating `e` in `st` yields a value of type `have` for `w`, and leaves stack `stack` and world `world`. */
  ghost predicate Yields(h: Host, e: Expr<TVar>, st: St<TVar>, w: Word, have: Ty, stack: seq<Raw>, world: World) {
    var r := EvalExpr(h, e, st);
    && r.EOk?
    && r.st.locals == st.locals && r.st.stack == stack && Seen(r.st.vm, world)
    && IsItem(r.val) && ToInt(r.val) == w && HasType(r.val, have)
  }

  lemma ToIntEvaluates(h: Host, e: Expr<TVar>, st: St<TVar>)
    requires EvalExpr(h, e, st).EOk?
    ensures var r := EvalExpr(h, e, st); EvalExpr(h, ToIntCall(e), st) == EOk(I(ToInt(r.val)), r.st)
  {
    hide RJust32, ToBytes, FromBytes, WordCache.ReadWord, WordCache.Flat, Wrap, AsSigned, Ceil32;
  }

  lemma ToBytesEvaluates(h: Host, e: Expr<TVar>, st: St<TVar>)
    requires EvalExpr(h, e, st).EOk?
    ensures var r := EvalExpr(h, e, st);
      EvalExpr(h, ToBytesCall(e), st) ==
        match r.val
        case B(bs) => EOk(B(RJust32(bs)), r.st)
        case I(n) => if 0 <= n < TWO256 then EOk(B(Bytes32(n)), r.st) else EErr(TypeError)
  {
    hide RJust32, ToBytes, FromBytes, WordCache.ReadWord, WordCache.Flat, Wrap, AsSigned, Ceil32;
  }

  lemma ParenEvaluates(h: Host, e: Expr<TVar>, st: St<TVar>)
    ensures EvalExpr(h, Paren(e), st) == EvalExpr(h, e, st)
  {
    hide RJust32, ToBytes, FromBytes, WordCache.ReadWord, WordCache.Flat, Wrap, AsSigned, Ceil32;
  }

  lemma ConvertEvaluates(h: Host, e: Expr<TVar>, st: St<TVar>, have: Ty, want: Ty)
    ensures var r, c := EvalExpr(h, e, st), EvalExpr(h, Convert(e, have, want), st);
      r.EOk? ==>
        c == if have != want && want == TInt then EOk(I(ToInt(r.val)), r.st)
             else if have != want && want == TBytes then
               match r.val
               case B(bs) => EOk(B(RJust32(bs)), r.st)
               case I(n) => if 0 <= n < TWO256 then EOk(B(Bytes32(n)), r.st) else EErr(TypeError)
             else r
  {
    hide EvalExpr, RJust32, ToBytes, FromBytes;
    if EvalExpr(h, e, st).EOk? {
      ToIntEvaluates(h, e, st);
      ToBytesEvaluates(h, e, st);
      ParenEvaluates(h, e, st);
    }
  }

  lemma ConvertYields(h: Host, e: Expr<TVar>, st: St<TVar>, w: Word, have: Ty, want: Ty, stack: seq<Raw>, world: World)
    requires Yields(h, e, st, w, have, stack, world)
    ensures Yields(h, Convert(e, have, want), st, w, want, stack, world)
    ensures want == TStackItem ==> Yields(h, Convert(e, have, want), st, w, have, stack, world)
  {
    var r := EvalExpr(h, e, st);
    ConvertEvaluates(h, e, st, have, want);
    hide Seen, EvalExpr, RJust32, ToBytes, FromBytes;
    if want == TBytes && have != want {
      match r.val
      case B(bs) =>
        RJustIsWordBytes(bs);
        WordRoundTrip(w);
      case I(n) => WordRoundTrip(w);
    }
  }

  lemma DeliverExec(h: Host, fs: seq<TFunc<TVar>>, fuel: nat, e: Expr<TVar>, st: St<TVar>, w: Word, have: Ty,
                    out: Option<TVar>, want: Ty, stack: seq<Raw>, world: World)
    requires Yields(h, e, st, w, have, stack, world)
    ensures var r := Exec(h, fs, fuel, Deliver(Some(e), have, out, want), st);
            && r.ctl == Done && Seen(r.st.vm, world) && r.st.stack == stack
            && (out.None? ==> r.st.locals == st.locals)
            && (out.Some? ==>
                 && Holds(r.st.locals, out.value, w, want, have)
                 && r.st.locals == st.locals[out.value := r.st.locals[out.value]])
  {
    hide Seen;
    if out.None? {
      ExecOne(h, fs, fuel, ExprStmt(e), st);
    } else {
      ConvertYields(h, e, st, w, have, want, stack, world);
      ExecOne(h, fs, fuel, Assign(out.value, Convert(e, have, want)), st);
    }
  }

  // ---- one operation -----------------------------------------------------------------

  /** What the emitted statements and the result expression must do, as long as the guards are met. */
  ghost predicate EmitOk(h: Host, fs: seq<TFunc<TVar>>, fuel: nat, m: Emitted, have: Ty, p: OpRes, st: St<TVar>) {
    var r := Exec(h, fs, fuel, m.stmts, st);
    p.world.exact ==>
      && r.ctl == Erase(p.ctl)
      && Seen(r.st.vm, p.world)
      && (Live(p.ctl) ==> OnlyScratch(st.locals, r.st.locals))
      && (p.ctl.Val? ==> m.res.Some? && Yields(h, m.res.value, r.st, p.ctl.w, have, st.stack, p.world))
      && (Live(p.ctl) && !p.ctl.Val? ==> m.res.None? && r.st.stack == st.stack)
  }

  lemma EmitExpr(h: Host, fs: seq<TFunc<TVar>>, fuel: nat, e: Expr<TVar>, have: Ty, w: Word, st: St<TVar>)
    requires WordCache.Good(st.vm.mem) && Yields(h, e, st, w, have, st.stack, View(st.vm))
    ensures EmitOk(h, fs, fuel, Emitted([], Some(e)), have, OpRes(Val(w), View(st.vm)), st)
  {}

  /** Nothing is claimed once a guard has failed. */
  lemma EmitInexact(h: Host, fs: seq<TFunc<TVar>>, fuel: nat, m: Emitted, have: Ty, p: OpRes, st: St<TVar>)
    requires !p.world.exact
    ensures EmitOk(h, fs, fuel, m, have, p, st)
  {}

  lemma EmitStmt(h: Host, fs: seq<TFunc<TVar>>, fuel: nat, s: Stmt<TVar>, have: Ty, p: OpRes, st: St<TVar>)
    requires !p.ctl.Val?
    requires var r := Step(h, fs, fuel, s, st);
             p.world.exact ==> r.ctl == p.ctl && Seen(r.st.vm, p.world) && r.st.locals == st.locals && r.st.stack == st.stack
    ensures EmitOk(h, fs, fuel, Emitted([s], None), have, p, st)
  {
    ExecOne(h, fs, fuel, s, st);
  }

  lemma EmitMessage(h: Host, fs: seq<TFunc<TVar>>, fuel: nat, op: Op, st: St<TVar>)
    requires op.Caller? || op.CallValue? || op.CalldataSize?
    requires WordCache.Good(st.vm.mem)
    ensures EmitOk(h, fs, fuel, Emit(op, []), TypeOf(AApply(op, [])), ApplyOp(h, op, [], View(st.vm)), st)
  {
    hide WordCache.Good, WordCache.Flat, WordCache.ReadWord, WordCache.ReadBytes, WordCache.WriteWord, WordCache.Extend, EmitOk, Exec, Step;
    if op.Caller? {
      EmitExpr(h, fs, fuel, MsgSender, TBytes, ItemWord(B(h.sender)), st);
    } else if op.CallValue? {
      EmitExpr(h, fs, fuel, MsgValue, TInt, h.value, st);
    } else {
      EmitExpr(h, fs, fuel, LenMsgData, TInt, |h.data|, st);
    }
  }

  lemma CalldataExec(h: Host, fs: seq<TFunc<TVar>>, fuel: nat, p: TVar, a: Word, st: St<TVar>)
    requires p in st.locals && st.locals[p] == I(a)
    requires WordCache.Good(st.vm.mem)
    ensures var val := Scratch("val");
            EmitOk(h, fs, fuel, Emitted([LoadCalldata(val, p)], Some(Name(val))), TBytes,
                   OpRes(Val(ItemWord(B(CalldataWord(h.data, a)))), View(st.vm)), st)
  {
    hide WordCache.Good, WordCache.Flat, WordCache.ReadWord, WordCache.ReadBytes, WordCache.WriteWord, WordCache.Extend;
    ExecOne(h, fs, fuel, LoadCalldata(Scratch("val"), p), st);
  }

  /** `mload`: the word is always right; the cache stays coherent when the read is harmless. */
  lemma MLoadExec(h: Host, fs: seq<TFunc<TVar>>, fuel: nat, p: TVar, a: Word, st: St<TVar>)
    requires p in st.locals && st.locals[p] == I(a) && WordCache.Good(st.vm.mem)
    ensures EmitOk(h, fs, fuel, Emitted([ExtendMem(p)], Some(ReadWord(p))), TInt, LoadMem(View(st.vm), a), st)
  {
    hide WordCache.Flat, WordCache.Good, WordCache.ReadWord, WordCache.Extend, FlatMemory.Extend, FlatMemory.ReadWord;
    ExecOne(h, fs, fuel, ExtendMem(p), st);
    Extended(st.vm.mem, a, 32);
    LoadsWord(WordCache.Extend(st.vm.mem, a, 32), a);
  }

  lemma LoadsWord(m: WordCache.Memory, a: nat)
    requires WordCache.Good(m) && a + 32 <= |WordCache.Flat(m)|
    ensures var r := WordCache.ReadWord(m, a);
      && r.ok && r.w == FlatMemory.ReadWord(WordCache.Flat(m), a) && WordCache.Flat(r.m) == WordCache.Flat(m)
      && (WordCache.Good(r.m) <==> FlatMemory.Harmless(WordCache.Flat(m), a))
  {
    WordCache.ReadWordIs(m, a);
  }

  lemma StoresWord(m: WordCache.Memory, a: nat, w: Word)
    requires WordCache.Good(m) && a + 32 <= |WordCache.Flat(m)|
    ensures var d := WordCache.WriteWord(m, a, w);
      d.ok && WordCache.Good(d.m) && WordCache.Flat(d.m) == FlatMemory.WriteWord(WordCache.Flat(m), a, w)
  {
    WordCache.WriteWordIs(m, a, w);
  }

  lemma MStoreExec(h: Host, fs: seq<TFunc<TVar>>, fuel: nat, p: TVar, v: TVar, a: Word, b: Word, st: St<TVar>, have: Ty)
    requires p in st.locals && st.locals[p] == I(a) && v in st.locals && st.locals[v] == I(b) && WordCache.Good(st.vm.mem)
    ensures EmitOk(h, fs, fuel, Emitted([ExtendMem(p), StoreWord(p, v)], None), have, StoreMem(View(st.vm), a, b), st)
  {
    hide WordCache.Flat, WordCache.Good, WordCache.WriteWord, WordCache.Extend, FlatMemory.Extend, FlatMemory.WriteWord;
    ExecTwo(h, fs, fuel, ExtendMem(p), StoreWord(p, v), st);
    Extended(st.vm.mem, a, 32);
    StoresWord(WordCache.Extend(st.vm.mem, a, 32), a, b);
  }

  lemma SStoreExec(h: Host, fs: seq<TFunc<TVar>>, fuel: nat, p: TVar, v: TVar, a: Word, b: Word, st: St<TVar>, have: Ty)
    requires p in st.locals && st.locals[p] == I(a) && v in st.locals && st.locals[v] == I(b) && WordCache.Good(st.vm.mem)
    ensures EmitOk(h, fs, fuel, Emitted([RaiseIfStatic, SetStorage(p, v)], None), have, ApplyOp(h, SStore, [a, b], View(st.vm)), st)
  {
    hide WordCache.Flat, WordCache.Good;
    ExecTwo(h, fs, fuel, RaiseIfStatic, SetStorage(p, v), st);
  }

  /** Extending and writing, as the copy template does: a flat copy, unless it extends by nothing. */
  lemma CopySim(m: WordCache.Memory, w: World, ptr: nat, val: seq<Byte>)
    requires WordCache.Good(m) && WordCache.Flat(m) == w.mem && CopyMem(w, ptr, val).exact
    ensures var d := WordCache.Write(WordCache.Extend(m, ptr, |val|), ptr, val);
      d.ok && WordCache.Good(d.m) && WordCache.Flat(d.m) == CopyMem(w, ptr, val).mem
  {
    hide WordCache.Flat, WordCache.Coherent, WordCache.Write;
    WordCache.ExtendIs(m, ptr, |val|);
    WordCache.WriteIs(WordCache.Extend(m, ptr, |val|), ptr, val);
  }

  lemma CopyEmits(a: seq<TVar>)
    requires |a| == 3
    ensures var v := Scratch("val");
      Emit(CalldataCopy, a) == Emitted([CutCalldata(v, a[1], a[2])] + [ExtendBy(a[0], a[2]), WriteMem(a[0], a[2], v)], None)
  {}

  lemma CutStep(h: Host, fs: seq<TFunc<TVar>>, fuel: nat, v: TVar, p: TVar, n: TVar, ptr: Word, size: Word, st: St<TVar>)
    requires p in st.locals && st.locals[p] == I(ptr) && n in st.locals && st.locals[n] == I(size)
    ensures Exec(h, fs, fuel, [CutCalldata(v, p, n)], st) ==
      TRes(Done, st.(locals := st.locals[v := B(CalldataBytes(h.data, ptr, size))]))
  {
    hide CalldataBytes;
    ExecOne(h, fs, fuel, CutCalldata(v, p, n), st);
  }

  lemma PutRun(h: Host, fs: seq<TFunc<TVar>>, fuel: nat, p: TVar, n: TVar, v: TVar, ptr: Word, size: Word, val: seq<Byte>, st: St<TVar>)
    requires p in st.locals && st.locals[p] == I(ptr) && n in st.locals && st.locals[n] == I(size)
    requires v in st.locals && st.locals[v] == B(val) && |val| == size
    ensures var d := WordCache.Write(WordCache.Extend(st.vm.mem, ptr, size), ptr, val);
      Exec(h, fs, fuel, [ExtendBy(p, n), WriteMem(p, n, v)], st) ==
        TRes(if d.ok then Done else Fault(OutsideMemory), st.Remember(d.m))
  {
    hide WordCache.Flat, WordCache.Write, WordCache.Extend, WordCache.ReadBytes, WordCache.ReadWord, WordCache.WriteWord, Touch;
    ExecTwo(h, fs, fuel, ExtendBy(p, n), WriteMem(p, n, v), st);
  }

  /** The template: cut the call data, extend, write. */
  lemma CopyRun(h: Host, fs: seq<TFunc<TVar>>, fuel: nat, a: seq<TVar>, ws: seq<Word>, st: St<TVar>)
    requires |a| == |ws| == 3 && IntsHold(st.locals, a, ws) && forall v :: v in a ==> !v.Scratch?
    ensures var val := CalldataBytes(h.data, ws[1], ws[2]);
      var d := WordCache.Write(WordCache.Extend(st.vm.mem, ws[0], ws[2]), ws[0], val);
      Exec(h, fs, fuel, Emit(CalldataCopy, a).stmts, st) ==
        TRes(if d.ok then Done else Fault(OutsideMemory), st.(locals := st.locals[Scratch("val") := B(val)], vm := st.vm.(mem := d.m)))
  {
    hide Exec, Emit, WordCache.Write, WordCache.Extend, CalldataBytes;
    var v, val := Scratch("val"), CalldataBytes(h.data, ws[1], ws[2]);
    assert st.locals[a[0]] == I(ws[0]) && st.locals[a[1]] == I(ws[1]) && st.locals[a[2]] == I(ws[2]);
    assert a[0] != v && a[2] != v by { assert a[0] in a && a[2] in a; }
    CopyEmits(a);
    ExecAppend(h, fs, fuel, [CutCalldata(v, a[1], a[2])], [ExtendBy(a[0], a[2]), WriteMem(a[0], a[2], v)], st);
    CutStep(h, fs, fuel, v, a[1], a[2], ws[1], ws[2], st);
    PutRun(h, fs, fuel, a[0], a[2], v, ws[0], ws[2], val, st.(locals := st.locals[v := B(val)]));
  }

  lemma EmitCopy(h: Host, fs: seq<TFunc<TVar>>, fuel: nat, args: seq<AIR>, ws: seq<Word>, a: seq<TVar>, st: St<TVar>)
    requires |a| == |args| == |ws| == 3 && IntsHold(st.locals, a, ws) && WordCache.Good(st.vm.mem)
    requires forall v :: v in a ==> !v.Scratch?
    ensures EmitOk(h, fs, fuel, Emit(CalldataCopy, a), TypeOf(AApply(CalldataCopy, args)), ApplyOp(h, CalldataCopy, ws, View(st.vm)), st)
  {
    hide WordCache.Flat, WordCache.Good, WordCache.Write, WordCache.Extend, CalldataBytes, Exec;
    CopyRun(h, fs, fuel, a, ws, st);
    CopyMeans(h, args, a, ws, View(st.vm));
    if CopyMem(View(st.vm), ws[0], CalldataBytes(h.data, ws[1], ws[2])).exact {
      CopySim(st.vm.mem, View(st.vm), ws[0], CalldataBytes(h.data, ws[1], ws[2]));
    }
  }

  lemma CopyMeans(h: Host, args: seq<AIR>, a: seq<TVar>, ws: seq<Word>, w: World)
    requires |args| == |a| == |ws| == 3
    ensures Emit(CalldataCopy, a).res == None && TypeOf(AApply(CalldataCopy, args)) == TNone
    ensures ApplyOp(h, CalldataCopy, ws, w) == OpRes(Done, CopyMem(w, ws[0], CalldataBytes(h.data, ws[1], ws[2])))
  {
    hide CopyMem, CalldataBytes;
  }

  /** `return` and `revert`: the bytes of memory, when they lie in it. */
  lemma OutputExec(m: WordCache.Memory, w: World, ptr: nat, size: nat)
    requires WordCache.Good(m) && WordCache.Flat(m) == w.mem && Output(w, ptr, size).1.exact
    ensures var r := WordCache.ReadBytes(m, ptr, size);
      && r.ok && r.bs == Output(w, ptr, size).0
      && WordCache.Good(r.m) && WordCache.Flat(r.m) == Output(w, ptr, size).1.mem
  {
    ReadsKept(m, ptr, size);
    assert FlatMemory.Extend(w.mem, ptr, size) == w.mem;
  }

  lemma PreimageOne(st: St<TVar>, a: TVar, x: Word)
    requires Holds(st.locals, a, x, TBytes, TNone)
    ensures JoinParts(st, [a]) == POk(Bytes32(x))
  {
    RJustIsWordBytes(st.locals[a].bs);
    assert [a][1..] == [];
    assert Bytes32(x) + [] == Bytes32(x);
  }

  lemma PreimageTwo(st: St<TVar>, a: TVar, b: TVar, x: Word, y: Word)
    requires Holds(st.locals, a, x, TBytes, TNone) && Holds(st.locals, b, y, TBytes, TNone)
    ensures JoinParts(st, [a, b]) == POk(Bytes32(x) + Bytes32(y))
  {
    RJustIsWordBytes(st.locals[a].bs);
    PreimageOne(st, b, y);
    assert [a, b][1..] == [b];
  }

  lemma Sha64Exec(h: Host, fs: seq<TFunc<TVar>>, fuel: nat, a: TVar, b: TVar, x: Word, y: Word, st: St<TVar>)
    requires Holds(st.locals, a, x, TBytes, TNone) && Holds(st.locals, b, y, TBytes, TNone)
    requires WordCache.Good(st.vm.mem)
    ensures var pre, image := Scratch("preimage"), Scratch("image");
            EmitOk(h, fs, fuel, Emitted([Preimage(pre, [a, b]), Assign(image, Keccak(pre))], Some(Name(image))), TNone,
                   OpRes(Val(ItemWord(B(h.keccak(Bytes32(x) + Bytes32(y))))), View(st.vm)), st)
  {
    hide WordCache.Good, WordCache.Flat, WordCache.ReadWord, WordCache.ReadBytes, WordCache.WriteWord, WordCache.Extend;
    PreimageTwo(st, a, b, x, y);
    ExecTwo(h, fs, fuel, Preimage(Scratch("preimage"), [a, b]), Assign(Scratch("image"), Keccak(Scratch("preimage"))), st);
  }

  lemma Sha32Exec(h: Host, fs: seq<TFunc<TVar>>, fuel: nat, a: TVar, x: Word, st: St<TVar>)
    requires Holds(st.locals, a, x, TBytes, TNone)
    requires WordCache.Good(st.vm.mem)
    ensures var pre := Scratch("preimage");
            EmitOk(h, fs, fuel, Emitted([Preimage(pre, [a])], Some(Keccak(pre))), TNone,
                   OpRes(Val(ItemWord(B(h.keccak(Bytes32(x))))), View(st.vm)), st)
  {
    hide WordCache.Good, WordCache.Flat, WordCache.ReadWord, WordCache.ReadBytes, WordCache.WriteWord, WordCache.Extend;
    PreimageOne(st, a, x);
    ExecOne(h, fs, fuel, Preimage(Scratch("preimage"), [a]), st);
  }

  lemma OpcodeEmit(h: Host, fs: seq<TFunc<TVar>>, fuel: nat, code: nat, produces: bool, a: seq<TVar>, ws: seq<Word>, st: St<TVar>)
    requires |a| == |ws| && IntsHold(st.locals, a, ws) && WordCache.Good(st.vm.mem)
    ensures EmitOk(h, fs, fuel,
                   Emitted(Pushes(a) + [CallOpcode(code, |a|, produces)], if produces then Some(StackPop) else None), TStackItem,
                   OpcodeMeans(h, code, produces, ws, View(st.vm)), st)
  {
    hide WordCache.Flat, WordCache.Good, Affect, Exec, Pushes;
    OpcodeExec(h, fs, fuel, code, produces, a, ws, st);
    var r := h.opcode(code, ws, View(st.vm).mem, st.vm.storage);
    if r.OpOk? && produces {
      assert (st.stack + [r.result])[..|st.stack|] == st.stack;
    }
  }

  /** Operations that are one expression over int operands. */
  lemma EmitShift(h: Host, fs: seq<TFunc<TVar>>, fuel: nat, op: Op, args: seq<AIR>, ws: seq<Word>, a: seq<TVar>, st: St<TVar>)
    requires op.Shl? || op.Shr? || op.Sar?
    requires |a| == |args| == |ws| == Arity(op)
    requires IntsHold(st.locals, a, ws)
    requires WordCache.Good(st.vm.mem)
    ensures EmitOk(h, fs, fuel, Emit(op, a), TypeOf(AApply(op, args)), ApplyOp(h, op, ws, View(st.vm)), st)
  {
    hide WordCache.Good, WordCache.Flat, WordCache.ReadWord, WordCache.ReadBytes, WordCache.WriteWord, WordCache.Extend;
    hide Exec; hide EmitOk; hide Pow2;
    assert st.locals[a[0]] == I(ws[0]) && st.locals[a[1]] == I(ws[1]);
    match op {
      case Shl =>
        ShlAgrees(ws[0], ws[1]);
        EmitExpr(h, fs, fuel, ShiftLeft(a[1], a[0]), TInt, EvmShl(ws[0], ws[1]), st);
      case Shr =>
        ShrAgrees(ws[0], ws[1]);
        EmitExpr(h, fs, fuel, ShiftRight(a[1], a[0]), TInt, EvmShr(ws[0], ws[1]), st);
      case Sar =>
        SarAgrees(ws[0], ws[1]);
        EmitExpr(h, fs, fuel, SignedShiftRight(a[1], a[0]), TInt, EvmSar(ws[0], ws[1]), st);
    }
  }

  /** Python's `ceil32` is the EVM's `(x + 31) & ~31` exactly up to 2**256 - 32, and 2**256 above. */
  lemma CeilAgreesIff(x: Word)
    ensures Ceil32(x) == EvmCeil(x) <==> x <= TWO256 - 32
    ensures Ceil32(x) < TWO256 <==> x <= TWO256 - 32
    ensures x > TWO256 - 32 ==> Ceil32(x) == TWO256
  {}

  lemma CeilMeans(h: Host, args: seq<AIR>, a: seq<TVar>, ws: seq<Word>, w: World)
    requires |args| == |a| == |ws| == 1
    ensures Emit(CeilTo32, a) == Emitted([], Some(Ceil32Of(a[0]))) && TypeOf(AApply(CeilTo32, args)) == TInt
    ensures ApplyOp(h, CeilTo32, ws, w) == OpRes(Val(EvmCeil(ws[0])), w.Under(ws[0] <= TWO256 - 32))
  {
    hide EvmCeil;
  }

  lemma CeilYields(h: Host, v: TVar, x: Word, st: St<TVar>)
    requires v in st.locals && st.locals[v] == I(x) && x <= TWO256 - 32 && WordCache.Good(st.vm.mem)
    ensures Yields(h, Ceil32Of(v), st, EvmCeil(x), TInt, st.stack, View(st.vm))
  {
    hide EvmCeil, Ceil32, WordCache.Good, WordCache.Flat;
    CeilAgreesIff(x);
  }

  /** Rounding up is exact as long as it stays below 2**256. */
  lemma EmitCeil(h: Host, fs: seq<TFunc<TVar>>, fuel: nat, args: seq<AIR>, ws: seq<Word>, a: seq<TVar>, st: St<TVar>)
    requires |a| == |args| == |ws| == 1 && IntsHold(st.locals, a, ws) && WordCache.Good(st.vm.mem)
    ensures EmitOk(h, fs, fuel, Emit(CeilTo32, a), TypeOf(AApply(CeilTo32, args)), ApplyOp(h, CeilTo32, ws, View(st.vm)), st)
  {
    hide Exec, EmitOk, Emit, ApplyOp, TypeOf, Yields, EvmCeil, WordCache.Good, WordCache.Flat;
    CeilMeans(h, args, a, ws, View(st.vm));
    assert st.locals[a[0]] == I(ws[0]);
    if ws[0] <= TWO256 - 32 {
      CeilYields(h, a[0], ws[0], st);
      EmitExpr(h, fs, fuel, Ceil32Of(a[0]), TInt, EvmCeil(ws[0]), st);
    } else {
      EmitInexact(h, fs, fuel, Emit(CeilTo32, a), TypeOf(AApply(CeilTo32, args)), ApplyOp(h, CeilTo32, ws, View(st.vm)), st);
    }
  }

  lemma EmitIntExpr(h: Host, fs: seq<TFunc<TVar>>, fuel: nat, op: Op, args: seq<AIR>, ws: seq<Word>, a: seq<TVar>, st: St<TVar>)
    requires op.Arith? || op.IsZero? || op.CeilTo32? || op.SLoad?
    requires |a| == |args| == |ws| == Arity(op)
    requires IntsHold(st.locals, a, ws)
    requires WordCache.Good(st.vm.mem)
    ensures EmitOk(h, fs, fuel, Emit(op, a), TypeOf(AApply(op, args)), ApplyOp(h, op, ws, View(st.vm)), st)
  {
    hide WordCache.Good, WordCache.Flat, WordCache.ReadWord, WordCache.ReadBytes, WordCache.WriteWord, WordCache.Extend;
    hide Exec; hide EmitOk;
    assert st.locals[a[0]] == I(ws[0]);
    match op {
      case Arith(f, signed) =>
        EmitExpr(h, fs, fuel, Binop(f, signed, a[0], a[1]), TInt, ApplyOp(h, op, ws, View(st.vm)).ctl.w, st);
      case IsZero => EmitExpr(h, fs, fuel, EqZero(a[0]), TInt, Bool(ws[0] == 0), st);
      case CeilTo32 => EmitCeil(h, fs, fuel, args, ws, a, st);
      case SLoad => EmitExpr(h, fs, fuel, GetStorage(a[0]), TInt, st.vm.Load(ws[0]), st);
    }
  }

  /** Operations that read call data or memory, or write memory or storage. */
  lemma EmitAccess(h: Host, fs: seq<TFunc<TVar>>, fuel: nat, op: Op, args: seq<AIR>, ws: seq<Word>, a: seq<TVar>, st: St<TVar>)
    requires op.CalldataLoad? || op.MLoad? || op.MStore? || op.SStore?
    requires |a| == |args| == |ws| == Arity(op)
    requires IntsHold(st.locals, a, ws)
    requires WordCache.Good(st.vm.mem)
    ensures EmitOk(h, fs, fuel, Emit(op, a), TypeOf(AApply(op, args)), ApplyOp(h, op, ws, View(st.vm)), st)
  {
    hide WordCache.Good, WordCache.Flat, WordCache.ReadWord, WordCache.ReadBytes, WordCache.WriteWord, WordCache.Extend;
    match op {
      case CalldataLoad => CalldataExec(h, fs, fuel, a[0], ws[0], st);
      case MLoad => MLoadExec(h, fs, fuel, a[0], ws[0], st);
      case MStore => MStoreExec(h, fs, fuel, a[0], a[1], ws[0], ws[1], st, TNone);
      case SStore => SStoreExec(h, fs, fuel, a[0], a[1], ws[0], ws[1], st, TInt);
    }
  }

  lemma AssertStep(h: Host, fs: seq<TFunc<TVar>>, fuel: nat, ws: seq<Word>, a: seq<TVar>, st: St<TVar>)
    requires |a| == |ws| == 1 && IntsHold(st.locals, a, ws)
    ensures var p := ApplyOp(h, Assert, ws, View(st.vm));
      Emit(Assert, a) == Emitted([RaiseUnless(a[0])], None) && !p.ctl.Val? && p.world == View(st.vm)
      && Step(h, fs, fuel, RaiseUnless(a[0]), st) == TRes(p.ctl, st)
  {
    hide WordCache.Good, WordCache.Flat, WordCache.ReadWord, WordCache.ReadBytes, WordCache.WriteWord, WordCache.Extend;
    assert st.locals[a[0]] == I(ws[0]);
  }

  function OutputStmt(op: Op, ptr: TVar, size: TVar): Stmt<TVar> {
    if op.RevertOp? then RaiseRevert(ptr, size) else RaiseReturn(ptr, size)
  }

  function OutputCtl(op: Op, bs: seq<Byte>): Ctl {
    if op.RevertOp? then Revert(bs) else Halt(bs)
  }

  lemma OutputMeans(h: Host, op: Op, ws: seq<Word>, a: seq<TVar>, w: World)
    requires (op.RevertOp? || op.ReturnOp?) && |a| == |ws| == 2
    ensures Emit(op, a) == Emitted([OutputStmt(op, a[0], a[1])], None)
    ensures ApplyOp(h, op, ws, w) == OpRes(OutputCtl(op, Output(w, ws[0], ws[1]).0), Output(w, ws[0], ws[1]).1)
  {
    hide Output;
  }

  lemma OutputStep(h: Host, fs: seq<TFunc<TVar>>, fuel: nat, op: Op, p: TVar, n: TVar, ptr: Word, size: Word, st: St<TVar>)
    requires p in st.locals && st.locals[p] == I(ptr) && n in st.locals && st.locals[n] == I(size)
    ensures var r := WordCache.ReadBytes(st.vm.mem, ptr, size);
      Step(h, fs, fuel, OutputStmt(op, p, n), st) ==
        TRes(if r.ok then OutputCtl(op, r.bs) else Fault(OutsideMemory), st.Remember(r.m))
  {
    hide WordCache.Flat, WordCache.ReadWord, WordCache.ReadBytes, WordCache.WriteWord, WordCache.Extend;
  }

  lemma EmitRaise(h: Host, fs: seq<TFunc<TVar>>, fuel: nat, op: Op, args: seq<AIR>, ws: seq<Word>, a: seq<TVar>, st: St<TVar>)
    requires op.Assert? || op.RevertOp? || op.ReturnOp?
    requires |a| == |args| == |ws| == Arity(op)
    requires IntsHold(st.locals, a, ws)
    requires WordCache.Good(st.vm.mem)
    ensures EmitOk(h, fs, fuel, Emit(op, a), TypeOf(AApply(op, args)), ApplyOp(h, op, ws, View(st.vm)), st)
  {
    hide EmitOk, Exec, Step, Emit, ApplyOp, Output, WordCache.Good, WordCache.Flat, WordCache.ReadBytes, TypeOf;
    var p := ApplyOp(h, op, ws, View(st.vm));
    if op.Assert? {
      AssertStep(h, fs, fuel, ws, a, st);
      EmitStmt(h, fs, fuel, RaiseUnless(a[0]), TypeOf(AApply(op, args)), p, st);
    } else {
      OutputMeans(h, op, ws, a, View(st.vm));
      OutputStep(h, fs, fuel, op, a[0], a[1], ws[0], ws[1], st);
      if Output(View(st.vm), ws[0], ws[1]).1.exact { OutputExec(st.vm.mem, View(st.vm), ws[0], ws[1]); }
      OutputWorld(View(st.vm), ws[0], ws[1]);
      EmitStmt(h, fs, fuel, OutputStmt(op, a[0], a[1]), TypeOf(AApply(op, args)), p, st);
    }
  }

  lemma OutputWorld(w: World, ptr: nat, size: nat)
    ensures Output(w, ptr, size).1.storage == w.storage && (Output(w, ptr, size).1.exact ==> w.exact)
  {}

  lemma JumpStep(h: Host, fs: seq<TFunc<TVar>>, fuel: nat, op: Op, st: St<TVar>)
    requires op.Stop? || op.Break? || op.Continue? || op.Pass? || op.CleanupRepeat?
    ensures var m, p := Emit(op, []), ApplyOp(h, op, [], View(st.vm));
      |m.stmts| == 1 && m == Emitted([m.stmts[0]], None) && !p.ctl.Val? && p.world == View(st.vm)
      && Step(h, fs, fuel, m.stmts[0], st) == TRes(p.ctl, st)
  {
    hide WordCache.Good, WordCache.Flat, WordCache.ReadWord, WordCache.ReadBytes, WordCache.WriteWord, WordCache.Extend;
  }

  lemma EmitJump(h: Host, fs: seq<TFunc<TVar>>, fuel: nat, op: Op, st: St<TVar>)
    requires op.Stop? || op.Break? || op.Continue? || op.Pass? || op.CleanupRepeat?
    requires WordCache.Good(st.vm.mem)
    ensures EmitOk(h, fs, fuel, Emit(op, []), TypeOf(AApply(op, [])), ApplyOp(h, op, [], View(st.vm)), st)
  {
    hide EmitOk, Exec, Step, Emit, ApplyOp, WordCache.Good, WordCache.Flat, TypeOf;
    JumpStep(h, fs, fuel, op, st);
    EmitStmt(h, fs, fuel, Emit(op, []).stmts[0], TypeOf(AApply(op, [])), ApplyOp(h, op, [], View(st.vm)), st);
  }

  lemma EmitHash(h: Host, fs: seq<TFunc<TVar>>, fuel: nat, op: Op, args: seq<AIR>, ws: seq<Word>, a: seq<TVar>, st: St<TVar>)
    requires op.Sha3_64? || op.Sha3_32?
    requires |a| == |args| == |ws| == Arity(op)
    requires forall i :: 0 <= i < |ws| ==> Holds(st.locals, a[i], ws[i], TBytes, TNone)
    requires WordCache.Good(st.vm.mem)
    ensures EmitOk(h, fs, fuel, Emit(op, a), TypeOf(AApply(op, args)), ApplyOp(h, op, ws, View(st.vm)), st)
  {
    hide WordCache.Good, WordCache.Flat, WordCache.ReadWord, WordCache.ReadBytes, WordCache.WriteWord, WordCache.Extend;
    assert Holds(st.locals, a[0], ws[0], TBytes, TNone);
    if op.Sha3_64? {
      Sha64Exec(h, fs, fuel, a[0], a[1], ws[0], ws[1], st);
    } else {
      Sha32Exec(h, fs, fuel, a[0], ws[0], st);
    }
  }

  /** `select` hands on the raw value it picks, so its static type must fit both of them. */
  lemma EmitSelect(h: Host, fs: seq<TFunc<TVar>>, fuel: nat, args: seq<AIR>, ws: seq<Word>, a: seq<TVar>, st: St<TVar>)
    requires |a| == |args| == |ws| == 3
    requires OperandsHold(st.locals, a, args, ws, OperandTypes(Select, 3))
    requires WordCache.Good(st.vm.mem)
    ensures EmitOk(h, fs, fuel, Emit(Select, a), TypeOf(AApply(Select, args)), ApplyOp(h, Select, ws, View(st.vm)), st)
  {
    hide WordCache.Good, WordCache.Flat, WordCache.ReadWord, WordCache.ReadBytes, WordCache.WriteWord, WordCache.Extend;
    assert Holds(st.locals, a[0], ws[0], TInt, TypeOf(args[0]));
    assert Holds(st.locals, a[1], ws[1], TStackItem, TypeOf(args[1]));
    assert Holds(st.locals, a[2], ws[2], TStackItem, TypeOf(args[2]));
    EmitExpr(h, fs, fuel, Cond(a[1], a[0], a[2]), TypeOf(AApply(Select, args)),
             if ws[0] != 0 then ws[1] else ws[2], st);
  }

  lemma IntOperands(op: Op, args: seq<AIR>, ws: seq<Word>, a: seq<TVar>, st: St<TVar>)
    requires !op.Select? && !op.Sha3_64? && !op.Sha3_32?
    requires |a| == |args| == |ws|
    requires OperandsHold(st.locals, a, args, ws, OperandTypes(op, |args|))
    ensures IntsHold(st.locals, a, ws)
  {
    forall i | 0 <= i < |ws| ensures a[i] in st.locals && st.locals[a[i]] == I(ws[i]) {
      assert Holds(st.locals, a[i], ws[i], TInt, TypeOf(args[i]));
    }
  }

  lemma EmitSim(h: Host, fs: seq<TFunc<TVar>>, fuel: nat, op: Op, args: seq<AIR>, ws: seq<Word>, a: seq<TVar>, st: St<TVar>)
    requires |a| == |args| == |ws| == Arity(op)
    requires OperandsHold(st.locals, a, args, ws, OperandTypes(op, |args|))
    requires WordCache.Good(st.vm.mem)
    requires forall v :: v in a ==> !v.Scratch?
    ensures EmitOk(h, fs, fuel, Emit(op, a), TypeOf(AApply(op, args)), ApplyOp(h, op, ws, View(st.vm)), st)
  {
    hide WordCache.Good, WordCache.Flat, WordCache.ReadWord, WordCache.ReadBytes, WordCache.WriteWord, WordCache.Extend;
    hide EmitOk;
    if op.Opcode? {
      IntOperands(op, args, ws, a, st);
      OpcodeEmit(h, fs, fuel, op.code, op.produces, a, ws, st);
    } else if Arity(op) == 0 {
      assert args == [] && ws == [];
      if op.Caller? || op.CallValue? || op.CalldataSize? {
        EmitMessage(h, fs, fuel, op, st);
      } else {
        EmitJump(h, fs, fuel, op, st);
      }
    } else if op.Select? {
      EmitSelect(h, fs, fuel, args, ws, a, st);
    } else if op.Sha3_64? || op.Sha3_32? {
      forall i | 0 <= i < |ws| ensures Holds(st.locals, a[i], ws[i], TBytes, TNone) {
        assert Holds(st.locals, a[i], ws[i], TBytes, TypeOf(args[i]));
      }
      EmitHash(h, fs, fuel, op, args, ws, a, st);
    } else if op.Shl? || op.Shr? || op.Sar? {
      IntOperands(op, args, ws, a, st);
      EmitShift(h, fs, fuel, op, args, ws, a, st);
    } else if op.Arith? || op.IsZero? || op.CeilTo32? || op.SLoad? {
      IntOperands(op, args, ws, a, st);
      EmitIntExpr(h, fs, fuel, op, args, ws, a, st);
    } else if op.CalldataCopy? {
      IntOperands(op, args, ws, a, st);
      EmitCopy(h, fs, fuel, args, ws, a, st);
    } else if op.Assert? || op.RevertOp? || op.ReturnOp? {
      IntOperands(op, args, ws, a, st);
      EmitRaise(h, fs, fuel, op, args, ws, a, st);
    } else {
      IntOperands(op, args, ws, a, st);
      EmitAccess(h, fs, fuel, op, args, ws, a, st);
    }
  }

  /** What a piece of code did, seen from outside: `out` has the value, nothing else changed
      except the names fixed in the templates. */
  ghost predicate Delivered(c: Ctl, w: World, st: St<TVar>, r: TRes<TVar>, out: Option<TVar>, want: Ty, have: Ty) {
    w.exact ==>
      && r.ctl == Erase(c) && Seen(r.st.vm, w)
      && (Live(c) ==>
           && r.st.stack == st.stack
           && (forall v :: v in st.locals && !v.Scratch? && (c.Val? ==> Some(v) != out)
                 ==> v in r.st.locals && r.st.locals[v] == st.locals[v]))
      && (c.Val? && out.Some? ==> Holds(r.st.locals, out.value, c.w, want, have))
  }

  lemma EmitThenDeliver(h: Host, fs: seq<TFunc<TVar>>, fuel: nat, m: Emitted, have: Ty, p: OpRes, st: St<TVar>, out: Option<TVar>, want: Ty)
    requires EmitOk(h, fs, fuel, m, have, p, st)
    ensures Delivered(p.ctl, p.world, st, Exec(h, fs, fuel, m.stmts + Deliver(m.res, have, out, want), st), out, want, have)
  {
    var r1 := Exec(h, fs, fuel, m.stmts, st);
    ExecAppend(h, fs, fuel, m.stmts, Deliver(m.res, have, out, want), st);
    if p.ctl.Val? && p.world.exact {
      DeliverExec(h, fs, fuel, m.res.value, r1.st, p.ctl.w, have, out, want, st.stack, p.world);
    }
  }

  /** The whole code of one operation, once its operands sit in their temporaries. */
  lemma ApplySim(h: Host, fs: seq<TFunc<TVar>>, fuel: nat, op: Op, args: seq<AIR>, ws: seq<Word>, a: seq<TVar>, st: St<TVar>,
                 out: Option<TVar>, want: Ty)
    requires |a| == |args| == |ws| == Arity(op)
    requires OperandsHold(st.locals, a, args, ws, OperandTypes(op, |args|))
    requires WordCache.Good(st.vm.mem)
    requires forall v :: v in a ==> !v.Scratch?
    ensures var p := ApplyOp(h, op, ws, View(st.vm));
            var m := Emit(op, a);
            var have := TypeOf(AApply(op, args));
            Delivered(p.ctl, p.world, st, Exec(h, fs, fuel, m.stmts + Deliver(m.res, have, out, want), st), out, want, have)
  {
    EmitSim(h, fs, fuel, op, args, ws, a, st);
    EmitThenDeliver(h, fs, fuel, Emit(op, a), TypeOf(AApply(op, args)), ApplyOp(h, op, ws, View(st.vm)), st, out, want);
  }
}
