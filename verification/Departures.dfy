/** Where the emitted Python and the EVM part: for each guard of `exact`, the operation agrees exactly when
    the guard holds; and small programs whose runs differ. */
module Departures {
  import opened Wrappers
  import opened Words
  import opened Machine
  import opened SourceIR
  import T = PythonTarget
  import opened Compiler
  import opened OperationProof
  import opened CompilerProof
  import opened CompilerTheorem
  import opened Scopes
  import FlatMemory
  import WordCache

  // ---- one operation, whatever its operands ---------------------------------------------------

  /** Operands that met their guards sit in their temporaries when the operation itself starts. */
  lemma {:induction false} OperandsDone(h: Host, fs: seq<Func>, ts: TFuncs, fuel: nat, e: IR, valued: bool, f: Frame, a: AIR,
      k: nat, out: Option<TVar>, want: Ty, env: Env, st: TSt) returns (st1: TSt)
    requires e.Apply? && !e.op.Select? && !e.op.Sha3_64? && !e.op.Sha3_32?
    requires WellFormed(e, valued, fs) && Linked(fs, fs, ts)
    requires Analyze(e, f) == Some(a) && FrameOk(f) && Rel(f, env, st.locals, None) && WordCache.Good(st.vm.mem)
    requires var ar := EvalArgs(h, fs, fuel, e.args, env, View(st.vm)); ar.world.exact && ar.stop == Done
    ensures a.AApply? && a.op == e.op && |e.args| == |a.args| == Arity(e.op)
    ensures var n, ar := |a.args|, EvalArgs(h, fs, fuel, e.args, env, View(st.vm));
      && |ar.vals| == Arity(e.op) && Seen(st1.vm, ar.world) && st1.stack == st.stack
      && IntsHold(st1.locals, Temps(k, n), ar.vals)
      && Eval(h, fs, fuel, e, env, View(st.vm)) ==
           (var p := ApplyOp(h, e.op, ar.vals, ar.world); Res(p.ctl, ar.env, p.world))
      && T.Exec(h, ts, fuel, Compile(a, k, out, want).stmts, st) ==
           (var m := Emit(a.op, Temps(k, n)); T.Exec(h, ts, fuel, m.stmts + Deliver(m.res, TypeOf(a), out, want), st1))
  {
    hide T.Exec, Eval, EvalArgs, ApplyOp, Compile, CompileArgs, Emit, Deliver, TypeOf, WellFormed, Analyze, AnalyzeAll;
    hide WordCache.Good, WordCache.Flat, Rel, FrameOk;
    ApplyUnfolds(h, fs, fuel, e, valued, f, a, k, out, want, env, View(st.vm));
    var n, m := |a.args|, Emit(a.op, Temps(k, |a.args|));
    var c := CompileArgs(a.args, k, OperandTypes(a.op, n), k + n);
    var ar := EvalArgs(h, fs, fuel, e.args, env, View(st.vm));
    OperandsSim(h, fs, ts, fuel, e.args, f, a.args, k, OperandTypes(a.op, n), k + n, env, st);
    ExecAppend(h, ts, fuel, c.stmts, m.stmts + Deliver(m.res, TypeOf(a), out, want), st);
    st1 := T.Exec(h, ts, fuel, c.stmts, st).st;
    IntOperands(a.op, a.args, ar.vals, Temps(k, n), st1);
  }

  /** `return` and `revert` hand out the EVM's bytes exactly when those lie in memory. The emitted code does
      not extend memory, so elsewhere `_writeback` raises. */
  lemma {:induction false} OutputIff(h: Host, fs: seq<Func>, ts: TFuncs, fuel: nat, e: IR, f: Frame, a: AIR, k: nat, env: Env, st: TSt)
    requires e.Apply? && (e.op.ReturnOp? || e.op.RevertOp?)
    requires WellFormed(e, false, fs) && Linked(fs, fs, ts)
    requires Analyze(e, f) == Some(a) && FrameOk(f) && Rel(f, env, st.locals, None) && WordCache.Good(st.vm.mem)
    requires var ar := EvalArgs(h, fs, fuel, e.args, env, View(st.vm)); ar.world.exact && ar.stop == Done
    ensures var ar := EvalArgs(h, fs, fuel, e.args, env, View(st.vm));
      var r, t := Eval(h, fs, fuel, e, env, View(st.vm)), T.Exec(h, ts, fuel, Compile(a, k, None, TNone).stmts, st);
      && |ar.vals| == 2
      && (SameRun(r, t) <==> FlatMemory.InRange(ar.world.mem, ar.vals[0], ar.vals[1]))
      && (!SameRun(r, t) ==> t.ctl == Fault(OutsideMemory))
  {
    hide T.Exec, T.Step, Eval, EvalArgs, ApplyOp, Compile, CompileArgs, Emit, TypeOf, WellFormed, Analyze, AnalyzeAll;
    hide WordCache.Good, WordCache.Flat, WordCache.ReadBytes, Rel, FrameOk;
    var st1 := OperandsDone(h, fs, ts, fuel, e, false, f, a, k, None, TNone, env, st);
    var ar, temps := EvalArgs(h, fs, fuel, e.args, env, View(st.vm)), Temps(k, 2);
    OutputMeans(h, e.op, ar.vals, temps, ar.world);
    OutputStep(h, ts, fuel, e.op, temps[0], temps[1], ar.vals[0], ar.vals[1], st1);
    ExecOne(h, ts, fuel, OutputStmt(e.op, temps[0], temps[1]), st1);
    assert [OutputStmt(e.op, temps[0], temps[1])] + [] == [OutputStmt(e.op, temps[0], temps[1])];
    ReadsKept(st1.vm.mem, ar.vals[0], ar.vals[1]);
    if FlatMemory.InRange(ar.world.mem, ar.vals[0], ar.vals[1]) {
      OutputExec(st1.vm.mem, ar.world, ar.vals[0], ar.vals[1]);
    }
  }

  /** `extend` and `read_word`, and the word delivered. */
  lemma WordReadRun(h: Host, ts: TFuncs, fuel: nat, p: TVar, ptr: Word, out: Option<TVar>, st: TSt)
    requires p in st.locals && st.locals[p] == I(ptr) && WordCache.Good(st.vm.mem)
    ensures var t := T.Exec(h, ts, fuel, [T.ExtendMem(p)] + Deliver(Some(T.ReadWord(p)), TInt, out, TInt), st);
      var r := WordCache.ReadWord(WordCache.Extend(st.vm.mem, ptr, 32), ptr);
      && r.ok && t.ctl == Done && t.st.stack == st.stack && t.st.vm == T.Vm(r.m, st.vm.storage)
      && t.st.locals == if out.Some? then st.locals[out.value := I(r.w)] else st.locals
  {
    hide WordCache.Good, WordCache.Flat, WordCache.ReadWord, WordCache.Extend, FlatMemory.Extend, FlatMemory.ReadWord;
    Extended(st.vm.mem, ptr, 32);
    LoadsWord(WordCache.Extend(st.vm.mem, ptr, 32), ptr);
    var last := if out.Some? then T.Assign(out.value, T.ReadWord(p)) else T.ExprStmt(T.ReadWord(p));
    assert [T.ExtendMem(p)] + Deliver(Some(T.ReadWord(p)), TInt, out, TInt) == [T.ExtendMem(p), last];
    ExecTwo(h, ts, fuel, T.ExtendMem(p), last, st);
  }

  /** `mload` gives the right word everywhere; it leaves the word cache right exactly when the read is
      aligned or the aligned word around it is the same, and otherwise a later read of that word differs. */
  lemma {:induction false} WordReadIff(h: Host, fs: seq<Func>, ts: TFuncs, fuel: nat, e: IR, f: Frame, a: AIR, k: nat,
                                       out: Option<TVar>, env: Env, st: TSt)
    requires e.Apply? && e.op.MLoad?
    requires WellFormed(e, true, fs) && Linked(fs, fs, ts)
    requires Analyze(e, f) == Some(a) && FrameOk(f) && Rel(f, env, st.locals, None) && WordCache.Good(st.vm.mem)
    requires var ar := EvalArgs(h, fs, fuel, e.args, env, View(st.vm)); ar.world.exact && ar.stop == Done
    ensures var ar := EvalArgs(h, fs, fuel, e.args, env, View(st.vm));
      var r, t := Eval(h, fs, fuel, e, env, View(st.vm)), T.Exec(h, ts, fuel, Compile(a, k, out, TInt).stmts, st);
      && |ar.vals| == 1 && ar.vals[0] + 32 <= |r.world.mem|
      && SameRun(r, t) && r.ctl.Val? && t.st.stack == st.stack
      && (out.Some? ==> out.value in t.st.locals && t.st.locals[out.value] == I(r.ctl.w))
      && WordCache.Fits(t.st.vm.mem) && (WordCache.Good(t.st.vm.mem) <==> FlatMemory.Harmless(r.world.mem, ar.vals[0]))
      && var again := WordCache.ReadWord(t.st.vm.mem, Floor32(ar.vals[0]));
      && again.ok && again.w == r.ctl.w
      && (again.w == FlatMemory.ReadWord(r.world.mem, Floor32(ar.vals[0])) <==> FlatMemory.Harmless(r.world.mem, ar.vals[0]))
  {
    hide T.Exec, T.Step, Eval, EvalArgs, ApplyOp, Compile, CompileArgs, Emit, Deliver, TypeOf, WellFormed, Analyze, AnalyzeAll;
    hide WordCache.Good, WordCache.Flat, WordCache.ReadWord, WordCache.Extend, FlatMemory.Extend, FlatMemory.ReadWord, Rel, FrameOk;
    var st1 := OperandsDone(h, fs, ts, fuel, e, true, f, a, k, out, TInt, env, st);
    var ar := EvalArgs(h, fs, fuel, e.args, env, View(st.vm));
    var temp, ptr := Temps(k, 1)[0], ar.vals[0];
    MLoadMeans(h, a.args, Temps(k, 1), ar.vals, ar.world);
    WordReadRun(h, ts, fuel, temp, ptr, out, st1);
    var m := WordCache.Extend(st1.vm.mem, ptr, 32);
    Extended(st1.vm.mem, ptr, 32);
    LoadsWord(m, ptr);
    ReadAgain(m, ptr);
    StillFits(m, ptr);
    HarmlessMeans(WordCache.Flat(m), ptr);
  }

  lemma MLoadMeans(h: Host, args: seq<AIR>, a: seq<TVar>, ws: seq<Word>, w: World)
    requires |args| == |a| == |ws| == 1
    ensures Emit(MLoad, a) == Emitted([T.ExtendMem(a[0])], Some(T.ReadWord(a[0]))) && TypeOf(AApply(MLoad, args)) == TInt
    ensures ApplyOp(h, MLoad, ws, w) == LoadMem(w, ws[0])
  {
    hide LoadMem;
  }

  lemma ReadAgain(m: WordCache.Memory, ptr: nat)
    requires WordCache.Good(m) && ptr + 32 <= |WordCache.Flat(m)|
    ensures var r := WordCache.ReadWord(m, ptr); r.ok && WordCache.ReadWord(r.m, Floor32(ptr)) == WordCache.DidWord(r.m, true, r.w)
  {
    WordCache.ReadWordAgain(m, ptr);
  }

  lemma StillFits(m: WordCache.Memory, ptr: nat)
    requires WordCache.Good(m) && ptr + 32 <= |WordCache.Flat(m)|
    ensures WordCache.Fits(WordCache.ReadWord(m, ptr).m)
  {
    WordCache.ReadWordIs(m, ptr);
  }

  lemma HarmlessMeans(mem: seq<Byte>, ptr: nat)
    requires ptr + 32 <= |mem|
    ensures FlatMemory.Harmless(mem, ptr) <==> FlatMemory.ReadWord(mem, ptr) == FlatMemory.ReadWord(mem, Floor32(ptr))
  {
    if ptr % 32 == 0 { assert Floor32(ptr) == ptr; }
  }

  /** `ceil32` delivers the EVM's word exactly up to 2**256 - 32, and 2**256 itself above. */
  lemma {:induction false} RoundUpIff(h: Host, fs: seq<Func>, ts: TFuncs, fuel: nat, e: IR, f: Frame, a: AIR, k: nat,
                                      out: TVar, env: Env, st: TSt)
    requires e.Apply? && e.op.CeilTo32?
    requires WellFormed(e, true, fs) && Linked(fs, fs, ts)
    requires Analyze(e, f) == Some(a) && FrameOk(f) && Rel(f, env, st.locals, None) && WordCache.Good(st.vm.mem)
    requires var ar := EvalArgs(h, fs, fuel, e.args, env, View(st.vm)); ar.world.exact && ar.stop == Done
    ensures var ar := EvalArgs(h, fs, fuel, e.args, env, View(st.vm));
      var r, t := Eval(h, fs, fuel, e, env, View(st.vm)), T.Exec(h, ts, fuel, Compile(a, k, Some(out), TInt).stmts, st);
      && |ar.vals| == 1 && SameRun(r, t) && r.ctl.Val? && out in t.st.locals
      && (t.st.locals[out] == I(r.ctl.w) <==> ar.vals[0] <= TWO256 - 32)
      && (t.st.locals[out] != I(r.ctl.w) ==> t.st.locals[out] == I(TWO256))
  {
    hide T.Exec, Eval, EvalArgs, ApplyOp, Compile, CompileArgs, Emit, WellFormed, Analyze, AnalyzeAll, TypeOf;
    hide WordCache.Good, WordCache.Flat, Rel, FrameOk;
    var st1 := OperandsDone(h, fs, ts, fuel, e, true, f, a, k, Some(out), TInt, env, st);
    var ar := EvalArgs(h, fs, fuel, e.args, env, View(st.vm));
    var temps := Temps(k, 1);
    hide EvmCeil, Ceil32;
    CeilMeans(h, a.args, temps, ar.vals, ar.world);
    CeilAgreesIff(ar.vals[0]);
    assert [] + [T.Assign(out, T.Ceil32Of(temps[0]))] == [T.Assign(out, T.Ceil32Of(temps[0]))];
    ExecOne(h, ts, fuel, T.Assign(out, T.Ceil32Of(temps[0])), st1);
  }

  // ---- programs: returning --------------------------------------------------------------------

  lemma LiteralPair(h: Host, fs: seq<Func>, fuel: nat, x: Word, y: Word, env: Env, w: World)
    ensures EvalArgs(h, fs, fuel, [Int(x), Int(y)], env, w) == ArgsRes(Done, [x, y], env, w)
  {
    var a, b := Int(x), Int(y);
    assert [a, b][..1] == [a] && [a][..0] == [];
    assert EvalArgs(h, fs, fuel, [], env, w) == ArgsRes(Done, [], env, w);
    assert EvalArgs(h, fs, fuel, [a], env, w) == ArgsRes(Done, [x], env, w);
  }

  lemma AnalyzedPair(e: IR, x: Word, a: AIR, f: Frame)
    requires Analyze(e, f) == Some(a) && Labels(e) == []
    ensures AnalyzeAll([Int(x), e], f) == Some([AInt(x), a])
    ensures LabelsAll([Int(x), e]) == []
  {
    assert AnalyzeAll([], f) == Some([]) && LabelsAll([]) == [];
    assert Analyze(Int(x), f) == Some(AInt(x)) && Labels(Int(x)) == [];
    assert [e] + [] == [e] && [Int(x)] + [e] == [Int(x), e] && [a] + [] == [a] && [AInt(x)] + [a] == [AInt(x), a];
    hide AnalyzeAll, LabelsAll, Analyze, Labels;
    AnalyzedCons(e, a, [], [], f);
    AnalyzedCons(Int(x), AInt(x), [e], [a], f);
  }

  /** `return ptr size` with literal operands. */
  function Returning(ptr: Word, size: Word): IR {
    Apply(ReturnOp, [Int(ptr), Int(size)])
  }

  function ReturningAnalyzed(ptr: Word, size: Word): AIR {
    AApply(ReturnOp, [AInt(ptr), AInt(size)])
  }

  lemma ReturningIs(ptr: Word, size: Word)
    ensures Labels(Returning(ptr, size)) == [] && WellFormed(Returning(ptr, size), false, [])
    ensures Analyze(Returning(ptr, size), EmptyFrame) == Some(ReturningAnalyzed(ptr, size))
  {
    assert Analyze(Int(size), EmptyFrame) == Some(AInt(size));
    AnalyzedPair(Int(size), ptr, AInt(size), EmptyFrame);
  }

  /** The whole program, for any memory to start from. */
  lemma ReturnIff(h: Host, ptr: Word, size: Word, fuel: nat, stack: seq<Raw>, vm: T.Vm)
    requires WordCache.Good(vm.mem)
    ensures var r, t := Run(h, fuel, Returning(ptr, size), View(vm)), Start(h, CompileProgram(ReturningAnalyzed(ptr, size)), fuel, stack, vm);
      && r.ctl == Halt(FlatMemory.ReadBytes(FlatMemory.Extend(WordCache.Flat(vm.mem), ptr, size), ptr, size))
      && (SameRun(r, t) <==> FlatMemory.InRange(WordCache.Flat(vm.mem), ptr, size))
      && (!SameRun(r, t) ==> t.ctl == Fault(OutsideMemory))
  {
    hide Eval, T.Exec, Compile, Analyze, WellFormed, Linked, CompileProgram, WordCache.Good, WordCache.Flat;
    var e, a := Returning(ptr, size), ReturningAnalyzed(ptr, size);
    ReturningIs(ptr, size);
    ProgramLinked(e, a);
    LiteralPair(h, [], fuel, ptr, size, map[], View(vm));
    ApplyUnfolds(h, [], fuel, e, false, EmptyFrame, a, 0, None, TNone, map[], View(vm));
    OutputIff(h, [], CompileProgram(a).funcs, fuel, e, EmptyFrame, a, 0, map[], T.St(map[], stack, vm));
  }

  /** `return 0 32` before anything touched memory: 32 zero bytes on the EVM, an IndexError in Python. */
  lemma ReturnFromFreshMemory(h: Host, fuel: nat, stack: seq<Raw>, storage: map<int, Word>)
    ensures Run(h, fuel, Returning(0, 32), View(Fresh(storage))).ctl == Halt(Zeros(32))
    ensures Start(h, CompileProgram(ReturningAnalyzed(0, 32)), fuel, stack, Fresh(storage)).ctl == Fault(OutsideMemory)
  {
    hide Eval, T.Exec, Compile, CompileProgram;
    WordCache.EmptyGood();
    ReturnIff(h, 0, 32, fuel, stack, Fresh(storage));
    assert FlatMemory.Extend([], 0, 32) == Zeros(32);
  }

  // ---- programs: an unaligned read ------------------------------------------------------------

  /** `mstore 0 v; mload 1; sstore 0 (mload 0)` */
  function Unaligned(v: Word): IR {
    Seq([Apply(MStore, [Int(0), Int(v)]), Apply(MLoad, [Int(1)]), Apply(SStore, [Int(0), Apply(MLoad, [Int(0)])])])
  }

  function UnalignedAnalyzed(v: Word): AIR {
    ASeq([AApply(MStore, [AInt(0), AInt(v)]), AApply(MLoad, [AInt(1)]), StoreRead(0)])
  }

  function StoreRead(ptr: Word): AIR {
    AApply(SStore, [AInt(0), AApply(MLoad, [AInt(ptr)])])
  }

  /** The word one byte further on, with a zero byte behind. */
  function Shifted(v: Word): Word {
    ShortBytesAreWord(Bytes32(v)[1..] + [0]);
    FromBytes(Bytes32(v)[1..] + [0])
  }

  /** It is `v` itself only when all of its bytes are zero. */
  lemma ShiftedWord(v: Word)
    ensures Shifted(v) == v <==> v == 0
    ensures v == 1 ==> Shifted(v) == 256
  {
    var b, z := Bytes32(v), Zeros(32);
    var s: seq<Byte> := b[1..] + [0];
    BytesRoundTrip(s);
    BytesRoundTrip(z);
    WordRoundTrip(v);
    FromBytesLeadingZeros(32, []);
    assert Zeros(32) + [] == z && FromBytes(z) == 0;
    if v == 0 {
      assert b == z && s == z;
    }
    if FromBytes(s) == v {
      assert s == b;
      AllZero(b, 31);
      assert b == z;
    }
    ShiftedOne();
  }

  lemma ShiftedOne()
    ensures Shifted(1) == 256
  {
    var one: seq<Byte>, two: seq<Byte> := [1], [1, 0];
    assert one[..0] == [] && two[..1] == one && FromBytes(one) == 1 && FromBytes(two) == 256;
    FromBytesLeadingZeros(31, one);
    FromBytesLeadingZeros(30, two);
    BytesRoundTrip(Zeros(31) + one);
    assert Bytes32(1) == Zeros(31) + one;
    assert Bytes32(1)[1..] + [0] == Zeros(30) + two;
  }

  lemma {:induction false} AllZero(b: seq<Byte>, n: nat)
    requires |b| == 32 && b == b[1..] + [0] && n <= 31
    ensures forall i :: 31 - n <= i < 32 ==> b[i] == 0
  {
    if n > 0 {
      AllZero(b, n - 1);
      assert b[31 - n] == (b[1..] + [0])[31 - n] == b[32 - n];
    }
  }

  lemma StoreReadCode(k: nat, ptr: Word)
    ensures Compile(StoreRead(ptr), k, None, TNone).stmts ==
      [T.Assign(Temp(k + 2), T.Lit(ptr))] + ([T.ExtendMem(Temp(k + 2)), T.Assign(Temp(k + 1), T.ReadWord(Temp(k + 2)))]
        + [T.Assign(Temp(k), T.Lit(0)), T.RaiseIfStatic, T.SetStorage(Temp(k), Temp(k + 1))])
  {
    hide TypeOf;
    var a0, read, p := AInt(0), AApply(MLoad, [AInt(ptr)]), AInt(ptr);
    var wants := OperandTypes(SStore, 2);
    assert [a0, read][..1] == [a0] && [a0][..0] == [] && [p][..0] == [];
    ReadCode(k, ptr);
    assert CompileArgs([a0][..0], k, wants[..1][..0], k + 3) == Code([], k + 3);
    assert Compile(a0, k + 3, Some(Temp(k)), TInt) == Code([T.Assign(Temp(k), T.Lit(0))], k + 3);
    assert CompileArgs([a0], k, wants[..1], k + 3) == Code([T.Assign(Temp(k), T.Lit(0))], k + 3);
    assert Emit(SStore, Temps(k, 2)) == Emitted([T.RaiseIfStatic, T.SetStorage(Temp(k), Temp(k + 1))], None);
  }

  lemma ReadCode(k: nat, ptr: Word)
    ensures Compile(AApply(MLoad, [AInt(ptr)]), k + 2, Some(Temp(k + 1)), TInt) ==
      Code([T.Assign(Temp(k + 2), T.Lit(ptr)), T.ExtendMem(Temp(k + 2)), T.Assign(Temp(k + 1), T.ReadWord(Temp(k + 2)))], k + 3)
  {
    var p, wants := AInt(ptr), OperandTypes(MLoad, 1);
    assert [p][..0] == [];
    assert CompileArgs([p][..0], k + 2, wants[..0], k + 3) == Code([], k + 3);
    assert Compile(p, k + 3, Some(Temp(k + 2)), TInt) == Code([T.Assign(Temp(k + 2), T.Lit(ptr))], k + 3);
    assert CompileArgs([p], k + 2, wants, k + 3) == Code([T.Assign(Temp(k + 2), T.Lit(ptr))], k + 3);
  }

  /** The storage refuses what is not a word. */
  lemma StoreRun(h: Host, ts: TFuncs, fuel: nat, p: TVar, v: TVar, n: nat, st: TSt)
    requires !h.isStatic && p != v && v in st.locals && st.locals[v] == I(n)
    ensures var t := T.Exec(h, ts, fuel, [T.Assign(p, T.Lit(0)), T.RaiseIfStatic, T.SetStorage(p, v)], st);
      && t.ctl == (if n < TWO256 then Done else Fault(TypeError))
      && (n < TWO256 ==> t.st.vm == T.Vm(st.vm.mem, st.vm.storage[0 := n]))
  {
    var first, rest := [T.Assign(p, T.Lit(0))], [T.RaiseIfStatic, T.SetStorage(p, v)];
    assert first + rest == [T.Assign(p, T.Lit(0)), T.RaiseIfStatic, T.SetStorage(p, v)];
    ExecAppend(h, ts, fuel, first, rest, st);
    ExecOne(h, ts, fuel, first[0], st);
    ExecTwo(h, ts, fuel, rest[0], rest[1], st.(locals := st.locals[p := I(0)]));
  }

  /** Reading a word that is in memory and storing it, on any state of the cache. */
  lemma StoreReadRun(h: Host, ts: TFuncs, fuel: nat, k: nat, ptr: Word, st: TSt)
    requires !h.isStatic && WordCache.Fits(st.vm.mem) && ptr + 32 <= |st.vm.mem.bytes|
    ensures var r, t := WordCache.ReadWord(st.vm.mem, ptr), T.Exec(h, ts, fuel, Compile(StoreRead(ptr), k, None, TNone).stmts, st);
      r.ok ==> t.ctl == Done && t.st.vm == T.Vm(r.m, st.vm.storage[0 := r.w])
  {
    hide TypeOf, Compile, T.Exec, WordCache.ReadWord;
    StoreReadCode(k, ptr);
    var first, read := [T.Assign(Temp(k + 2), T.Lit(ptr))], [T.ExtendMem(Temp(k + 2)), T.Assign(Temp(k + 1), T.ReadWord(Temp(k + 2)))];
    var store := [T.Assign(Temp(k), T.Lit(0)), T.RaiseIfStatic, T.SetStorage(Temp(k), Temp(k + 1))];
    var st1 := st.(locals := st.locals[Temp(k + 2) := I(ptr)]);
    ExecAppend(h, ts, fuel, first, read + store, st);
    ExecOne(h, ts, fuel, first[0], st);
    ExecAppend(h, ts, fuel, read, store, st1);
    ExecTwo(h, ts, fuel, read[0], read[1], st1);
    var r := WordCache.ReadWord(st.vm.mem, ptr);
    if r.ok {
      StoreRun(h, ts, fuel, Temp(k), Temp(k + 1), r.w, T.St(st1.locals[Temp(k + 1) := I(r.w)], st.stack, T.Vm(r.m, st.vm.storage)));
    }
  }

  lemma UnalignedWellFormed(v: Word)
    ensures WellFormed(Unaligned(v), false, [])
  {
    var store, read, read0 := Apply(MStore, [Int(0), Int(v)]), Apply(MLoad, [Int(1)]), Apply(MLoad, [Int(0)]);
    assert WellFormed(Int(0), true, []) && WellFormed(Int(1), true, []) && WellFormed(Int(v), true, []);
    assert WellFormed(read0, true, []);
    assert WellFormed(store, false, []) && WellFormed(read, false, []);
    assert WellFormed(Apply(SStore, [Int(0), read0]), false, []);
  }

  lemma AnalyzedCons(e: IR, a: AIR, es: seq<IR>, l: seq<AIR>, f: Frame)
    requires Analyze(e, f) == Some(a) && Labels(e) == []
    requires AnalyzeAll(es, f) == Some(l) && LabelsAll(es) == []
    ensures AnalyzeAll([e] + es, f) == Some([a] + l) && LabelsAll([e] + es) == []
  {
    assert ([e] + es)[1..] == es;
    hide Analyze, Labels;
  }

  lemma AnalyzedBlock(x: IR, y: IR, z: IR, a: AIR, b: AIR, c: AIR, f: Frame)
    requires Analyze(x, f) == Some(a) && Analyze(y, f) == Some(b) && Analyze(z, f) == Some(c)
    requires Labels(x) == [] && Labels(y) == [] && Labels(z) == []
    ensures Analyze(Seq([x, y, z]), f) == Some(ASeq([a, b, c])) && Labels(Seq([x, y, z])) == []
  {
    assert AnalyzeAll([], f) == Some([]) && LabelsAll([]) == [];
    assert [z] + [] == [z] && [y] + [z] == [y, z] && [x] + [y, z] == [x, y, z];
    assert [c] + [] == [c] && [b] + [c] == [b, c] && [a] + [b, c] == [a, b, c];
    hide AnalyzeAll, LabelsAll;
    AnalyzedCons(z, c, [], [], f);
    AnalyzedCons(y, b, [z], [c], f);
    AnalyzedCons(x, a, [y, z], [b, c], f);
  }

  lemma UnalignedIs(v: Word)
    ensures Labels(Unaligned(v)) == [] && WellFormed(Unaligned(v), false, [])
    ensures Analyze(Unaligned(v), EmptyFrame) == Some(UnalignedAnalyzed(v))
  {
    hide AnalyzeAll, LabelsAll, WellFormed;
    var f := EmptyFrame;
    var store, read, read0 := Apply(MStore, [Int(0), Int(v)]), Apply(MLoad, [Int(1)]), Apply(MLoad, [Int(0)]);
    UnalignedWellFormed(v);
    LiteralOne(1);
    LiteralOne(0);
    assert Analyze(Int(v), f) == Some(AInt(v));
    AnalyzedPair(Int(v), 0, AInt(v), f);
    AnalyzedPair(read0, 0, AApply(MLoad, [AInt(0)]), f);
    AnalyzedBlock(store, read, Apply(SStore, [Int(0), read0]), AApply(MStore, [AInt(0), AInt(v)]), AApply(MLoad, [AInt(1)]), StoreRead(0), f);
  }

  lemma LiteralOne(x: Word)
    ensures Analyze(Apply(MLoad, [Int(x)]), EmptyFrame) == Some(AApply(MLoad, [AInt(x)]))
    ensures Labels(Apply(MLoad, [Int(x)])) == []
  {
    assert [Int(x)][1..] == [] && [AInt(x)] + [] == [AInt(x)];
    assert AnalyzeAll([Int(x)], EmptyFrame) == Some([AInt(x)]);
    assert LabelsAll([Int(x)]) == [];
  }

  // ---- the source run of it ----

  lemma LiteralSingle(h: Host, fuel: nat, x: Word, env: Env, w: World)
    ensures EvalArgs(h, [], fuel, [Int(x)], env, w) == ArgsRes(Done, [x], env, w)
  {
    assert [Int(x)][..0] == [];
    assert EvalArgs(h, [], fuel, [], env, w) == ArgsRes(Done, [], env, w);
  }

  lemma StoreSource(h: Host, fuel: nat, p: Word, v: Word, w: World)
    ensures Eval(h, [], fuel, Apply(MStore, [Int(p), Int(v)]), map[], w) == Res(Done, map[], StoreMem(w, p, v).world)
  {
    hide EvalArgs, FlatMemory.WriteWord;
    LiteralPair(h, [], fuel, p, v, map[], w);
  }

  lemma ReadSource(h: Host, fuel: nat, p: Word, w: World)
    ensures Eval(h, [], fuel, Apply(MLoad, [Int(p)]), map[], w) == (var x := LoadMem(w, p); Res(x.ctl, map[], x.world))
  {
    hide EvalArgs, LoadMem;
    LiteralSingle(h, fuel, p, map[], w);
  }

  lemma StoreReadSource(h: Host, fuel: nat, p: Word, w: World)
    requires !h.isStatic
    ensures Eval(h, [], fuel, Apply(SStore, [Int(0), Apply(MLoad, [Int(p)])]), map[], w) ==
      (var x := LoadMem(w, p); Res(Done, map[], x.world.(storage := w.storage[0 := x.ctl.w])))
  {
    hide LoadMem;
    ReadSource(h, fuel, p, w);
    var a, b := Int(0), Apply(MLoad, [Int(p)]);
    var x := LoadMem(w, p);
    assert [a, b][..1] == [a] && [a][..0] == [];
    LoadStorage(w, p);
    StorePairSource(h, fuel, b, x.ctl.w, w, x.world);
  }

  lemma LoadStorage(w: World, p: Word)
    ensures LoadMem(w, p).ctl.Val? && LoadMem(w, p).world.storage == w.storage
  {}

  lemma StorePairSource(h: Host, fuel: nat, e: IR, x: Word, w: World, w1: World)
    requires !h.isStatic && Eval(h, [], fuel, e, map[], w) == Res(Val(x), map[], w1)
    ensures Eval(h, [], fuel, Apply(SStore, [Int(0), e]), map[], w) == Res(Done, map[], w1.(storage := w1.storage[0 := x]))
  {
    var a := Int(0);
    assert [a, e][..1] == [a];
    LiteralSingle(h, fuel, 0, map[], w1);
    assert EvalArgs(h, [], fuel, [a, e], map[], w) == ArgsRes(Done, [0, x], map[], w1);
  }

  /** The memory of the run: the word, and then a zero word behind it. */
  lemma UnalignedMemory(v: Word, storage: map<int, Word>)
    ensures var w1 := StoreMem(World([], storage, true), 0, v).world;
      var x := LoadMem(w1, 1);
      var y := LoadMem(x.world, 0);
      && w1 == World(Bytes32(v), storage, true)
      && x.ctl == Val(Shifted(v)) && y.ctl == Val(v) && y.world == x.world
      && x.world.mem == Bytes32(v) + Zeros(32) && x.world.storage == storage
      && (x.world.exact <==> FlatMemory.Harmless(x.world.mem, 1))
  {
    var b := Bytes32(v);
    assert FlatMemory.Extend([], 0, 32) == Zeros(32);
    assert FlatMemory.WriteWord(Zeros(32), 0, v) == b;
    var m := FlatMemory.Extend(b, 1, 32);
    assert m == b + Zeros(32);
    assert m[1..33] == b[1..] + [0] && m[0..32] == b;
    assert FlatMemory.Extend(m, 0, 32) == m;
    WordRoundTrip(v);
  }

  /** `mload 1` is remembered as the word at 0, so the program stores the wrong word: the run is the EVM's
      exactly when `v` is 0, the only word whose unaligned neighbour is itself. */
  lemma UnalignedIff(h: Host, v: Word, fuel: nat, stack: seq<Raw>, storage: map<int, Word>)
    requires !h.isStatic
    ensures var r, t := Run(h, fuel, Unaligned(v), View(Fresh(storage))), Start(h, CompileProgram(UnalignedAnalyzed(v)), fuel, stack, Fresh(storage));
      && r.ctl == Done == t.ctl && r.world.storage == storage[0 := v]
      && t.st.vm.storage == storage[0 := Shifted(v)]
      && (SameRun(r, t) <==> v == 0)
  {
    hide Eval, T.Exec, Compile, Analyze, WellFormed, Linked, CompileProgram, WordCache.Good, WordCache.Flat, LoadMem, StoreMem, WordCache.ReadWord;
    hide FlatMemory.Harmless, Shifted;
    var e, a, vm := Unaligned(v), UnalignedAnalyzed(v), Fresh(storage);
    UnalignedIs(v);
    ProgramLinked(e, a);
    WordCache.EmptyGood();
    UnalignedMemory(v, storage);
    UnalignedSource(h, v, fuel, storage);
    ShiftedWord(v);
    UnalignedTarget(h, v, CompileProgram(a).funcs, fuel, stack, storage);
    UnalignedHarmless(v);
    assert storage[0 := v][0] == v && storage[0 := Shifted(v)][0] == Shifted(v);
    CompilerCorrect(h, e, a, fuel, stack, vm);
  }

  /** `mstore 0 1; mload 1; sstore 0 (mload 0)` stores 256 instead of 1. */
  lemma UnalignedReadStores256(h: Host, fuel: nat, stack: seq<Raw>, storage: map<int, Word>)
    requires !h.isStatic
    ensures Run(h, fuel, Unaligned(1), View(Fresh(storage))).world.Load(0) == 1
    ensures Start(h, CompileProgram(UnalignedAnalyzed(1)), fuel, stack, Fresh(storage)).st.vm.Load(0) == 256
  {
    hide Eval, T.Exec, Compile, CompileProgram, Shifted;
    UnalignedIff(h, 1, fuel, stack, storage);
    ShiftedWord(1);
  }

  lemma UnalignedHarmless(v: Word)
    ensures FlatMemory.Harmless(Bytes32(v) + Zeros(32), 1) <==> v == 0
  {
    var m := Bytes32(v) + Zeros(32);
    assert m[1..33] == Bytes32(v)[1..] + [0] && m[0..32] == Bytes32(v);
    ShiftedWord(v);
    WordRoundTrip(v);
  }

  lemma UnalignedSource(h: Host, v: Word, fuel: nat, storage: map<int, Word>)
    requires !h.isStatic
    ensures var r := Run(h, fuel, Unaligned(v), View(Fresh(storage)));
      var x := LoadMem(StoreMem(World([], storage, true), 0, v).world, 1);
      r == Res(Done, map[], x.world.(storage := storage[0 := v]))
  {
    hide LoadMem, StoreMem, EvalArgs, Labels, WordCache.Flat;
    var w := World([], storage, true);
    WordCache.EmptyGood();
    assert View(Fresh(storage)) == w;
    UnalignedIs(v);
    UnalignedMemory(v, storage);
    var w1 := StoreMem(w, 0, v).world;
    var x := LoadMem(w1, 1);
    StoreSource(h, fuel, 0, v, w);
    ReadSource(h, fuel, 1, w1);
    StoreReadSource(h, fuel, 0, x.world);
    var es := Unaligned(v).es;
    BlockSource(h, fuel, es[0], es[1], es[2], w);
  }

  lemma SeqSource(h: Host, fuel: nat, es: seq<IR>, env: Env, w: World)
    requires |es| > 1
    ensures var r := Eval(h, [], fuel, es[0], env, w);
      EvalSeq(h, [], fuel, es, env, w) == if r.ctl.Val? || r.ctl.Done? then EvalSeq(h, [], fuel, es[1..], r.env, r.world) else r
  {
    hide Eval;
  }

  lemma LastSource(h: Host, fuel: nat, e: IR, env: Env, w: World)
    ensures EvalSeq(h, [], fuel, [e], env, w) == Eval(h, [], fuel, e, env, w)
  {
    hide Eval;
  }

  lemma BlockSource(h: Host, fuel: nat, x: IR, y: IR, z: IR, w: World)
    ensures Eval(h, [], fuel, Seq([x, y, z]), map[], w) ==
      (var a := Eval(h, [], fuel, x, map[], w);
       if !(a.ctl.Val? || a.ctl.Done?) then a else
       var b := Eval(h, [], fuel, y, a.env, a.world);
       if !(b.ctl.Val? || b.ctl.Done?) then b else Eval(h, [], fuel, z, b.env, b.world))
  {
    assert Eval(h, [], fuel, Seq([x, y, z]), map[], w) == EvalSeq(h, [], fuel, [x, y, z], map[], w) by { hide EvalSeq; }
    hide Eval, EvalSeq;
    assert [x, y, z][1..] == [y, z] && [y, z][1..] == [z];
    SeqSource(h, fuel, [x, y, z], map[], w);
    var a := Eval(h, [], fuel, x, map[], w);
    SeqSource(h, fuel, [y, z], a.env, a.world);
    var b := Eval(h, [], fuel, y, a.env, a.world);
    LastSource(h, fuel, z, b.env, b.world);
  }

  lemma SeqCode(x: AIR, es: seq<AIR>, k: nat)
    requires es != []
    ensures var c := Compile(x, k, None, TNone);
      CompileSeq([x] + es, k, None, TNone).stmts == c.stmts + CompileSeq(es, c.next, None, TNone).stmts
  {
    assert ([x] + es)[1..] == es;
    hide Compile;
  }

  lemma LastCode(x: AIR, k: nat)
    ensures CompileSeq([x], k, None, TNone) == Compile(x, k, None, TNone)
  {
    hide Compile;
  }

  lemma BlockCode(x: AIR, y: AIR, z: AIR)
    ensures var c := Compile(x, 0, None, TNone);
      var d := Compile(y, c.next, None, TNone);
      Compile(ASeq([x, y, z]), 0, None, TNone).stmts == c.stmts + (d.stmts + Compile(z, d.next, None, TNone).stmts)
  {
    assert Compile(ASeq([x, y, z]), 0, None, TNone) == CompileSeq([x, y, z], 0, None, TNone) by { hide CompileSeq; }
    hide Compile, CompileSeq;
    assert [x] + [y, z] == [x, y, z] && [y] + [z] == [y, z];
    var c := Compile(x, 0, None, TNone);
    SeqCode(x, [y, z], 0);
    SeqCode(y, [z], c.next);
    LastCode(z, Compile(y, c.next, None, TNone).next);
  }

  lemma UnalignedTarget(h: Host, v: Word, ts: TFuncs, fuel: nat, stack: seq<Raw>, storage: map<int, Word>)
    requires !h.isStatic && Linked([], [], ts)
    ensures var t := T.Exec(h, ts, fuel, Compile(UnalignedAnalyzed(v), 0, None, TNone).stmts, T.St(map[], stack, Fresh(storage)));
      t.ctl == Done && t.st.vm.storage == storage[0 := Shifted(v)]
  {
    hide Eval, T.Exec, Compile, Analyze, AnalyzeAll, WellFormed, Linked, WordCache.Good, WordCache.Flat, LoadMem, StoreMem, WordCache.ReadWord, WordCache.Fits, StoreRead;
    hide FlatMemory.Harmless, FlatMemory.ReadWord, Labels, LabelsAll, FrameOk, Rel;
    var st := T.St(map[], stack, Fresh(storage));
    var es, a := Unaligned(v).es, UnalignedAnalyzed(v).es;
    UnalignedParts(v);
    NothingInScope();
    WordCache.EmptyGood();
    UnalignedMemory(v, storage);
    BlockCode(a[0], a[1], a[2]);
    var c := Compile(a[0], 0, None, TNone);
    var d := Compile(a[1], c.next, None, TNone);
    var last := Compile(a[2], d.next, None, TNone);
    StoreSource(h, fuel, 0, v, View(st.vm));
    CompileSim(h, [], ts, fuel, es[0], false, EmptyFrame, a[0], 0, None, TNone, map[], st);
    ExecAppend(h, ts, fuel, c.stmts, d.stmts + last.stmts, st);
    var st1 := T.Exec(h, ts, fuel, c.stmts, st).st;
    ReadStatement(h, ts, fuel, 1, c.next, st1);
    ExecAppend(h, ts, fuel, d.stmts, last.stmts, st1);
    var st2 := T.Exec(h, ts, fuel, d.stmts, st1).st;
    StoreReadRun(h, ts, fuel, d.next, 0, st2);
  }

  lemma NothingInScope()
    ensures FrameOk(EmptyFrame) && forall l :: Rel(EmptyFrame, map[], l, None)
  {}

  lemma UnalignedParts(v: Word)
    ensures var es, a := Unaligned(v).es, UnalignedAnalyzed(v).es;
      && WellFormed(es[0], false, []) && Analyze(es[0], EmptyFrame) == Some(a[0])
      && a[1] == AApply(MLoad, [AInt(1)]) && a[2] == StoreRead(0)
  {
    hide AnalyzeAll, LabelsAll;
    assert WellFormed(Int(0), true, []) && WellFormed(Int(v), true, []);
    assert Analyze(Int(v), EmptyFrame) == Some(AInt(v));
    AnalyzedPair(Int(v), 0, AInt(v), EmptyFrame);
  }

  /** `mload p` as a statement: memory is extended, and the aligned word there is now read as the word at `p`. */
  lemma ReadStatement(h: Host, ts: TFuncs, fuel: nat, p: Word, k: nat, st: TSt)
    requires Linked([], [], ts) && WordCache.Good(st.vm.mem)
    ensures var t := T.Exec(h, ts, fuel, Compile(AApply(MLoad, [AInt(p)]), k, None, TNone).stmts, st);
      var x := LoadMem(View(st.vm), p);
      && t.ctl == Done && WordCache.Flat(t.st.vm.mem) == x.world.mem && t.st.vm.storage == st.vm.storage
      && WordCache.Fits(t.st.vm.mem) && |t.st.vm.mem.bytes| == |x.world.mem|
      && var again := WordCache.ReadWord(t.st.vm.mem, Floor32(p)); again.ok && x.ctl == Val(again.w)
  {
    hide Eval, T.Exec, Analyze, AnalyzeAll, WellFormed, Linked, WordCache.Good, WordCache.Flat, LoadMem, WordCache.ReadWord, WordCache.Fits;
    hide FlatMemory.Harmless, FlatMemory.ReadWord, FrameOk, Rel, Compile;
    IgnoredWant(p, k);
    var e, a := Apply(MLoad, [Int(p)]), AApply(MLoad, [AInt(p)]);
    LiteralOne(p);
    ReadWellFormed(p);
    NothingInScope();
    LiteralSingle(h, fuel, p, map[], View(st.vm));
    ReadSource(h, fuel, p, View(st.vm));
    LoadStorage(View(st.vm), p);
    WordReadIff(h, [], ts, fuel, e, EmptyFrame, a, k, None, map[], st);
  }

  lemma IgnoredWant(p: Word, k: nat)
    ensures Compile(AApply(MLoad, [AInt(p)]), k, None, TInt).stmts == Compile(AApply(MLoad, [AInt(p)]), k, None, TNone).stmts
  {
    hide CompileArgs;
  }

  lemma ReadWellFormed(p: Word)
    ensures WellFormed(Apply(MLoad, [Int(p)]), true, [])
  {
    assert WellFormed(Int(p), true, []);
  }

  // ---- programs: loops ------------------------------------------------------------------------

  /** `repeat i start rounds bound: sstore 0 i` */
  function Counting(start: Word, rounds: Word, bound: nat): IR {
    Repeat("i", Int(start), Int(rounds), bound, STORE_INDEX)
  }

  const STORE_INDEX := Apply(SStore, [Int(0), Var("i")])

  const STORE_LOCAL: AIR := AApply(SStore, [AInt(0), AVar("i", 0)])

  function CountingAnalyzed(start: Word, rounds: Word, bound: nat): AIR {
    ARepeat("i", 0, AInt(start), AInt(rounds), bound, STORE_LOCAL)
  }

  lemma CountingIs(start: Word, rounds: Word, bound: nat)
    ensures Labels(Counting(start, rounds, bound)) == [] && WellFormed(Counting(start, rounds, bound), false, [])
    ensures Analyze(Counting(start, rounds, bound), EmptyFrame) == Some(CountingAnalyzed(start, rounds, bound))
  {
    var f := EnterOne(EmptyFrame, "i");
    assert Analyze(Var("i"), f) == Some(AVar("i", 0));
    AnalyzedPair(Var("i"), 0, AVar("i", 0), f);
    assert "i"[0] != RETURN_PC[0];
    assert WellFormed(Int(0), true, []) && WellFormed(Var("i"), true, []);
    assert WellFormed(STORE_INDEX, false, []);
    assert !Assigns(STORE_INDEX, "i");
    assert Labels(STORE_INDEX) == [];
  }

  /** The index modulo 2**256 is stored in every round, and the loop ends. */
  lemma {:induction false} CountingSource(h: Host, fuel: nat, i: nat, n: nat, w: World)
    requires !h.isStatic && w.exact
    ensures var r := EvalLoop(h, [], fuel, "i", i, n, STORE_INDEX, map[], w);
      && r.ctl == Done && r.world.mem == w.mem
      && r.world.storage == (if n == 0 then w.storage else w.storage[0 := Wrap(i + n - 1)])
      && (r.world.exact <==> n == 0 || i + n <= TWO256)
    decreases n
  {
    if n > 0 {
      IndexStored(h, fuel, Wrap(i), w.Under(i < TWO256));
      var w1 := w.Under(i < TWO256).(storage := w.storage[0 := Wrap(i)]);
      assert Restore(map[], map["i" := Wrap(i)], "i") == map[];
      if w1.exact {
        CountingSource(h, fuel, i + 1, n - 1, w1);
      } else {
        CountingOn(h, fuel, i + 1, n - 1, w1);
      }
    }
  }

  lemma {:induction false} CountingOn(h: Host, fuel: nat, i: nat, n: nat, w: World)
    requires !h.isStatic && !w.exact
    ensures var r := EvalLoop(h, [], fuel, "i", i, n, STORE_INDEX, map[], w);
      && r.ctl == Done && r.world.mem == w.mem && !r.world.exact
      && r.world.storage == (if n == 0 then w.storage else w.storage[0 := Wrap(i + n - 1)])
    decreases n
  {
    if n > 0 {
      IndexStored(h, fuel, Wrap(i), w.Under(i < TWO256));
      assert Restore(map[], map["i" := Wrap(i)], "i") == map[];
      CountingOn(h, fuel, i + 1, n - 1, w.Under(i < TWO256).(storage := w.storage[0 := Wrap(i)]));
    }
  }

  lemma IndexStored(h: Host, fuel: nat, i: Word, w: World)
    requires !h.isStatic
    ensures var env: Env := map["i" := i];
      Eval(h, [], fuel, STORE_INDEX, env, w) == Res(Done, env, w.(storage := w.storage[0 := i]))
  {
    var a, b, env: Env := Int(0), Var("i"), map["i" := i];
    assert [a, b][..1] == [a];
    LiteralSingle(h, fuel, 0, env, w);
    assert EvalArgs(h, [], fuel, [a, b], env, w) == ArgsRes(Done, [0, i], env, w);
  }

  lemma StoreLocalCode(k: nat)
    ensures Compile(STORE_LOCAL, k, None, TNone).stmts ==
      [T.Assign(Temp(k + 1), T.Name(User("i", 0)))] + [T.Assign(Temp(k), T.Lit(0)), T.RaiseIfStatic, T.SetStorage(Temp(k), Temp(k + 1))]
  {
    hide TypeOf;
    var a0, av, wants := AInt(0), AVar("i", 0), OperandTypes(SStore, 2);
    assert [a0, av][..1] == [a0] && [a0][..0] == [];
    assert Compile(a0, k + 2, Some(Temp(k)), TInt) == Code([T.Assign(Temp(k), T.Lit(0))], k + 2);
    assert Compile(av, k + 2, Some(Temp(k + 1)), TInt) == Code([T.Assign(Temp(k + 1), T.Name(User("i", 0)))], k + 2);
    assert CompileArgs([a0][..0], k, wants[..1][..0], k + 2) == Code([], k + 2);
    assert CompileArgs([a0], k, wants[..1], k + 2) == Code([T.Assign(Temp(k), T.Lit(0))], k + 2);
    assert Emit(SStore, Temps(k, 2)) == Emitted([T.RaiseIfStatic, T.SetStorage(Temp(k), Temp(k + 1))], None);
  }

  /** One round: an index past the words is refused by the storage. */
  lemma StoreLocalRun(h: Host, ts: TFuncs, fuel: nat, k: nat, cur: nat, st: TSt)
    requires !h.isStatic && User("i", 0) in st.locals && st.locals[User("i", 0)] == I(cur)
    ensures var t := T.Exec(h, ts, fuel, Compile(STORE_LOCAL, k, None, TNone).stmts, st);
      t.ctl == if cur < TWO256 then Done else Fault(TypeError)
  {
    hide Compile, T.Exec;
    StoreLocalCode(k);
    var first := [T.Assign(Temp(k + 1), T.Name(User("i", 0)))];
    var rest := [T.Assign(Temp(k), T.Lit(0)), T.RaiseIfStatic, T.SetStorage(Temp(k), Temp(k + 1))];
    ExecAppend(h, ts, fuel, first, rest, st);
    ExecOne(h, ts, fuel, first[0], st);
    StoreRun(h, ts, fuel, Temp(k), Temp(k + 1), cur, st.(locals := st.locals[Temp(k + 1) := I(cur)]));
  }

  /** Python's range does not wrap: the round after index 2**256 - 1 fails. */
  lemma {:induction false} CountingTarget(h: Host, ts: TFuncs, fuel: nat, k: nat, cur: nat, n: nat, st: TSt)
    requires !h.isStatic
    ensures T.For(h, ts, fuel, User("i", 0), cur, n, Compile(STORE_LOCAL, k, None, TNone).stmts, st).ctl ==
            if n == 0 || cur + n <= TWO256 then Done else Fault(TypeError)
    decreases n
  {
    hide Compile, T.Exec;
    if n > 0 {
      var st1 := st.(locals := st.locals[User("i", 0) := I(cur)]);
      StoreLocalRun(h, ts, fuel, k, cur, st1);
      var b := T.Exec(h, ts, fuel, Compile(STORE_LOCAL, k, None, TNone).stmts, st1);
      if cur < TWO256 { CountingTarget(h, ts, fuel, k, cur + 1, n - 1, b.st); }
    }
  }

  lemma CountingCode(start: Word, rounds: Word, bound: nat)
    ensures Compile(CountingAnalyzed(start, rounds, bound), 0, None, TNone).stmts ==
      [T.Assign(Temp(0), T.Lit(start)), T.Assign(Temp(1), T.Lit(rounds))] +
        [T.AssertAtMost(Temp(1), bound), T.ForRange(User("i", 0), Temp(0), Temp(1), Compile(STORE_LOCAL, 2, None, TNone).stmts)]
  {
    hide CompileArgs, Emit;
    assert Compile(AInt(start), 2, Some(Temp(0)), TInt) == Code([T.Assign(Temp(0), T.Lit(start))], 2);
    assert Compile(AInt(rounds), 2, Some(Temp(1)), TInt) == Code([T.Assign(Temp(1), T.Lit(rounds))], 2);
  }

  lemma CountingRun(h: Host, ts: TFuncs, fuel: nat, start: Word, rounds: Word, bound: nat, st: TSt)
    requires !h.isStatic
    ensures T.Exec(h, ts, fuel, Compile(CountingAnalyzed(start, rounds, bound), 0, None, TNone).stmts, st).ctl ==
      if rounds > bound then Fault(TooManyRounds) else if rounds == 0 || start + rounds <= TWO256 then Done else Fault(TypeError)
  {
    hide Compile, T.For;
    CountingCode(start, rounds, bound);
    var body := Compile(STORE_LOCAL, 2, None, TNone).stmts;
    var setup := [T.Assign(Temp(0), T.Lit(start)), T.Assign(Temp(1), T.Lit(rounds))];
    var loop := [T.AssertAtMost(Temp(1), bound), T.ForRange(User("i", 0), Temp(0), Temp(1), body)];
    var st1 := st.(locals := st.locals[Temp(0) := I(start)][Temp(1) := I(rounds)]);
    ExecAppend(h, ts, fuel, setup, loop, st);
    ExecTwo(h, ts, fuel, setup[0], setup[1], st);
    LoopExec(h, ts, fuel, User("i", 0), Temp(0), Temp(1), bound, body, start, rounds, st1);
    CountingTarget(h, ts, fuel, 2, start, rounds, st1);
  }

  lemma CountingMeans(h: Host, start: Word, rounds: Word, bound: nat, fuel: nat, w: World)
    requires !h.isStatic && w.exact
    ensures var r := Eval(h, [], fuel, Counting(start, rounds, bound), map[], w);
      if rounds > bound then r.ctl == Revert([])
      else r.ctl == Done && r.world.storage == (if rounds == 0 then w.storage else w.storage[0 := Wrap(start + rounds - 1)])
           && (r.world.exact <==> rounds == 0 || start + rounds <= TWO256)
  {
    hide EvalLoop;
    CountingSource(h, fuel, start, rounds, w);
    assert Eval(h, [], fuel, Int(start), map[], w) == Res(Val(start), map[], w);
    assert Eval(h, [], fuel, Int(rounds), map[], w) == Res(Val(rounds), map[], w);
  }

  /** A compiled loop that uses its index runs as on the EVM exactly when it makes no more rounds than its
      bound and its counter does not wrap around. */
  lemma LoopIff(h: Host, start: Word, rounds: Word, bound: nat, fuel: nat, stack: seq<Raw>, vm: T.Vm)
    requires !h.isStatic && WordCache.Good(vm.mem)
    ensures var r := Run(h, fuel, Counting(start, rounds, bound), View(vm));
      var t := Start(h, CompileProgram(CountingAnalyzed(start, rounds, bound)), fuel, stack, vm);
      && (SameRun(r, t) <==> rounds <= bound && (rounds == 0 || start + rounds <= TWO256))
      && (rounds > bound ==> r.ctl == Revert([]) && t.ctl == Fault(TooManyRounds))
      && (rounds <= bound && rounds > 0 ==> r.ctl == Done && r.world.Load(0) == Wrap(start + rounds - 1))
      && (rounds <= bound && rounds > 0 && start + rounds > TWO256 ==> t.ctl == Fault(TypeError))
  {
    hide Eval, T.Exec, Compile, Analyze, WellFormed, CompileProgram, WordCache.Good, WordCache.Flat, Linked;
    var e, a := Counting(start, rounds, bound), CountingAnalyzed(start, rounds, bound);
    CountingIs(start, rounds, bound);
    ProgramLinked(e, a);
    CountingMeans(h, start, rounds, bound, fuel, View(vm));
    CountingRun(h, CompileProgram(a).funcs, fuel, start, rounds, bound, T.St(map[], stack, vm));
    CompilerCorrect(h, e, a, fuel, stack, vm);
  }

  /** A signed range across zero, `range(-1, 1)`: -1 is an accepted literal and becomes 2**256 - 1, so the
      EVM stores 0 last and Python fails. */
  lemma NegativeStart(h: Host, fuel: nat, stack: seq<Raw>, vm: T.Vm)
    requires !h.isStatic && WordCache.Good(vm.mem)
    ensures var e := Repeat("i", Int(-1), Int(2), 2, STORE_INDEX);
      var a := CountingAnalyzed(TWO256 - 1, 2, 2);
      var r, t := Run(h, fuel, e, View(vm)), Start(h, CompileProgram(a), fuel, stack, vm);
      && Analyze(e, EmptyFrame) == Some(a)
      && r.ctl == Done && r.world.Load(0) == 0 && t.ctl == Fault(TypeError)
  {
    hide T.Exec, Compile, CompileProgram, WordCache.Good, WordCache.Flat, EvalLoop, EvalArgs, AnalyzeAll;
    CountingIs(TWO256 - 1, 2, 2);
    LoopIff(h, TWO256 - 1, 2, 2, fuel, stack, vm);
    NegativeIs(h, fuel, View(vm));
  }

  lemma NegativeIs(h: Host, fuel: nat, w: World)
    ensures var e, d := Repeat("i", Int(-1), Int(2), 2, STORE_INDEX), Counting(TWO256 - 1, 2, 2);
      && Analyze(e, EmptyFrame) == Analyze(d, EmptyFrame) && Run(h, fuel, e, w) == Run(h, fuel, d, w)
  {
    hide EvalLoop, EvalArgs, AnalyzeAll, ApplyOp;
    assert Wrap(-1) == TWO256 - 1 == Wrap(TWO256 - 1);
    assert Analyze(Int(-1), EmptyFrame) == Analyze(Int(TWO256 - 1), EmptyFrame);
    var fs := Labels(STORE_INDEX);
    assert Eval(h, fs, fuel, Int(-1), map[], w) == Eval(h, fs, fuel, Int(TWO256 - 1), map[], w);
  }

  // ---- copying nothing ------------------------------------------------------------------------

  /** Extending by nothing past the end, and writing nothing there: the cache grows and the bytes do not. */
  lemma CopyNothing(m: WordCache.Memory, ptr: nat)
    requires WordCache.Good(m) && Ceil32(ptr) > |m.bytes|
    ensures var x := WordCache.Extend(m, ptr, 0);
      var d := WordCache.Write(x, ptr, []);
      d.ok && !WordCache.Fits(d.m) && d.m.bytes == m.bytes && WordCache.Flat(d.m) == WordCache.Flat(m)
  {
    var x := WordCache.Extend(m, ptr, 0);
    var first, last := ptr / 32, (ptr + 31) / 32;
    assert last > |m.cache| && |x.cache| == |x.pending| == last && x.bytes == m.bytes;
    if first < last {
      assert !x.pending[first];
      assert WordCache.Flush(x, first + 1, last) == WordCache.Did(x, true);
    }
    assert WordCache.Writeback(x, ptr, 0) == WordCache.Did(x, true);
  }

  /** `calldatacopy` agrees with the EVM, and leaves the buffers fitting together exactly when it copies
      something or stays within memory: for size 0 the template still extends the cache. */
  lemma {:induction false} CopyIff(h: Host, fs: seq<Func>, ts: TFuncs, fuel: nat, e: IR, f: Frame, a: AIR, k: nat, env: Env, st: TSt)
    requires e.Apply? && e.op.CalldataCopy?
    requires WellFormed(e, false, fs) && Linked(fs, fs, ts)
    requires Analyze(e, f) == Some(a) && FrameOk(f) && Rel(f, env, st.locals, None) && WordCache.Good(st.vm.mem)
    requires var ar := EvalArgs(h, fs, fuel, e.args, env, View(st.vm)); ar.world.exact && ar.stop == Done
    ensures var ar := EvalArgs(h, fs, fuel, e.args, env, View(st.vm));
      var r, t := Eval(h, fs, fuel, e, env, View(st.vm)), T.Exec(h, ts, fuel, Compile(a, k, None, TNone).stmts, st);
      && |ar.vals| == 3 && SameRun(r, t)
      && (WordCache.Good(t.st.vm.mem) <==> ar.vals[2] > 0 || Ceil32(ar.vals[0]) <= |ar.world.mem|)
  {
    hide T.Exec, T.Step, Eval, EvalArgs, ApplyOp, Compile, CompileArgs, Emit, TypeOf, WellFormed, Analyze, AnalyzeAll;
    hide WordCache.Coherent, WordCache.Fits, WordCache.Flat, WordCache.Write, WordCache.Extend, Rel, FrameOk, CalldataBytes;
    var st1 := OperandsDone(h, fs, ts, fuel, e, false, f, a, k, None, TNone, env, st);
    var ar, temps := EvalArgs(h, fs, fuel, e.args, env, View(st.vm)), Temps(k, 3);
    CopyMeans(h, a.args, temps, ar.vals, ar.world);
    CopyRun(h, ts, fuel, temps, ar.vals, st1);
    var val := CalldataBytes(h.data, ar.vals[1], ar.vals[2]);
    assert Emit(a.op, temps).stmts + [] == Emit(a.op, temps).stmts;
    if val == [] && Ceil32(ar.vals[0]) > |ar.world.mem| {
      CopyNothing(st1.vm.mem, ar.vals[0]);
    } else {
      CopySim(st1.vm.mem, ar.world, ar.vals[0], val);
    }
  }

  /** `calldatacopy 32 0 0; mstore 0 1; return 0 32` */
  const ZERO_COPY := Seq([Apply(CalldataCopy, [Int(32), Int(0), Int(0)]), Apply(MStore, [Int(0), Int(1)]), Returning(0, 32)])

  const ZERO_COPY_ANALYZED := ASeq([ZERO_COPY_FIRST, AApply(MStore, [AInt(0), AInt(1)]), ReturningAnalyzed(0, 32)])

  const ZERO_COPY_FIRST: AIR := AApply(CalldataCopy, [AInt(32), AInt(0), AInt(0)])

  lemma ZeroCopyIs()
    ensures Labels(ZERO_COPY) == [] && WellFormed(ZERO_COPY, false, [])
    ensures Analyze(ZERO_COPY, EmptyFrame) == Some(ZERO_COPY_ANALYZED)
  {
    var f := EmptyFrame;
    var x, y, z := Apply(CalldataCopy, [Int(32), Int(0), Int(0)]), Apply(MStore, [Int(0), Int(1)]), Returning(0, 32);
    assert Analyze(Int(0), f) == Some(AInt(0)) && Analyze(Int(1), f) == Some(AInt(1)) && Analyze(Int(32), f) == Some(AInt(32));
    AnalyzedPair(Int(1), 0, AInt(1), f);
    AnalyzedPair(Int(0), 0, AInt(0), f);
    AnalyzedCons(Int(32), AInt(32), [Int(0), Int(0)], [AInt(0), AInt(0)], f);
    assert [Int(32)] + [Int(0), Int(0)] == [Int(32), Int(0), Int(0)] && [AInt(32)] + [AInt(0), AInt(0)] == [AInt(32), AInt(0), AInt(0)];
    ReturningIs(0, 32);
    ZeroCopyWellFormed();
    hide AnalyzeAll, LabelsAll, WellFormed;
    AnalyzedBlock(x, y, z, ZERO_COPY_FIRST, AApply(MStore, [AInt(0), AInt(1)]), ReturningAnalyzed(0, 32), f);
  }

  lemma ZeroCopyWellFormed()
    ensures WellFormed(ZERO_COPY, false, [])
  {
    assert WellFormed(Int(0), true, []) && WellFormed(Int(1), true, []) && WellFormed(Int(32), true, []);
    assert WellFormed(Apply(CalldataCopy, [Int(32), Int(0), Int(0)]), false, []);
    assert WellFormed(Apply(MStore, [Int(0), Int(1)]), false, []);
    ReturningIs(0, 32);
  }

  // ---- literal operands, compiled and run ----

  function PairCode(x: Word, y: Word, k: nat): seq<T.Stmt<TVar>> {
    [T.Assign(Temp(k + 1), T.Lit(y)), T.Assign(Temp(k), T.Lit(x))]
  }

  lemma PairCompiled(x: Word, y: Word, op: Op, base: nat, next: nat)
    requires !op.Select? && !op.Sha3_64? && !op.Sha3_32?
    ensures CompileArgs([AInt(x), AInt(y)], base, OperandTypes(op, 2), next) == Code(PairCode(x, y, base), next)
  {
    var a, b, wants := AInt(x), AInt(y), OperandTypes(op, 2);
    assert [a, b][..1] == [a] && [a][..0] == [];
    assert Compile(b, next, Some(Temp(base + 1)), TInt) == Code([T.Assign(Temp(base + 1), T.Lit(y))], next);
    assert Compile(a, next, Some(Temp(base)), TInt) == Code([T.Assign(Temp(base), T.Lit(x))], next);
    assert CompileArgs([a][..0], base, wants[..1][..0], next) == Code([], next);
    assert CompileArgs([a], base, wants[..1], next) == Code([T.Assign(Temp(base), T.Lit(x))], next);
  }

  lemma PairRun(h: Host, ts: TFuncs, fuel: nat, x: Word, y: Word, k: nat, st: TSt)
    ensures T.Exec(h, ts, fuel, PairCode(x, y, k), st) ==
      T.TRes(Done, st.(locals := st.locals[Temp(k + 1) := I(y)][Temp(k) := I(x)]))
  {
    ExecTwo(h, ts, fuel, T.Assign(Temp(k + 1), T.Lit(y)), T.Assign(Temp(k), T.Lit(x)), st);
  }

  /** An operation without a result on two literals. */
  lemma PairStatement(h: Host, ts: TFuncs, fuel: nat, op: Op, x: Word, y: Word, k: nat, st: TSt)
    requires op.MStore? || op.ReturnOp?
    ensures var a := AApply(op, [AInt(x), AInt(y)]);
      && Compile(a, k, None, TNone).next == k + 2
      && T.Exec(h, ts, fuel, Compile(a, k, None, TNone).stmts, st) ==
           T.Exec(h, ts, fuel, Emit(op, Temps(k, 2)).stmts, st.(locals := st.locals[Temp(k + 1) := I(y)][Temp(k) := I(x)]))
  {
    hide T.Exec, CompileArgs, TypeOf, PairCode;
    PairCompiled(x, y, op, k, k + 2);
    PairRun(h, ts, fuel, x, y, k, st);
    var m := Emit(op, Temps(k, 2));
    assert m.res == None && m.stmts + [] == m.stmts;
    assert Compile(AApply(op, [AInt(x), AInt(y)]), k, None, TNone).stmts == PairCode(x, y, k) + m.stmts;
    ExecAppend(h, ts, fuel, PairCode(x, y, k), m.stmts, st);
  }

  /** A cache of one word over no bytes. */
  const TORN := WordCache.Memory([None], [false], [])

  lemma TornStore()
    ensures WordCache.Extend(TORN, 0, 32) == TORN
    ensures WordCache.WriteWord(TORN, 0, 1) == WordCache.Did(WordCache.Memory([Some(1)], [true], []), true)
    ensures !WordCache.ReadBytes(WordCache.Memory([Some(1)], [true], []), 0, 32).ok
  {
    var m := WordCache.Memory([Some(1)], [true], []);
    assert !WordCache.Flush(m, 0, 1).ok;
  }

  lemma TornStoreRun(h: Host, ts: TFuncs, fuel: nat, k: nat, st: TSt)
    requires st.vm.mem == TORN
    ensures var t := T.Exec(h, ts, fuel, Compile(AApply(MStore, [AInt(0), AInt(1)]), k, None, TNone).stmts, st);
      t.ctl == Done && t.st.vm.mem == WordCache.Memory([Some(1)], [true], [])
  {
    hide T.Exec, Compile, WordCache.Extend, WordCache.WriteWord, WordCache.ReadBytes, WordCache.ReadWord, WordCache.Write, WordCache.Flat;
    PairStatement(h, ts, fuel, MStore, 0, 1, k, st);
    TornStore();
    var st1 := st.(locals := st.locals[Temp(k + 1) := I(1)][Temp(k) := I(0)]);
    assert Emit(MStore, Temps(k, 2)).stmts == [T.ExtendMem(Temp(k)), T.StoreWord(Temp(k), Temp(k + 1))];
    ExecTwo(h, ts, fuel, T.ExtendMem(Temp(k)), T.StoreWord(Temp(k), Temp(k + 1)), st1);
  }

  lemma TornReturnRun(h: Host, ts: TFuncs, fuel: nat, k: nat, st: TSt)
    requires st.vm.mem == WordCache.Memory([Some(1)], [true], [])
    ensures T.Exec(h, ts, fuel, Compile(ReturningAnalyzed(0, 32), k, None, TNone).stmts, st).ctl == Fault(OutsideMemory)
  {
    hide T.Exec, Compile, WordCache.ReadBytes;
    PairStatement(h, ts, fuel, ReturnOp, 0, 32, k, st);
    TornStore();
    var st1 := st.(locals := st.locals[Temp(k + 1) := I(32)][Temp(k) := I(0)]);
    assert Emit(ReturnOp, Temps(k, 2)).stmts == [OutputStmt(ReturnOp, Temp(k), Temp(k + 1))];
    OutputStep(h, ts, fuel, ReturnOp, Temp(k), Temp(k + 1), 0, 32, st1);
    ExecOne(h, ts, fuel, OutputStmt(ReturnOp, Temp(k), Temp(k + 1)), st1);
  }

  lemma ZeroCopyCode()
    ensures Compile(ZERO_COPY_FIRST, 0, None, TNone) ==
      Code([T.Assign(Temp(2), T.Lit(0))] + PairCode(32, 0, 0) + Emit(CalldataCopy, Temps(0, 3)).stmts, 3)
  {
    hide TypeOf, PairCode, Emit;
    var args, wants := [AInt(32), AInt(0), AInt(0)], OperandTypes(CalldataCopy, 3);
    assert args[..2] == [AInt(32), AInt(0)] && wants[..2] == OperandTypes(CalldataCopy, 2);
    PairCompiled(32, 0, CalldataCopy, 0, 3);
    assert Compile(AInt(0), 3, Some(Temp(2)), TInt) == Code([T.Assign(Temp(2), T.Lit(0))], 3);
    assert CompileArgs(args, 0, wants, 3) == Code([T.Assign(Temp(2), T.Lit(0))] + PairCode(32, 0, 0), 3);
    NoResult();
  }

  lemma NoResult()
    ensures var m := Emit(CalldataCopy, Temps(0, 3)); m.res == None && m.stmts + Deliver(m.res, TNone, None, TNone) == m.stmts
  {}

  lemma ZeroCopyRun(h: Host, ts: TFuncs, fuel: nat, st: TSt)
    requires st.vm.mem == WordCache.EMPTY
    ensures var t := T.Exec(h, ts, fuel, Compile(ZERO_COPY_FIRST, 0, None, TNone).stmts, st);
      t.ctl == Done && t.st.vm.mem == TORN
  {
    hide T.Exec, Compile, Emit, CalldataBytes;
    ZeroCopyCode();
    var temps, first := Temps(0, 3), [T.Assign(Temp(2), T.Lit(0))];
    var st1 := st.(locals := st.locals[Temp(2) := I(0)]);
    var st2 := st1.(locals := st1.locals[Temp(1) := I(0)][Temp(0) := I(32)]);
    assert first + PairCode(32, 0, 0) + Emit(CalldataCopy, temps).stmts == first + (PairCode(32, 0, 0) + Emit(CalldataCopy, temps).stmts);
    ExecAppend(h, ts, fuel, first, PairCode(32, 0, 0) + Emit(CalldataCopy, temps).stmts, st);
    ExecOne(h, ts, fuel, first[0], st);
    ExecAppend(h, ts, fuel, PairCode(32, 0, 0), Emit(CalldataCopy, temps).stmts, st1);
    PairRun(h, ts, fuel, 32, 0, 0, st1);
    CopyRun(h, ts, fuel, temps, [32, 0, 0], st2);
    TornCopy();
  }

  lemma TornCopy()
    ensures WordCache.Write(WordCache.Extend(WordCache.EMPTY, 32, 0), 32, []) == WordCache.Did(TORN, true)
  {
    assert WordCache.Extend(WordCache.EMPTY, 32, 0) == TORN;
    assert WordCache.Writeback(TORN, 32, 0) == WordCache.Did(TORN, true);
    assert WordCache.Dropped(TORN.cache, 1, 1) == TORN.cache;
  }

  /** Copying nothing, as for an empty dynamic argument, makes the program raise where the EVM returns 1. */
  lemma ZeroCopyFails(h: Host, fuel: nat, stack: seq<Raw>, storage: map<int, Word>)
    ensures Run(h, fuel, ZERO_COPY, View(Fresh(storage))).ctl == Halt(Bytes32(1))
    ensures Start(h, CompileProgram(ZERO_COPY_ANALYZED), fuel, stack, Fresh(storage)).ctl == Fault(OutsideMemory)
  {
    hide Eval, T.Exec, Compile, Analyze, WellFormed, Linked, CompileProgram;
    ZeroCopyIs();
    ProgramLinked(ZERO_COPY, ZERO_COPY_ANALYZED);
    ZeroCopySource(h, fuel, storage);
    var es, ts, st := ZERO_COPY_ANALYZED.es, CompileProgram(ZERO_COPY_ANALYZED).funcs, T.St(map[], stack, Fresh(storage));
    BlockCode(es[0], es[1], es[2]);
    var c := Compile(es[0], 0, None, TNone);
    var d := Compile(es[1], c.next, None, TNone);
    var last := Compile(es[2], d.next, None, TNone);
    ZeroCopyRun(h, ts, fuel, st);
    ExecAppend(h, ts, fuel, c.stmts, d.stmts + last.stmts, st);
    var st1 := T.Exec(h, ts, fuel, c.stmts, st).st;
    TornStoreRun(h, ts, fuel, c.next, st1);
    ExecAppend(h, ts, fuel, d.stmts, last.stmts, st1);
    TornReturnRun(h, ts, fuel, d.next, T.Exec(h, ts, fuel, d.stmts, st1).st);
  }

  lemma ZeroCopySource(h: Host, fuel: nat, storage: map<int, Word>)
    ensures Run(h, fuel, ZERO_COPY, View(Fresh(storage))).ctl == Halt(Bytes32(1))
  {
    hide Eval, EvalArgs, Labels, WordCache.Flat;
    WordCache.EmptyGood();
    ZeroCopyIs();
    var w, es := View(Fresh(storage)), ZERO_COPY.es;
    var w1 := w.Under(false);
    CopySource(h, fuel, w);
    StoreSource(h, fuel, 0, 1, w1);
    var w2 := StoreMem(w1, 0, 1).world;
    ReturnSource(h, fuel, w2);
    assert FlatMemory.Extend([], 0, 32) == Zeros(32);
    assert w2.mem == Bytes32(1);
    assert FlatMemory.ReadBytes(w2.mem, 0, 32) == Bytes32(1);
    BlockSource(h, fuel, es[0], es[1], es[2], w);
  }

  lemma CopySource(h: Host, fuel: nat, w: World)
    requires w.mem == []
    ensures Eval(h, [], fuel, Apply(CalldataCopy, [Int(32), Int(0), Int(0)]), map[], w) == Res(Done, map[], w.Under(false))
  {
    var args := [Int(32), Int(0), Int(0)];
    assert args[..2] == [Int(32), Int(0)];
    LiteralPair(h, [], fuel, 32, 0, map[], w);
    assert EvalArgs(h, [], fuel, args, map[], w) == ArgsRes(Done, [32, 0, 0], map[], w);
    assert CalldataBytes(h.data, 0, 0) == [];
  }

  lemma ReturnSource(h: Host, fuel: nat, w: World)
    ensures Eval(h, [], fuel, Returning(0, 32), map[], w).ctl == Halt(FlatMemory.ReadBytes(FlatMemory.Extend(w.mem, 0, 32), 0, 32))
  {
    hide EvalArgs;
    LiteralPair(h, [], fuel, 0, 32, map[], w);
  }
}
