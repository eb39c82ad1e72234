/** Renaming the locals of emitted code: an injective renaming changes nothing that can be observed. */
module Rename {
  import opened Words
  import opened Machine
  import opened PythonTarget
  import WordCache

  // ---- renaming ---------------------------------------------------------------------------

  function MapAll<K, L>(f: K -> L, vs: seq<K>): (r: seq<L>)
    ensures |r| == |vs| && forall i :: 0 <= i < |vs| ==> r[i] == f(vs[i])
  {
    seq(|vs|, i requires 0 <= i < |vs| => f(vs[i]))
  }

  function MapExpr<K, L>(f: K -> L, e: Expr<K>): Expr<L> {
    match e
    case Lit(n) => Lit(n)
    case Name(v) => Name(f(v))
    case ToIntCall(e) => ToIntCall(MapExpr(f, e))
    case ToBytesCall(e) => ToBytesCall(MapExpr(f, e))
    case Paren(e) => Paren(MapExpr(f, e))
    case Binop(g, s, x, y) => Binop(g, s, f(x), f(y))
    case ShiftRight(x, y) => ShiftRight(f(x), f(y))
    case SignedShiftRight(x, y) => SignedShiftRight(f(x), f(y))
    case ShiftLeft(x, y) => ShiftLeft(f(x), f(y))
    case Cond(x, t, y) => Cond(f(x), f(t), f(y))
    case EqZero(x) => EqZero(f(x))
    case Ceil32Of(x) => Ceil32Of(f(x))
    case MsgSender => MsgSender
    case MsgValue => MsgValue
    case LenMsgData => LenMsgData
    case ReadWord(p) => ReadWord(f(p))
    case GetStorage(s) => GetStorage(f(s))
    case Keccak(p) => Keccak(f(p))
    case StackPop => StackPop
  }

  function MapStmt<K, L>(f: K -> L, s: Stmt<K>): Stmt<L>
    decreases s
  {
    match s
    case Assign(v, e) => Assign(f(v), MapExpr(f, e))
    case ExprStmt(e) => ExprStmt(MapExpr(f, e))
    case PassStmt => PassStmt
    case BreakStmt => BreakStmt
    case ContinueStmt => ContinueStmt
    case ReturnNone => ReturnNone
    case LoadCalldata(d, p) => LoadCalldata(f(d), f(p))
    case CutCalldata(d, p, n) => CutCalldata(f(d), f(p), f(n))
    case Preimage(d, ps) => Preimage(f(d), MapAll(f, ps))
    case ExtendMem(p) => ExtendMem(f(p))
    case ExtendBy(p, n) => ExtendBy(f(p), f(n))
    case WriteMem(p, n, v) => WriteMem(f(p), f(n), f(v))
    case StoreWord(p, v) => StoreWord(f(p), f(v))
    case SetStorage(p, v) => SetStorage(f(p), f(v))
    case RaiseIfStatic => RaiseIfStatic
    case RaiseUnless(t) => RaiseUnless(f(t))
    case RaiseRevert(p, n) => RaiseRevert(f(p), f(n))
    case RaiseReturn(p, n) => RaiseReturn(f(p), f(n))
    case RaiseStop => RaiseStop
    case PushInt(v) => PushInt(f(v))
    case CallOpcode(c, n, p) => CallOpcode(c, n, p)
    case AssertAtMost(v, b) => AssertAtMost(f(v), b)
    case IfStmt(t, a, b) => IfStmt(f(t), MapCode(f, a), MapCode(f, b))
    case ForRange(i, a, n, b) => ForRange(f(i), f(a), f(n), MapCode(f, b))
    case CallFn(l, vs) => CallFn(l, MapAll(f, vs))
    case ReturnCall(l, vs) => ReturnCall(l, MapAll(f, vs))
  }

  function MapCode<K, L>(f: K -> L, ss: seq<Stmt<K>>): (r: seq<Stmt<L>>)
    ensures |r| == |ss|
    decreases ss
  {
    if ss == [] then [] else [MapStmt(f, ss[0])] + MapCode(f, ss[1..])
  }

  function MapFuncs<K, L>(f: K -> L, fs: seq<TFunc<K>>): (r: seq<TFunc<L>>)
    ensures |r| == |fs|
  {
    if fs == [] then []
    else [TFunc(fs[0].lbl, MapAll(f, fs[0].params), MapCode(f, fs[0].code))] + MapFuncs(f, fs[1..])
  }

  // ---- the variables of a piece of code -----------------------------------------------------

  predicate ExprUses<K>(p: K -> bool, e: Expr<K>) {
    match e
    case Name(v) => p(v)
    case ToIntCall(e) => ExprUses(p, e)
    case ToBytesCall(e) => ExprUses(p, e)
    case Paren(e) => ExprUses(p, e)
    case Binop(_, _, x, y) => p(x) && p(y)
    case ShiftRight(x, y) => p(x) && p(y)
    case SignedShiftRight(x, y) => p(x) && p(y)
    case ShiftLeft(x, y) => p(x) && p(y)
    case Cond(x, t, y) => p(x) && p(t) && p(y)
    case EqZero(x) => p(x)
    case Ceil32Of(x) => p(x)
    case ReadWord(x) => p(x)
    case GetStorage(x) => p(x)
    case Keccak(x) => p(x)
    case _ => true
  }

  predicate AllIn<K>(p: K -> bool, vs: seq<K>) {
    forall i :: 0 <= i < |vs| ==> p(vs[i])
  }

  /** Every local that the statement reads or writes satisfies `p`. */
  predicate Uses<K>(p: K -> bool, s: Stmt<K>)
    decreases s
  {
    match s
    case Assign(v, e) => p(v) && ExprUses(p, e)
    case ExprStmt(e) => ExprUses(p, e)
    case LoadCalldata(d, q) => p(d) && p(q)
    case CutCalldata(d, q, n) => p(d) && p(q) && p(n)
    case Preimage(d, qs) => p(d) && AllIn(p, qs)
    case ExtendMem(q) => p(q)
    case ExtendBy(q, n) => p(q) && p(n)
    case WriteMem(q, n, v) => p(q) && p(n) && p(v)
    case StoreWord(q, v) => p(q) && p(v)
    case SetStorage(q, v) => p(q) && p(v)
    case RaiseUnless(t) => p(t)
    case RaiseRevert(q, n) => p(q) && p(n)
    case RaiseReturn(q, n) => p(q) && p(n)
    case PushInt(v) => p(v)
    case AssertAtMost(v, _) => p(v)
    case IfStmt(t, a, b) => p(t) && CodeUses(p, a) && CodeUses(p, b)
    case ForRange(i, a, n, b) => p(i) && p(a) && p(n) && CodeUses(p, b)
    case CallFn(_, vs) => AllIn(p, vs)
    case ReturnCall(_, vs) => AllIn(p, vs)
    case _ => true
  }

  predicate CodeUses<K>(p: K -> bool, ss: seq<Stmt<K>>)
    decreases ss
  {
    ss == [] || (Uses(p, ss[0]) && CodeUses(p, ss[1..]))
  }

  predicate FuncsUse<K>(p: K -> bool, fs: seq<TFunc<K>>) {
    fs == [] || (AllIn(p, fs[0].params) && CodeUses(p, fs[0].code) && FuncsUse(p, fs[1..]))
  }

  // ---- renamed execution ----------------------------------------------------------------------

  ghost predicate InjectiveOn<K(!new), L>(f: K -> L, p: K -> bool) {
    forall u, v :: p(u) && p(v) && f(u) == f(v) ==> u == v
  }

  /** The same dictionary under other keys. */
  ghost predicate SameLocals<K(!new), L(!new)>(f: K -> L, p: K -> bool, l: map<K, Raw>, m: map<L, Raw>) {
    && (forall v :: v in l ==> p(v))
    && (forall v :: p(v) ==> (v in l <==> f(v) in m) && (v in l ==> m[f(v)] == l[v]))
  }

  ghost predicate SameState<K(!new), L(!new)>(f: K -> L, p: K -> bool, s: St<K>, t: St<L>) {
    SameLocals(f, p, s.locals, t.locals) && s.stack == t.stack && s.vm == t.vm
  }

  ghost predicate SameResult<K(!new), L(!new)>(f: K -> L, p: K -> bool, a: TRes<K>, b: TRes<L>) {
    a.ctl == b.ctl && SameState(f, p, a.st, b.st)
  }

  lemma SetLocal<K(!new), L(!new)>(f: K -> L, p: K -> bool, l: map<K, Raw>, m: map<L, Raw>, v: K, r: Raw)
    requires InjectiveOn(f, p) && SameLocals(f, p, l, m) && p(v)
    ensures SameLocals(f, p, l[v := r], m[f(v) := r])
  {}

  ghost predicate RenamedValue<K(!new), L(!new)>(f: K -> L, p: K -> bool, a: ERes<K>, b: ERes<L>, s: St<K>, t: St<L>) {
    if a.EErr? then b.EErr? && a.kind == b.kind
    else b.EOk? && a.val == b.val && SameState(f, p, a.st, b.st) && a.st.locals == s.locals && b.st.locals == t.locals
  }

  lemma SameVar<K(!new), L(!new)>(f: K -> L, p: K -> bool, s: St<K>, t: St<L>, v: K)
    requires SameState(f, p, s, t) && p(v)
    ensures v in s.locals <==> f(v) in t.locals
    ensures v in s.locals ==> s.locals[v] == t.locals[f(v)]
    ensures IntVar(s, v) == IntVar(t, f(v)) && NatVar(s, v) == NatVar(t, f(v)) && WordVar(s, v) == WordVar(t, f(v))
  {}

  lemma RenameArithmetic<K(!new), L(!new)>(f: K -> L, p: K -> bool, h: Host, e: Expr<K>, s: St<K>, t: St<L>)
    requires e.Binop? || e.ShiftRight? || e.SignedShiftRight? || e.ShiftLeft?
    requires ExprUses(p, e) && SameState(f, p, s, t)
    ensures RenamedValue(f, p, EvalExpr(h, e, s), EvalExpr(h, MapExpr(f, e), t), s, t)
  {
    hide WordVar; hide NatVar; hide IntVar;
    match e
    case Binop(_, _, x, y) => SameVar(f, p, s, t, x); SameVar(f, p, s, t, y);
    case ShiftRight(x, y) => SameVar(f, p, s, t, x); SameVar(f, p, s, t, y);
    case SignedShiftRight(x, y) => SameVar(f, p, s, t, x); SameVar(f, p, s, t, y);
    case ShiftLeft(x, y) => SameVar(f, p, s, t, x); SameVar(f, p, s, t, y);
  }

  lemma RenameAccess<K(!new), L(!new)>(f: K -> L, p: K -> bool, h: Host, e: Expr<K>, s: St<K>, t: St<L>)
    requires e.Name? || e.Cond? || e.EqZero? || e.Ceil32Of? || e.ReadWord? || e.GetStorage? || e.Keccak?
    requires ExprUses(p, e) && SameState(f, p, s, t)
    ensures RenamedValue(f, p, EvalExpr(h, e, s), EvalExpr(h, MapExpr(f, e), t), s, t)
  {
    hide WordCache.Flat, WordCache.ReadWord, WordCache.ReadBytes, WordCache.WriteWord, WordCache.Write, WordCache.Extend, Touch;
    hide WordVar; hide NatVar; hide IntVar;
    match e
    case Name(x) => SameVar(f, p, s, t, x);
    case Cond(x, c, y) => SameVar(f, p, s, t, x); SameVar(f, p, s, t, c); SameVar(f, p, s, t, y);
    case EqZero(x) => SameVar(f, p, s, t, x);
    case Ceil32Of(x) => SameVar(f, p, s, t, x);
    case ReadWord(x) => SameVar(f, p, s, t, x);
    case GetStorage(x) => SameVar(f, p, s, t, x);
    case Keccak(x) => SameVar(f, p, s, t, x);
  }

  lemma {:induction false} RenameExpr<K(!new), L(!new)>(f: K -> L, p: K -> bool, h: Host, e: Expr<K>, s: St<K>, t: St<L>)
    requires ExprUses(p, e) && SameState(f, p, s, t)
    ensures RenamedValue(f, p, EvalExpr(h, e, s), EvalExpr(h, MapExpr(f, e), t), s, t)
  {
    hide WordVar; hide NatVar; hide IntVar;
    match e
    case ToIntCall(e) => RenameExpr(f, p, h, e, s, t);
    case ToBytesCall(e) => RenameExpr(f, p, h, e, s, t);
    case Paren(e) => RenameExpr(f, p, h, e, s, t);
    case Lit(_) =>
    case MsgSender =>
    case MsgValue =>
    case LenMsgData =>
    case StackPop =>
    case Binop(_, _, _, _) => RenameArithmetic(f, p, h, e, s, t);
    case ShiftRight(_, _) => RenameArithmetic(f, p, h, e, s, t);
    case SignedShiftRight(_, _) => RenameArithmetic(f, p, h, e, s, t);
    case ShiftLeft(_, _) => RenameArithmetic(f, p, h, e, s, t);
    case _ => RenameAccess(f, p, h, e, s, t);
  }

  lemma {:induction false} RenameParts<K(!new), L(!new)>(f: K -> L, p: K -> bool, parts: seq<K>, s: St<K>, t: St<L>)
    requires AllIn(p, parts) && SameState(f, p, s, t)
    ensures JoinParts(s, parts) == JoinParts(t, MapAll(f, parts))
  {
    if parts != [] {
      assert MapAll(f, parts)[1..] == MapAll(f, parts[1..]);
      RenameParts(f, p, parts[1..], s, t);
    }
  }

  lemma {:induction false} RenameBind<K(!new), L(!new)>(f: K -> L, p: K -> bool, ps: seq<K>, vals: seq<Raw>)
    requires InjectiveOn(f, p) && AllIn(p, ps) && |ps| == |vals|
    ensures SameLocals(f, p, BindLocals(ps, vals), BindLocals(MapAll(f, ps), vals))
  {
    if ps == [] {
      assert MapAll(f, ps) == [];
    } else {
      assert MapAll(f, ps)[1..] == MapAll(f, ps[1..]);
      RenameBind(f, p, ps[1..], vals[1..]);
      SetLocal(f, p, BindLocals(ps[1..], vals[1..]), BindLocals(MapAll(f, ps[1..]), vals[1..]), ps[0], vals[0]);
    }
  }

  lemma {:induction false} RenameFind<K, L>(f: K -> L, p: K -> bool, fs: seq<TFunc<K>>, l: string)
    requires FuncsUse(p, fs)
    ensures match (Find(fs, l), Find(MapFuncs(f, fs), l))
            case (Missing, Missing) => true
            case (Found(a), Found(b)) =>
              && b.params == MapAll(f, a.params) && b.code == MapCode(f, a.code)
              && AllIn(p, a.params) && CodeUses(p, a.code)
            case _ => false
  {
    if fs != [] {
      assert MapFuncs(f, fs)[1..] == MapFuncs(f, fs[1..]);
      RenameFind(f, p, fs[1..], l);
    }
  }

  lemma {:induction false} RenameExec<K(!new), L(!new)>(f: K -> L, p: K -> bool, h: Host, fs: seq<TFunc<K>>, fuel: nat, ss: seq<Stmt<K>>,
                                                        s: St<K>, t: St<L>)
    requires InjectiveOn(f, p) && FuncsUse(p, fs) && CodeUses(p, ss) && SameState(f, p, s, t)
    ensures SameResult(f, p, Exec(h, fs, fuel, ss, s), Exec(h, MapFuncs(f, fs), fuel, MapCode(f, ss), t))
    decreases fuel, ss, 1, 0
  {
    hide Step; hide Uses;
    if ss != [] {
      var gs := MapFuncs(f, fs);
      var ms := MapCode(f, ss);
      assert ms[0] == MapStmt(f, ss[0]) && ms[1..] == MapCode(f, ss[1..]);
      RenameStep(f, p, h, fs, fuel, ss[0], s, t);
      var a, b := Step(h, fs, fuel, ss[0], s), Step(h, gs, fuel, ms[0], t);
      if a.ctl == Done { RenameExec(f, p, h, fs, fuel, ss[1..], a.st, b.st); }
    }
  }

  lemma {:induction false} RenameStep<K(!new), L(!new)>(f: K -> L, p: K -> bool, h: Host, fs: seq<TFunc<K>>, fuel: nat, s: Stmt<K>,
                                                        st: St<K>, tt: St<L>)
    requires InjectiveOn(f, p) && FuncsUse(p, fs) && Uses(p, s) && SameState(f, p, st, tt)
    ensures SameResult(f, p, Step(h, fs, fuel, s, st), Step(h, MapFuncs(f, fs), fuel, MapStmt(f, s), tt))
    decreases fuel, s, 1, 0
  {
    hide WordCache.Flat, WordCache.ReadWord, WordCache.ReadBytes, WordCache.WriteWord, WordCache.Write, WordCache.Extend, Touch;
    hide EvalExpr; hide MapExpr; hide Exec; hide For; hide Invoke; hide MapCode;
    match s
    case IfStmt(_, _, _) => RenameBranch(f, p, h, fs, fuel, s, st, tt);
    case ForRange(i, a, n, b) => RenameLoop(f, p, h, fs, fuel, i, a, n, b, st, tt);
    case CallFn(l, vs) => if fuel > 0 { RenameInvoke(f, p, h, fs, fuel - 1, l, vs, st, tt); }
    case ReturnCall(l, vs) => if fuel > 0 { RenameInvoke(f, p, h, fs, fuel - 1, l, vs, st, tt); }
    case _ => RenameSimple(f, p, h, fs, fuel, s, st, tt);
  }

  /** Statements that assign a local. */
  lemma RenameAssign<K(!new), L(!new)>(f: K -> L, p: K -> bool, h: Host, fs: seq<TFunc<K>>, fuel: nat, s: Stmt<K>, st: St<K>, tt: St<L>)
    requires InjectiveOn(f, p) && Uses(p, s) && SameState(f, p, st, tt)
    requires s.Assign? || s.LoadCalldata? || s.CutCalldata? || s.Preimage?
    ensures SameResult(f, p, Step(h, fs, fuel, s, st), Step(h, MapFuncs(f, fs), fuel, MapStmt(f, s), tt))
  {
    hide WordCache.Flat, WordCache.ReadWord, WordCache.ReadBytes, WordCache.WriteWord, WordCache.Write, WordCache.Extend, Touch;
    hide EvalExpr; hide MapExpr; hide NatVar;
    match s
    case Assign(v, e) =>
      RenameExpr(f, p, h, e, st, tt);
      var a := EvalExpr(h, e, st);
      if a.EOk? { SetLocal(f, p, st.locals, tt.locals, v, a.val); }
    case LoadCalldata(d, q) =>
      SameVar(f, p, st, tt, q);
      var n := NatVar(st, q);
      if n.IOk? { SetLocal(f, p, st.locals, tt.locals, d, B(CalldataWord(h.data, n.n))); }
    case CutCalldata(d, q, n) =>
      SameVar(f, p, st, tt, q);
      SameVar(f, p, st, tt, n);
      var x, y := NatVar(st, q), NatVar(st, n);
      if x.IOk? && y.IOk? { SetLocal(f, p, st.locals, tt.locals, d, B(CalldataBytes(h.data, x.n, y.n))); }
    case Preimage(d, qs) =>
      RenameParts(f, p, qs, st, tt);
      var b := JoinParts(st, qs);
      if b.POk? { SetLocal(f, p, st.locals, tt.locals, d, B(b.bs)); }
  }

  /** Statements that use memory at an address in a local. */
  lemma RenameMemory<K(!new), L(!new)>(f: K -> L, p: K -> bool, h: Host, fs: seq<TFunc<K>>, fuel: nat, s: Stmt<K>, st: St<K>, tt: St<L>)
    requires Uses(p, s) && SameState(f, p, st, tt)
    requires s.ExtendMem? || s.ExtendBy? || s.WriteMem? || s.StoreWord? || s.RaiseRevert? || s.RaiseReturn?
    ensures SameResult(f, p, Step(h, fs, fuel, s, st), Step(h, MapFuncs(f, fs), fuel, MapStmt(f, s), tt))
  {
    hide WordCache.Flat, WordCache.ReadWord, WordCache.ReadBytes, WordCache.WriteWord, WordCache.Write, WordCache.Extend, Touch;
    hide IntVar; hide NatVar; hide WordVar;
    match s
    case ExtendMem(x) => SameVar(f, p, st, tt, x);
    case ExtendBy(x, y) => SameVar(f, p, st, tt, x); SameVar(f, p, st, tt, y);
    case WriteMem(x, y, z) => SameVar(f, p, st, tt, x); SameVar(f, p, st, tt, y); SameVar(f, p, st, tt, z);
    case StoreWord(x, y) => SameVar(f, p, st, tt, x); SameVar(f, p, st, tt, y);
    case RaiseRevert(x, y) => SameVar(f, p, st, tt, x); SameVar(f, p, st, tt, y);
    case RaiseReturn(x, y) => SameVar(f, p, st, tt, x); SameVar(f, p, st, tt, y);
  }

  /** Other statements that only read locals. */
  lemma RenameEffect<K(!new), L(!new)>(f: K -> L, p: K -> bool, h: Host, fs: seq<TFunc<K>>, fuel: nat, s: Stmt<K>, st: St<K>, tt: St<L>)
    requires Uses(p, s) && SameState(f, p, st, tt)
    requires s.SetStorage? || s.RaiseUnless? || s.PushInt? || s.AssertAtMost?
    ensures SameResult(f, p, Step(h, fs, fuel, s, st), Step(h, MapFuncs(f, fs), fuel, MapStmt(f, s), tt))
  {
    hide WordCache.Flat, WordCache.ReadWord, WordCache.ReadBytes, WordCache.WriteWord, WordCache.Write, WordCache.Extend, Touch;
    hide IntVar; hide NatVar; hide WordVar;
    match s
    case SetStorage(x, y) => SameVar(f, p, st, tt, x); SameVar(f, p, st, tt, y);
    case RaiseUnless(x) => SameVar(f, p, st, tt, x);
    case PushInt(x) => SameVar(f, p, st, tt, x);
    case AssertAtMost(x, _) => SameVar(f, p, st, tt, x);
  }

  /** Statements without locals. */
  lemma RenamePlain<K(!new), L(!new)>(f: K -> L, p: K -> bool, h: Host, fs: seq<TFunc<K>>, fuel: nat, s: Stmt<K>, st: St<K>, tt: St<L>)
    requires SameState(f, p, st, tt)
    requires s.PassStmt? || s.BreakStmt? || s.ContinueStmt? || s.ReturnNone? || s.RaiseIfStatic? || s.RaiseStop? || s.CallOpcode?
    ensures SameResult(f, p, Step(h, fs, fuel, s, st), Step(h, MapFuncs(f, fs), fuel, MapStmt(f, s), tt))
  {
    hide WordCache.Flat, WordCache.ReadWord, WordCache.ReadBytes, WordCache.WriteWord, WordCache.Write, WordCache.Extend, Touch;
  }

  lemma RenameSimple<K(!new), L(!new)>(f: K -> L, p: K -> bool, h: Host, fs: seq<TFunc<K>>, fuel: nat, s: Stmt<K>, st: St<K>, tt: St<L>)
    requires InjectiveOn(f, p) && Uses(p, s) && SameState(f, p, st, tt)
    requires !s.IfStmt? && !s.ForRange? && !s.CallFn? && !s.ReturnCall?
    ensures SameResult(f, p, Step(h, fs, fuel, s, st), Step(h, MapFuncs(f, fs), fuel, MapStmt(f, s), tt))
  {
    hide EvalExpr, MapExpr, Step;
    if s.Assign? || s.LoadCalldata? || s.CutCalldata? || s.Preimage? {
      RenameAssign(f, p, h, fs, fuel, s, st, tt);
    } else if s.ExprStmt? {
      RenameExpr(f, p, h, s.e, st, tt);
      ExprStmtStep(h, fs, fuel, s.e, st);
      ExprStmtStep(h, MapFuncs(f, fs), fuel, MapExpr(f, s.e), tt);
    } else if s.ExtendMem? || s.ExtendBy? || s.WriteMem? || s.StoreWord? || s.RaiseRevert? || s.RaiseReturn? {
      RenameMemory(f, p, h, fs, fuel, s, st, tt);
    } else if s.SetStorage? || s.RaiseUnless? || s.PushInt? || s.AssertAtMost? {
      RenameEffect(f, p, h, fs, fuel, s, st, tt);
    } else {
      RenamePlain(f, p, h, fs, fuel, s, st, tt);
    }
  }

  lemma ExprStmtStep<V>(h: Host, fs: seq<TFunc<V>>, fuel: nat, e: Expr<V>, st: St<V>)
    ensures Step(h, fs, fuel, ExprStmt(e), st) ==
      var r := EvalExpr(h, e, st); if r.EErr? then TRes(Fault(r.kind), st) else TRes(Done, r.st)
  {
    hide EvalExpr;
  }

  lemma {:induction false} RenameBranch<K(!new), L(!new)>(f: K -> L, p: K -> bool, h: Host, fs: seq<TFunc<K>>, fuel: nat,
      s: Stmt<K>, st: St<K>, tt: St<L>)
    requires InjectiveOn(f, p) && FuncsUse(p, fs) && s.IfStmt? && Uses(p, s) && SameState(f, p, st, tt)
    ensures SameResult(f, p, Step(h, fs, fuel, s, st), Step(h, MapFuncs(f, fs), fuel, MapStmt(f, s), tt))
    decreases fuel, s, 0, 0
  {
    hide Exec; hide CodeUses; hide MapCode;
    if s.test in st.locals {
      RenameExec(f, p, h, fs, fuel, if Truthy(st.locals[s.test]) then s.thn else s.els, st, tt);
    }
  }

  lemma {:induction false} RenameLoop<K(!new), L(!new)>(f: K -> L, p: K -> bool, h: Host, fs: seq<TFunc<K>>, fuel: nat,
      i: K, a: K, n: K, body: seq<Stmt<K>>, st: St<K>, tt: St<L>)
    requires InjectiveOn(f, p) && FuncsUse(p, fs) && p(i) && p(a) && p(n) && CodeUses(p, body) && SameState(f, p, st, tt)
    ensures var s := ForRange(i, a, n, body);
            SameResult(f, p, Step(h, fs, fuel, s, st), Step(h, MapFuncs(f, fs), fuel, MapStmt(f, s), tt))
    decreases fuel, body, 3, 0
  {
    hide Exec; hide For; hide CodeUses; hide MapCode;
    var x, r := IntVar(st, a), IntVar(st, n);
    if x.IOk? && r.IOk? && r.n >= 0 { RenameFor(f, p, h, fs, fuel, i, x.n, r.n, body, st, tt); }
  }

  lemma {:induction false} RenameFor<K(!new), L(!new)>(f: K -> L, p: K -> bool, h: Host, fs: seq<TFunc<K>>, fuel: nat,
      i: K, cur: int, n: nat, body: seq<Stmt<K>>, st: St<K>, tt: St<L>)
    requires InjectiveOn(f, p) && FuncsUse(p, fs) && p(i) && CodeUses(p, body) && SameState(f, p, st, tt)
    ensures SameResult(f, p, For(h, fs, fuel, i, cur, n, body, st), For(h, MapFuncs(f, fs), fuel, f(i), cur, n, MapCode(f, body), tt))
    decreases fuel, body, 2, n
  {
    hide Exec; hide CodeUses; hide MapCode;
    if n != 0 {
      SetLocal(f, p, st.locals, tt.locals, i, I(cur));
      var s1, t1 := st.(locals := st.locals[i := I(cur)]), tt.(locals := tt.locals[f(i) := I(cur)]);
      RenameExec(f, p, h, fs, fuel, body, s1, t1);
      var a, b := Exec(h, fs, fuel, body, s1), Exec(h, MapFuncs(f, fs), fuel, MapCode(f, body), t1);
      if a.ctl == Done || a.ctl == Cnt { RenameFor(f, p, h, fs, fuel, i, cur + 1, n - 1, body, a.st, b.st); }
    }
  }

  lemma SameReads<K(!new), L(!new)>(f: K -> L, p: K -> bool, vs: seq<K>, st: St<K>, tt: St<L>)
    requires AllIn(p, vs) && SameState(f, p, st, tt)
    ensures var ws := MapAll(f, vs);
      && ((forall v :: v in vs ==> v in st.locals) <==> (forall w :: w in ws ==> w in tt.locals))
      && ((forall v :: v in vs ==> v in st.locals) ==> Reads(st, vs) == Reads(tt, ws))
  {
    var ws := MapAll(f, vs);
    if forall v :: v in vs ==> v in st.locals {
      forall w | w in ws ensures w in tt.locals { var j :| 0 <= j < |ws| && ws[j] == w; assert vs[j] in vs; }
      forall j | 0 <= j < |vs| ensures st.locals[vs[j]] == tt.locals[ws[j]] { assert vs[j] in vs && p(vs[j]); }
    }
    if forall w :: w in ws ==> w in tt.locals {
      forall v | v in vs ensures v in st.locals { var j :| 0 <= j < |vs| && vs[j] == v; assert ws[j] in ws; }
    }
  }

  lemma {:induction false} RenameInvoke<K(!new), L(!new)>(f: K -> L, p: K -> bool, h: Host, fs: seq<TFunc<K>>, fuel: nat, l: string, vs: seq<K>,
                                                          st: St<K>, tt: St<L>)
    requires InjectiveOn(f, p) && FuncsUse(p, fs) && AllIn(p, vs) && SameState(f, p, st, tt)
    ensures SameResult(f, p, Invoke(h, fs, fuel, l, vs, st), Invoke(h, MapFuncs(f, fs), fuel, l, MapAll(f, vs), tt))
    decreases fuel
  {
    hide Exec; hide CodeUses; hide MapCode;
    var ws := MapAll(f, vs);
    SameReads(f, p, vs, st, tt);
    RenameFind(f, p, fs, l);
    if (forall v :: v in vs ==> v in st.locals) && Find(fs, l).Found? {
      var g := Find(fs, l).f;
      if |g.params| == |vs| {
        RenameBind(f, p, g.params, Reads(st, vs));
        RenameExec(f, p, h, fs, fuel, g.code, St(BindLocals(g.params, Reads(st, vs)), st.stack, st.vm),
                   St(BindLocals(MapAll(f, g.params), Reads(tt, ws)), tt.stack, tt.vm));
      }
    }
  }
}
