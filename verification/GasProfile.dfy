/** Gas per program counter (`boa/vm/gas_meters.py`) and its way into the line profile
    (`boa/profiling.py`, `boa/vm/py_evm.py`). */
module GasProfile {
  import opened Wrappers

  // ---- sums over dicts ------------------------------------------------------------------------

  datatype Datum = Datum(gasUsed: int, gasRefunded: int, childGasUsed: int, childGasRefunded: int) {
    /** `merge`. */
    function Plus(d: Datum): Datum {
      Datum(gasUsed + d.gasUsed, gasRefunded + d.gasRefunded,
            childGasUsed + d.childGasUsed, childGasRefunded + d.childGasRefunded)
    }

    /** `adjust_child`: move the child's gas out of this pc's own account. */
    function AdjustChild(c: Child): Datum {
      Datum(gasUsed - c.gasUsed, gasRefunded - c.gasRefund, childGasUsed + c.gasUsed, childGasRefunded + c.gasRefund)
    }
  }

  const ZERO := Datum(0, 0, 0, 0)

  datatype Child = Child(gasUsed: int, gasRefund: int)

  ghost function Sum<K(!new)>(m: map<K, Datum>): Datum
    decreases |m|
  {
    if m == map[] then ZERO
    else
      var k :| k in m;
      assert |m - {k}| < |m| by { Smaller(m, k); }
      m[k].Plus(Sum(m - {k}))
  }

  lemma Smaller<K, V>(m: map<K, V>, k: K)
    requires k in m
    ensures |m - {k}| < |m|
  {
    assert (m - {k}).Keys == m.Keys - {k};
    assert |m| == |m.Keys| && |m - {k}| == |(m - {k}).Keys|;
  }

  /** Any entry can be taken out first. */
  lemma {:induction false} SumRemove<K(!new)>(m: map<K, Datum>, k: K)
    requires k in m
    ensures Sum(m) == m[k].Plus(Sum(m - {k}))
    decreases |m|
  {
    var l :| l in m && Sum(m) == m[l].Plus(Sum(m - {l}));
    if l != k {
      Smaller(m, l);
      Smaller(m, k);
      SumRemove(m - {l}, k);
      SumRemove(m - {k}, l);
      var s := Sum(m - {k} - {l});
      assert m - {l} - {k} == m - {k} - {l};
      assert (m - {l})[k] == m[k] && (m - {k})[l] == m[l];
      assert Sum(m) == m[l].Plus(m[k].Plus(s));
      assert Sum(m - {k}) == m[l].Plus(s);
    }
  }

  lemma SumPut<K(!new)>(m: map<K, Datum>, k: K, d: Datum)
    ensures k !in m ==> Sum(m[k := d]) == Sum(m).Plus(d)
    ensures k in m ==> Sum(m[k := m[k].Plus(d)]) == Sum(m).Plus(d)
  {
    if k !in m {
      SumRemove(m[k := d], k);
      assert m[k := d] - {k} == m;
    } else {
      var n := m[k := m[k].Plus(d)];
      SumRemove(m, k);
      SumRemove(n, k);
      assert n - {k} == m - {k};
    }
  }

  /** A ledger as data: gas per pc. */
  function AsUsed<K>(ledger: map<K, int>): map<K, Datum> {
    map pc | pc in ledger :: Datum(ledger[pc], 0, 0, 0)
  }

  ghost function Total<K(!new)>(ledger: map<K, int>): int {
    Sum(AsUsed(ledger)).gasUsed
  }

  function Entry<K(==)>(ledger: map<K, int>, pc: K): int {
    if pc in ledger then ledger[pc] else 0
  }

  lemma TotalPut<K(!new)>(ledger: map<K, int>, pc: K, amount: int)
    ensures Total(ledger[pc := Entry(ledger, pc) + amount]) == Total(ledger) + amount
  {
    var m, n := AsUsed(ledger), AsUsed(ledger[pc := Entry(ledger, pc) + amount]);
    if pc in ledger {
      SumPut(m, pc, Datum(amount, 0, 0, 0));
      assert n == m[pc := m[pc].Plus(Datum(amount, 0, 0, 0))];
    } else {
      SumPut(m, pc, Datum(amount, 0, 0, 0));
      assert n == m[pc := Datum(amount, 0, 0, 0)];
    }
  }

  // ---- the meter ------------------------------------------------------------------------------

  class ProfilingGasMeter {
    const startGas: int
    var gasRemaining: int
    var gasRefunded: int
    var gasUsedOf: map<int, int>
    var gasRefundedOf: map<int, int>

    /** The ledgers add up to what was consumed and refunded. */
    ghost predicate Valid()
      reads this
    {
      Total(gasUsedOf) == startGas - gasRemaining && Total(gasRefundedOf) == gasRefunded
    }

    constructor (startGas: int)
      ensures Valid() && this.startGas == startGas && gasRemaining == startGas
      ensures gasUsedOf == map[] && gasRefundedOf == map[] && gasRefunded == 0
    {
      this.startGas, gasRemaining, gasRefunded := startGas, startGas, 0;
      gasUsedOf, gasRefundedOf := map[], map[];
      new;
      assert AsUsed<int>(map[]) == map[];
    }

    /** `ok` is false on OutOfGas, which leaves everything as it was. */
    method ConsumeGas(pc: int, amount: nat) returns (ok: bool)
      requires Valid()
      modifies this
      ensures Valid() && ok == (amount <= old(gasRemaining)) && gasRefundedOf == old(gasRefundedOf)
      ensures gasRemaining == if ok then old(gasRemaining) - amount else old(gasRemaining)
      ensures gasUsedOf == if ok then old(gasUsedOf)[pc := Entry(old(gasUsedOf), pc) + amount] else old(gasUsedOf)
    {
      if amount > gasRemaining {
        return false;
      }
      gasRemaining := gasRemaining - amount;
      TotalPut(gasUsedOf, pc, amount);
      gasUsedOf := gasUsedOf[pc := Entry(gasUsedOf, pc) + amount];
      return true;
    }

    method ReturnGas(pc: int, amount: int)
      requires Valid() && amount >= 0
      modifies this
      ensures Valid() && gasRemaining == old(gasRemaining) + amount && gasRefundedOf == old(gasRefundedOf)
      ensures gasUsedOf == old(gasUsedOf)[pc := Entry(old(gasUsedOf), pc) - amount]
    {
      gasRemaining := gasRemaining + amount;
      TotalPut(gasUsedOf, pc, 0 - amount);
      gasUsedOf := gasUsedOf[pc := Entry(gasUsedOf, pc) - amount];
    }

    /** Refunds may be negative (`allow_negative_refund_strategy`). */
    method RefundGas(pc: int, amount: int)
      requires Valid()
      modifies this
      ensures Valid() && gasRemaining == old(gasRemaining) && gasUsedOf == old(gasUsedOf)
      ensures gasRefunded == old(gasRefunded) + amount
      ensures gasRefundedOf == old(gasRefundedOf)[pc := Entry(old(gasRefundedOf), pc) + amount]
    {
      gasRefunded := gasRefunded + amount;
      TotalPut(gasRefundedOf, pc, amount);
      gasRefundedOf := gasRefundedOf[pc := Entry(gasRefundedOf, pc) + amount];
    }
  }

  /** The code stream of one computation, as far as program counters go. */
  class Computation {
    var programCounter: nat
    var trace: seq<int>
    var childPcs: seq<int>
    var children: seq<Child>

    constructor (startPc: nat)
      ensures programCounter == startPc && trace == [] && childPcs == [] && children == []
    {
      programCounter, trace, childPcs, children := startPc, [], [], [];
    }

    /** The pc the meter books under. */
    function MeterPc(): int
      reads this
    {
      programCounter - 1
    }

    /** Fetching an instruction: the counter is already past it while it runs. */
    method Fetch()
      modifies this`programCounter, this`trace
      ensures MeterPc() == old(programCounter) && trace == old(trace) + [old(programCounter)]
    {
      trace := trace + [programCounter];
      programCounter := programCounter + 1;
    }

    /** What a jump does before the next instruction is fetched. */
    method Jump(pc: nat)
      modifies this`programCounter
      ensures programCounter == pc
    {
      programCounter := pc;
    }

    /** A child is booked one past the pc the meter charges for the calling instruction. */
    method AddChildComputation(c: Child)
      modifies this`childPcs, this`children
      ensures children == old(children) + [c] && childPcs == old(childPcs) + [MeterPc() + 1]
    {
      children := children + [c];
      childPcs := childPcs + [programCounter];
    }
  }

  // ---- by pc ----------------------------------------------------------------------------------

  /** Own and child gas together, which moving gas to a child does not change. */
  function Gross(d: Datum): (int, int) {
    (d.gasUsed + d.childGasUsed, d.gasRefunded + d.childGasRefunded)
  }

  function ChildSum(children: seq<Child>): Child {
    if children == [] then Child(0, 0)
    else
      var rest := ChildSum(children[..|children| - 1]);
      Child(rest.gasUsed + children[|children| - 1].gasUsed, rest.gasRefund + children[|children| - 1].gasRefund)
  }

  /** The children booked under one pc. */
  function ChildrenAt(pcs: seq<int>, children: seq<Child>, pc: int): Child
    requires |pcs| == |children|
  {
    if pcs == [] then Child(0, 0)
    else
      var n := |pcs| - 1;
      var rest := ChildrenAt(pcs[..n], children[..n], pc);
      if pcs[n] == pc then Child(rest.gasUsed + children[n].gasUsed, rest.gasRefund + children[n].gasRefund) else rest
  }

  /** A pc's own gas without that of the children booked there, and theirs beside it. */
  function PcDatum(used: map<int, int>, refunded: map<int, int>, pcs: seq<int>, children: seq<Child>, pc: int): Datum
    requires |pcs| == |children|
  {
    var c := ChildrenAt(pcs, children, pc);
    Datum(Entry(used, pc) - c.gasUsed, Entry(refunded, pc) - c.gasRefund, c.gasUsed, c.gasRefund)
  }

  /** The state of the dict after `i` children: own and child gas per pc, and what it adds up to. */
  ghost predicate Booked(ret: map<int, Datum>, used: map<int, int>, refunded: map<int, int>, pcs: seq<int>, children: seq<Child>)
    requires |pcs| == |children|
  {
    && (forall pc :: pc in ret ==> ret[pc] == PcDatum(used, refunded, pcs, children, pc))
    && Gross(Sum(ret)) == (Total(used), Total(refunded))
    && Sum(ret).childGasUsed == ChildSum(children).gasUsed && Sum(ret).childGasRefunded == ChildSum(children).gasRefund
  }

  lemma BookChild(ret: map<int, Datum>, used: map<int, int>, refunded: map<int, int>, pcs: seq<int>, children: seq<Child>,
                  pc: int, c: Child)
    requires |pcs| == |children| && Booked(ret, used, refunded, pcs, children) && pc in ret
    ensures Booked(ret[pc := ret[pc].AdjustChild(c)], used, refunded, pcs + [pc], children + [c])
  {
    hide Sum, Total;
    assert (pcs + [pc])[..|pcs|] == pcs && (children + [c])[..|pcs|] == children;
    var moved := Datum(0 - c.gasUsed, 0 - c.gasRefund, c.gasUsed, c.gasRefund);
    SumPut(ret, pc, moved);
    assert ret[pc].AdjustChild(c) == ret[pc].Plus(moved);
  }

  lemma BookZero(ret: map<int, Datum>, used: map<int, int>, refunded: map<int, int>, pcs: seq<int>, children: seq<Child>, pc: int)
    requires |pcs| == |children| && Booked(ret, used, refunded, pcs, children) && pc !in ret
    requires pc !in used && pc !in refunded && pc !in pcs
    ensures Booked(ret[pc := ZERO], used, refunded, pcs, children)
  {
    hide Sum, Total;
    NoChildrenAt(pcs, children, pc);
    SumPut(ret, pc, ZERO);
  }

  /** STOP, RETURN and REVERT consume no gas: zero entries for pcs that only appear in the trace. */
  method AddTrace(used: map<int, int>, refunded: map<int, int>, pcs: seq<int>, children: seq<Child>, trace: seq<int>,
                  start: map<int, Datum>) returns (ret: map<int, Datum>)
    requires |pcs| == |children| && Booked(start, used, refunded, pcs, children)
    requires start.Keys == used.Keys + refunded.Keys && forall i :: 0 <= i < |pcs| ==> pcs[i] in start
    ensures ret.Keys == start.Keys + (set pc | pc in trace) && Booked(ret, used, refunded, pcs, children)
  {
    hide Booked, Sum, Total, ChildSum;
    ret := start;
    for i := 0 to |trace|
      invariant ret.Keys == start.Keys + (set pc | pc in trace[..i])
      invariant Booked(ret, used, refunded, pcs, children)
    {
      assert trace[..i + 1] == trace[..i] + [trace[i]];
      if trace[i] !in ret {
        BookZero(ret, used, refunded, pcs, children, trace[i]);
        ret := ret[trace[i] := ZERO];
      }
    }
    assert trace[..|trace|] == trace;
  }

  /** `by_pc`; None where a child's pc has no entry (KeyError). */
  method ByPc(used: map<int, int>, refunded: map<int, int>, pcs: seq<int>, children: seq<Child>, trace: seq<int>)
    returns (r: Option<map<int, Datum>>)
    requires |pcs| == |children|
    ensures r.Some? <==> forall i :: 0 <= i < |pcs| ==> pcs[i] in used || pcs[i] in refunded
    ensures r.Some? ==>
      r.value.Keys == used.Keys + refunded.Keys + (set pc | pc in trace)
      && Booked(r.value, used, refunded, pcs, children)
  {
    hide Booked, Sum, Total, ChildSum;
    var ret := FromUsed(used);
    ret := AddRefunds(used, refunded, ret);
    NoneBooked(ret, used, refunded);
    for i := 0 to |pcs|
      invariant ret.Keys == used.Keys + refunded.Keys
      invariant forall k :: 0 <= k < i ==> pcs[k] in ret
      invariant Booked(ret, used, refunded, pcs[..i], children[..i])
    {
      if pcs[i] !in ret {
        return None;
      }
      BookChild(ret, used, refunded, pcs[..i], children[..i], pcs[i], children[i]);
      assert pcs[..i + 1] == pcs[..i] + [pcs[i]] && children[..i + 1] == children[..i] + [children[i]];
      ret := ret[pcs[i] := ret[pcs[i]].AdjustChild(children[i])];
    }
    assert pcs[..|pcs|] == pcs && children[..|children|] == children;
    ret := AddTrace(used, refunded, pcs, children, trace, ret);
    r := Some(ret);
  }

  // ---- whole runs -----------------------------------------------------------------------------

  /** What an execution does as far as this profile sees it. */
  datatype Act = Fetch(pc: nat) | Consume(amount: nat) | Return(amount: nat) | Refund(delta: int) | Spawn(child: Child) {
    predicate Books() { Consume? || Return? || Refund? }
  }

  /** The instruction being executed after these acts. */
  function PcAfter(acts: seq<Act>): int {
    if acts == [] then -1
    else if acts[|acts| - 1].Fetch? then acts[|acts| - 1].pc
    else PcAfter(acts[..|acts| - 1])
  }

  /** The instructions that charged, returned or refunded gas. */
  function Booking(acts: seq<Act>): set<int> {
    if acts == [] then {}
    else
      var before := acts[..|acts| - 1];
      Booking(before) + if acts[|acts| - 1].Books() then {PcAfter(before)} else {}
  }

  /** The children with the instruction after the one that made each. */
  function Spawned(acts: seq<Act>): (seq<int>, seq<Child>) {
    if acts == [] then ([], [])
    else
      var before := acts[..|acts| - 1];
      var (pcs, children) := Spawned(before);
      match acts[|acts| - 1]
      case Spawn(c) => (pcs + [PcAfter(before) + 1], children + [c])
      case _ => (pcs, children)
  }

  function Fetched(acts: seq<Act>): seq<int> {
    if acts == [] then []
    else
      Fetched(acts[..|acts| - 1]) + match acts[|acts| - 1] case Fetch(pc) => [pc] case _ => []
  }

  /** Every instruction that makes a child is followed in the code by one that books gas in this run. */
  ghost predicate FollowedByBooking(acts: seq<Act>) {
    forall k :: 0 <= k < |acts| && acts[k].Spawn? ==> Following(acts, k) in Booking(acts)
  }

  function Following(acts: seq<Act>, k: nat): int
    requires k < |acts|
  {
    PcAfter(acts[..k]) + 1
  }

  lemma {:induction false} SpawnedAre(acts: seq<Act>, pcs: set<int>)
    ensures |Spawned(acts).0| == |Spawned(acts).1|
    ensures (forall i :: 0 <= i < |Spawned(acts).0| ==> Spawned(acts).0[i] in pcs)
            <==> (forall k :: 0 <= k < |acts| && acts[k].Spawn? ==> Following(acts, k) in pcs)
  {
    if acts != [] {
      var n := |acts| - 1;
      SpawnedAre(acts[..n], pcs);
      forall k | 0 <= k < n ensures Following(acts, k) == Following(acts[..n], k) {
        assert acts[..n][..k] == acts[..k];
      }
      var now, was := Spawned(acts).0, Spawned(acts[..n]).0;
      if acts[n].Spawn? {
        assert now == was + [Following(acts, n)];
        assert now[|was|] == Following(acts, n) && forall i :: 0 <= i < |was| ==> now[i] == was[i];
      }
      if forall k :: 0 <= k < |acts| && acts[k].Spawn? ==> Following(acts, k) in pcs {
        forall k | 0 <= k < n && acts[..n][k].Spawn? ensures Following(acts[..n], k) in pcs {
          assert acts[k].Spawn?;
        }
      }
      if forall i :: 0 <= i < |now| ==> now[i] in pcs {
        forall i | 0 <= i < |was| ensures was[i] in pcs { assert now[i] == was[i]; }
        forall k | 0 <= k < |acts| && acts[k].Spawn? ensures Following(acts, k) in pcs {
          if k < n { assert acts[..n][k].Spawn?; }
        }
      }
    }
  }

  lemma RunNext(acts: seq<Act>, i: nat)
    requires i < |acts|
    ensures var before, act := acts[..i], acts[i];
      && PcAfter(acts[..i + 1]) == (if act.Fetch? then act.pc else PcAfter(before))
      && Booking(acts[..i + 1]) == Booking(before) + (if act.Books() then {PcAfter(before)} else {})
      && Spawned(acts[..i + 1]).0 == Spawned(before).0 + (if act.Spawn? then [PcAfter(before) + 1] else [])
      && Spawned(acts[..i + 1]).1 == Spawned(before).1 + (if act.Spawn? then [act.child] else [])
      && Fetched(acts[..i + 1]) == Fetched(before) + (if act.Fetch? then [act.pc] else [])
  {
    var now := acts[..i + 1];
    assert now[..i] == acts[..i];
  }

  /** The run of a computation; it ends early, after `done` acts, where the gas does not suffice. */
  method Execute(meter: ProfilingGasMeter, computation: Computation, acts: seq<Act>) returns (done: nat)
    requires meter.Valid() && meter.gasUsedOf == map[] && meter.gasRefundedOf == map[]
    requires computation.programCounter == 0 && computation.trace == [] && computation.childPcs == [] && computation.children == []
    modifies meter, computation
    ensures meter.Valid() && done <= |acts| && (done < |acts| ==> acts[done].Consume? && acts[done].amount > meter.gasRemaining)
    ensures meter.gasUsedOf.Keys + meter.gasRefundedOf.Keys == Booking(acts[..done])
    ensures (computation.childPcs, computation.children) == Spawned(acts[..done]) && computation.trace == Fetched(acts[..done])
  {
    hide Booking, Spawned, Fetched, PcAfter, Total;
    assert Booking([]) == {} && Spawned([]) == ([], []) && Fetched([]) == [] && PcAfter([]) == -1 by {
      Empty();
    }
    assert acts[..0] == [];
    for i := 0 to |acts|
      invariant meter.Valid() && computation.MeterPc() == PcAfter(acts[..i])
      invariant meter.gasUsedOf.Keys + meter.gasRefundedOf.Keys == Booking(acts[..i])
      invariant computation.childPcs == Spawned(acts[..i]).0 && computation.children == Spawned(acts[..i]).1
      invariant computation.trace == Fetched(acts[..i])
    {
      RunNext(acts, i);
      match acts[i]
      case Fetch(pc) =>
        computation.Jump(pc);
        computation.Fetch();
      case Consume(amount) =>
        var ok := meter.ConsumeGas(computation.MeterPc(), amount);
        if !ok { return i; }
      case Return(amount) => meter.ReturnGas(computation.MeterPc(), amount);
      case Refund(delta) => meter.RefundGas(computation.MeterPc(), delta);
      case Spawn(child) => computation.AddChildComputation(child);
    }
    assert acts[..|acts|] == acts;
    return |acts|;
  }

  lemma Empty()
    ensures Booking([]) == {} && Spawned([]) == ([], []) && Fetched([]) == [] && PcAfter([]) == -1
  {}

  /** The profile of a whole run: it raises exactly when the instruction after one that made a child books
      no gas in the run, as a STOP, RETURN or REVERT there does. */
  method RunByPc(startGas: int, acts: seq<Act>) returns (done: nat, r: Option<map<int, Datum>>)
    ensures done <= |acts| && (done < |acts| ==> acts[done].Consume?)
    ensures (forall k :: 0 <= k < |acts| ==> !acts[k].Consume?) ==> done == |acts|
    ensures r.Some? <==> FollowedByBooking(acts[..done])
    ensures r.Some? ==> r.value.Keys == Booking(acts[..done]) + (set pc | pc in Fetched(acts[..done]))
  {
    hide Booking, Spawned, Fetched, PcAfter, Following, Booked;
    var meter := new ProfilingGasMeter(startGas);
    var computation := new Computation(0);
    done := Execute(meter, computation, acts);
    SpawnedAre(acts[..done], Booking(acts[..done]));
    r := ByPc(meter.gasUsedOf, meter.gasRefundedOf, computation.childPcs, computation.children, computation.trace);
  }

  /** A call, part of its gas coming back, and a STOP right after it: the run has no profile. */
  method CallThenStop(startGas: int, pc: nat, amount: nat, child: Child, back: nat) returns (r: Option<map<int, Datum>>)
    requires amount <= startGas
    ensures r == None
  {
    var meter := new ProfilingGasMeter(startGas);
    var computation := new Computation(0);
    computation.Jump(pc);
    computation.Fetch();
    var ok := meter.ConsumeGas(computation.MeterPc(), amount);
    computation.AddChildComputation(child);
    meter.ReturnGas(computation.MeterPc(), back);
    computation.Fetch();
    assert computation.childPcs[0] == pc + 1;
    r := ByPc(meter.gasUsedOf, meter.gasRefundedOf, computation.childPcs, computation.children, computation.trace);
  }

  lemma NoneBooked(ret: map<int, Datum>, used: map<int, int>, refunded: map<int, int>)
    requires forall pc :: pc in ret ==> ret[pc] == Datum(Entry(used, pc), Entry(refunded, pc), 0, 0)
    requires Sum(ret) == Datum(Total(used), Total(refunded), 0, 0)
    ensures Booked(ret, used, refunded, [], [])
  {}

  method FromUsed<K(==)>(used: map<K, int>) returns (ret: map<K, Datum>)
    ensures ret == AsUsed(used)
  {
    ret := map[];
    var rest := used.Keys;
    while rest != {}
      invariant rest <= used.Keys && ret == map pc | pc in used.Keys - rest :: Datum(used[pc], 0, 0, 0)
      decreases rest
    {
      var pc :| pc in rest;
      ret := ret[pc := Datum(used[pc], 0, 0, 0)];
      rest := rest - {pc};
    }
  }

  function Only<K(==)>(ledger: map<K, int>, pcs: set<K>): map<K, int> {
    map pc | pc in ledger && pc in pcs :: ledger[pc]
  }

  lemma OnlyPut<K(!new)>(ledger: map<K, int>, done: set<K>, pc: K)
    requires pc in ledger && pc !in done
    ensures Total(Only(ledger, done + {pc})) == Total(Only(ledger, done)) + ledger[pc]
  {
    var m := Only(ledger, done);
    TotalPut(m, pc, ledger[pc]);
    assert Only(ledger, done + {pc}) == m[pc := Entry(m, pc) + ledger[pc]];
  }

  lemma OnlyNone<K(!new)>(ledger: map<K, int>)
    ensures Total(Only(ledger, {})) == 0
  {
    assert Only(ledger, {}) == map[] && AsUsed<K>(map[]) == map[];
  }

  method AddRefunds<K(==, !new)>(used: map<K, int>, refunded: map<K, int>, start: map<K, Datum>) returns (ret: map<K, Datum>)
    requires start == AsUsed(used)
    ensures ret.Keys == used.Keys + refunded.Keys
    ensures forall pc :: pc in ret ==> ret[pc] == Datum(Entry(used, pc), Entry(refunded, pc), 0, 0)
    ensures Sum(ret) == Datum(Total(used), Total(refunded), 0, 0)
  {
    hide Sum, Total;
    ret := start;
    var rest, done := refunded.Keys, {};
    OnlyUsed(used);
    OnlyNone(refunded);
    while rest != {}
      invariant done + rest == refunded.Keys && done * rest == {} && ret.Keys == used.Keys + done
      invariant forall pc :: pc in ret ==> ret[pc] == Datum(Entry(used, pc), if pc in done then Entry(refunded, pc) else 0, 0, 0)
      invariant Sum(ret) == Datum(Total(used), Total(Only(refunded, done)), 0, 0)
      decreases rest
    {
      var pc :| pc in rest;
      OnlyPut(refunded, done, pc);
      SumPut(ret, pc, Datum(0, refunded[pc], 0, 0));
      ret := ret[pc := (if pc in ret then ret[pc] else ZERO).Plus(Datum(0, refunded[pc], 0, 0))];
      rest, done := rest - {pc}, done + {pc};
    }
    assert Only(refunded, done) == refunded;
  }

  lemma {:induction false} OnlyUsed<K(!new)>(used: map<K, int>)
    ensures Sum(AsUsed(used)) == Datum(Total(used), 0, 0, 0)
    decreases |used|
  {
    if used != map[] {
      var pc :| pc in used;
      Smaller(used, pc);
      SumRemove(AsUsed(used), pc);
      assert AsUsed(used) - {pc} == AsUsed(used - {pc});
      OnlyUsed(used - {pc});
    } else {
      assert AsUsed(used) == map[];
    }
  }

  lemma {:induction false} NoChildrenAt(pcs: seq<int>, children: seq<Child>, pc: int)
    requires |pcs| == |children| && pc !in pcs
    ensures ChildrenAt(pcs, children, pc) == Child(0, 0)
  {
    if pcs != [] { NoChildrenAt(pcs[..|pcs| - 1], children[..|pcs| - 1], pc); }
  }

  // ---- by line --------------------------------------------------------------------------------

  datatype Line = Line(path: string, lineno: nat)

  /** The pcs from the first mapped one on. */
  function Charged(trace: seq<int>, sourceMap: map<int, Line>): (r: set<int>)
    ensures forall pc :: pc in r ==> pc in trace
  {
    if trace == [] then {}
    else
      var n := |trace| - 1;
      var before := Charged(trace[..n], sourceMap);
      if before != {} || trace[n] in sourceMap then before + {trace[n]} else {}
  }

  lemma {:induction false} SomeCharged(trace: seq<int>, sourceMap: map<int, Line>)
    ensures Charged(trace, sourceMap) != {} <==> exists i :: 0 <= i < |trace| && trace[i] in sourceMap
  {
    if trace != [] {
      var n := |trace| - 1;
      SomeCharged(trace[..n], sourceMap);
      assert Charged(trace[..n], sourceMap) != {} || trace[n] in sourceMap ==> trace[n] in Charged(trace, sourceMap);
      if i :| 0 <= i < n && trace[..n][i] in sourceMap { assert trace[i] in sourceMap; }
      if i :| 0 <= i < n && trace[i] in sourceMap { assert trace[..n][i] in sourceMap; }
    }
  }

  /** An occurrence of `pc` at `j` that has a mapped pc at or before it. */
  ghost predicate LateAt(trace: seq<int>, sourceMap: map<int, Line>, pc: int, j: nat)
    requires j < |trace|
  {
    trace[j] == pc && exists i :: 0 <= i <= j && trace[i] in sourceMap
  }

  /** In other words: some pc is mapped at or before an occurrence of it. */
  lemma {:induction false} ChargedIff(trace: seq<int>, sourceMap: map<int, Line>, pc: int)
    ensures pc in Charged(trace, sourceMap) <==> exists j :: 0 <= j < |trace| && LateAt(trace, sourceMap, pc, j)
  {
    if trace != [] {
      var n := |trace| - 1;
      ChargedIff(trace[..n], sourceMap, pc);
      SomeCharged(trace, sourceMap);
      forall j | 0 <= j < n ensures LateAt(trace, sourceMap, pc, j) <==> LateAt(trace[..n], sourceMap, pc, j) {
        LatePrefix(trace, sourceMap, pc, j, n);
      }
      assert LateAt(trace, sourceMap, pc, n) <==> trace[n] == pc && Charged(trace, sourceMap) != {};
      if j :| 0 <= j < n && LateAt(trace[..n], sourceMap, pc, j) { assert LateAt(trace, sourceMap, pc, j); }
      if j :| 0 <= j < n && LateAt(trace, sourceMap, pc, j) { assert LateAt(trace[..n], sourceMap, pc, j); }
    }
  }

  lemma LatePrefix(trace: seq<int>, sourceMap: map<int, Line>, pc: int, j: nat, n: nat)
    requires j < n <= |trace|
    ensures LateAt(trace, sourceMap, pc, j) <==> LateAt(trace[..n], sourceMap, pc, j)
  {
    assert forall i :: 0 <= i <= j ==> trace[..n][i] == trace[i];
  }

  function Restrict(byPc: map<int, Datum>, pcs: set<int>): map<int, Datum> {
    map pc | pc in byPc && pc in pcs :: byPc[pc]
  }

  function At<K(==)>(m: map<K, Datum>, k: K): Datum {
    if k in m then m[k] else ZERO
  }

  /** The line the next newly charged pc goes to, once these have been seen. */
  function Node(trace: seq<int>, sourceMap: map<int, Line>): Option<Line> {
    if trace == [] then None
    else
      var n := |trace| - 1;
      if trace[n] in sourceMap && trace[n] !in Charged(trace[..n], sourceMap) then Some(sourceMap[trace[n]])
      else Node(trace[..n], sourceMap)
  }

  /** The line each charged pc goes to. */
  function Attributed(trace: seq<int>, sourceMap: map<int, Line>): (r: map<int, Line>) {
    if trace == [] then map[]
    else
      var n := |trace| - 1;
      var before := Attributed(trace[..n], sourceMap);
      match Node(trace, sourceMap)
      case Some(line) => if trace[n] in before then before else before[trace[n] := line]
      case None => before
  }

  lemma {:induction false} AttributedCharged(trace: seq<int>, sourceMap: map<int, Line>)
    ensures Attributed(trace, sourceMap).Keys == Charged(trace, sourceMap)
    ensures Node(trace, sourceMap).Some? <==> Charged(trace, sourceMap) != {}
  {
    if trace != [] {
      AttributedCharged(trace[..|trace| - 1], sourceMap);
    }
  }

  /** A mapped pc met here for the first time. */
  predicate FirstMapped(trace: seq<int>, sourceMap: map<int, Line>, i: nat)
    requires i < |trace|
  {
    trace[i] in sourceMap && trace[i] !in trace[..i]
  }

  /** The last mapped pc met for the first time in this part of the trace has this line. */
  ghost predicate LastNew(trace: seq<int>, sourceMap: map<int, Line>, line: Line) {
    exists i :: 0 <= i < |trace| && FirstMapped(trace, sourceMap, i) && sourceMap[trace[i]] == line
      && forall k :: i < k < |trace| ==> !FirstMapped(trace, sourceMap, k)
  }

  lemma {:induction false} MappedCharged(trace: seq<int>, sourceMap: map<int, Line>, pc: int)
    requires pc in sourceMap
    ensures pc in Charged(trace, sourceMap) <==> pc in trace
  {
    if trace != [] {
      MappedCharged(trace[..|trace| - 1], sourceMap, pc);
      assert trace == trace[..|trace| - 1] + [trace[|trace| - 1]];
    }
  }

  lemma LastNewNext(trace: seq<int>, sourceMap: map<int, Line>, line: Line)
    requires trace != [] && !FirstMapped(trace, sourceMap, |trace| - 1)
    ensures LastNew(trace, sourceMap, line) <==> LastNew(trace[..|trace| - 1], sourceMap, line)
  {
    var n := |trace| - 1;
    var before := trace[..n];
    forall k | 0 <= k < n ensures FirstMapped(trace, sourceMap, k) <==> FirstMapped(before, sourceMap, k) {
      assert before[..k] == trace[..k] && before[k] == trace[k];
    }
    if LastNew(trace, sourceMap, line) {
      var i :| 0 <= i < |trace| && FirstMapped(trace, sourceMap, i) && sourceMap[trace[i]] == line
        && forall k :: i < k < |trace| ==> !FirstMapped(trace, sourceMap, k);
      assert FirstMapped(before, sourceMap, i) && sourceMap[before[i]] == line;
    }
    if LastNew(before, sourceMap, line) {
      var i :| 0 <= i < n && FirstMapped(before, sourceMap, i) && sourceMap[before[i]] == line
        && forall k :: i < k < n ==> !FirstMapped(before, sourceMap, k);
      assert FirstMapped(trace, sourceMap, i) && sourceMap[trace[i]] == line;
    }
  }

  /** A pc seen before does not move the line, so a loop is not charged to the line it has come back to. */
  lemma {:induction false} NodeIs(trace: seq<int>, sourceMap: map<int, Line>, line: Line)
    ensures Node(trace, sourceMap) == Some(line) <==> LastNew(trace, sourceMap, line)
  {
    if trace != [] {
      var n := |trace| - 1;
      NodeIs(trace[..n], sourceMap, line);
      if trace[n] in sourceMap { MappedCharged(trace[..n], sourceMap, trace[n]); }
      if !FirstMapped(trace, sourceMap, n) { LastNewNext(trace, sourceMap, line); }
    }
  }

  /** The pc is first charged at `j`, while `line` is that of the last mapped pc that was new when it was met. */
  ghost predicate ChargedAt(trace: seq<int>, sourceMap: map<int, Line>, pc: int, line: Line, j: nat)
    requires j < |trace|
  {
    && LateAt(trace, sourceMap, pc, j) && (forall i :: 0 <= i < j ==> !LateAt(trace, sourceMap, pc, i))
    && LastNew(trace[..j + 1], sourceMap, line)
  }

  lemma ChargedAtPrefix(trace: seq<int>, sourceMap: map<int, Line>, pc: int, line: Line, j: nat, n: nat)
    requires j < n <= |trace| && ChargedAt(trace[..n], sourceMap, pc, line, j)
    ensures ChargedAt(trace, sourceMap, pc, line, j)
  {
    hide LateAt, LastNew;
    forall i | 0 <= i <= j ensures LateAt(trace, sourceMap, pc, i) <==> LateAt(trace[..n], sourceMap, pc, i) {
      LatePrefix(trace, sourceMap, pc, i, n);
    }
    assert trace[..n][..j + 1] == trace[..j + 1];
  }

  lemma ChargedLast(trace: seq<int>, sourceMap: map<int, Line>, pc: int)
    requires trace != [] && pc in Charged(trace, sourceMap) && pc !in Charged(trace[..|trace| - 1], sourceMap)
    ensures LateAt(trace, sourceMap, pc, |trace| - 1)
    ensures forall i :: 0 <= i < |trace| - 1 ==> !LateAt(trace, sourceMap, pc, i)
  {
    hide Charged, LateAt;
    var n := |trace| - 1;
    ChargedIff(trace, sourceMap, pc);
    ChargedIff(trace[..n], sourceMap, pc);
    forall i | 0 <= i < n ensures !LateAt(trace, sourceMap, pc, i) {
      LatePrefix(trace, sourceMap, pc, i, n);
    }
  }

  /** Where a charged pc goes: a mapped one to its own line; an unmapped one to the line of the last mapped
      pc that was new when it was met, up to the first occurrence of this pc that has one before it. */
  lemma {:induction false} AttributedTo(trace: seq<int>, sourceMap: map<int, Line>, pc: int)
    requires pc in Attributed(trace, sourceMap)
    ensures pc in sourceMap ==> Attributed(trace, sourceMap)[pc] == sourceMap[pc]
    ensures exists j :: 0 <= j < |trace| && ChargedAt(trace, sourceMap, pc, Attributed(trace, sourceMap)[pc], j)
  {
    hide Charged, LateAt, LastNew;
    var n := |trace| - 1;
    var before, line := trace[..n], Attributed(trace, sourceMap)[pc];
    AttributedCharged(trace, sourceMap);
    AttributedCharged(before, sourceMap);
    if pc in Attributed(before, sourceMap) {
      AttributedTo(before, sourceMap, pc);
      var j :| 0 <= j < n && ChargedAt(before, sourceMap, pc, line, j);
      ChargedAtPrefix(trace, sourceMap, pc, line, j, n);
    } else {
      ChargedLast(trace, sourceMap, pc);
      NodeIs(trace, sourceMap, line);
      assert trace[..n + 1] == trace;
      assert ChargedAt(trace, sourceMap, pc, line, n);
    }
  }

  /** The pcs that go to `line`. */
  function OnLine(lines: map<int, Line>, line: Line): set<int> {
    set pc | pc in lines && lines[pc] == line
  }

  /** What the pcs that go to a line cost together. */
  ghost function Cost(byPc: map<int, Datum>, lines: map<int, Line>, line: Line): Datum {
    Sum(Restrict(byPc, OnLine(lines, line)))
  }

  ghost predicate PerLine(ret: map<Line, Datum>, byPc: map<int, Datum>, lines: map<int, Line>) {
    forall line :: At(ret, line) == Cost(byPc, lines, line)
  }

  lemma CostNext(byPc: map<int, Datum>, lines: map<int, Line>, pc: int, own: Line, line: Line)
    requires pc in byPc && pc !in lines
    ensures Cost(byPc, lines[pc := own], line) == Cost(byPc, lines, line).Plus(if line == own then byPc[pc] else ZERO)
  {
    hide Sum, Restrict;
    if line == own {
      ChargeOne(byPc, OnLine(lines, line), pc);
      assert OnLine(lines[pc := own], line) == OnLine(lines, line) + {pc};
    } else {
      assert OnLine(lines[pc := own], line) == OnLine(lines, line);
    }
  }

  lemma AtPut<K>(m: map<K, Datum>, own: K, d: Datum, k: K)
    ensures At(m[own := At(m, own).Plus(d)], k) == if k == own then At(m, k).Plus(d) else At(m, k)
  {}

  lemma PlusZero(d: Datum)
    ensures d.Plus(ZERO) == d == ZERO.Plus(d)
  {}

  lemma PerLineNext(ret: map<Line, Datum>, byPc: map<int, Datum>, lines: map<int, Line>, pc: int, own: Line, now: map<Line, Datum>)
    requires PerLine(ret, byPc, lines) && pc in byPc && pc !in lines
    requires now == ret[own := At(ret, own).Plus(byPc[pc])]
    ensures PerLine(now, byPc, lines[pc := own])
  {
    hide Cost, At;
    forall line ensures At(now, line) == Cost(byPc, lines[pc := own], line) {
      CostNext(byPc, lines, pc, own, line);
      AtPut(ret, own, byPc[pc], line);
      PlusZero(At(ret, line));
      assert At(ret, line) == Cost(byPc, lines, line);
    }
  }

  lemma PerLineStart(byPc: map<int, Datum>)
    ensures PerLine(map[], byPc, map[])
  {
    hide Sum;
    NothingCharged(byPc);
    forall line ensures Cost(byPc, map[], line) == ZERO {
      assert OnLine(map[], line) == {};
    }
  }

  lemma NodeNext(trace: seq<int>, sourceMap: map<int, Line>, i: nat)
    requires i < |trace|
    ensures var before, now := trace[..i], trace[..i + 1];
      && Node(now, sourceMap) == (if trace[i] in sourceMap && trace[i] !in Charged(before, sourceMap)
                                   then Some(sourceMap[trace[i]]) else Node(before, sourceMap))
      && Attributed(now, sourceMap) ==
         (if Node(now, sourceMap).Some? && trace[i] !in Charged(before, sourceMap)
          then Attributed(before, sourceMap)[trace[i] := Node(now, sourceMap).value] else Attributed(before, sourceMap))
  {
    AttributedCharged(trace[..i], sourceMap);
    assert trace[..i + 1][..i] == trace[..i];
  }

  /** The lines hold what the pcs attributed so far cost. */
  ghost predicate Accounts(ret: map<Line, Datum>, byPc: map<int, Datum>, lines: map<int, Line>) {
    ret.Keys == lines.Values && PerLine(ret, byPc, lines) && Sum(ret) == Sum(Restrict(byPc, lines.Keys))
  }

  lemma AccountsNext(ret: map<Line, Datum>, byPc: map<int, Datum>, lines: map<int, Line>, pc: int, line: Line)
    requires Accounts(ret, byPc, lines) && pc in byPc && pc !in lines
    ensures Accounts(ret[line := At(ret, line).Plus(byPc[pc])], byPc, lines[pc := line])
  {
    hide Sum, PerLine, Restrict;
    ChargeOne(byPc, lines.Keys, pc);
    SumPut(ret, line, byPc[pc]);
    PlusZero(byPc[pc]);
    PerLineNext(ret, byPc, lines, pc, line, ret[line := At(ret, line).Plus(byPc[pc])]);
    ValuesPut(lines, pc, line);
    assert lines[pc := line].Keys == lines.Keys + {pc};
  }

  /** `by_line`: every charged pc exactly once, however often it occurs, so the lines add up to it; each
      line has exactly what the pcs that go to it cost. */
  method ByLine(byPc: map<int, Datum>, trace: seq<int>, sourceMap: map<int, Line>) returns (ret: map<Line, Datum>)
    requires forall i :: 0 <= i < |trace| ==> trace[i] in byPc
    ensures Sum(ret) == Sum(Restrict(byPc, Charged(trace, sourceMap)))
    ensures ret.Keys == Attributed(trace, sourceMap).Values
    ensures PerLine(ret, byPc, Attributed(trace, sourceMap))
  {
    hide Sum, PerLine, Charged, Attributed, Node, Restrict;
    ret := map[];
    var seen: set<int> := {};
    var node: Option<Line> := None;
    ghost var lines: map<int, Line> := map[];
    NothingCharged(byPc);
    PerLineStart(byPc);
    NothingYet(sourceMap);
    assert trace[..0] == [];
    for i := 0 to |trace|
      invariant seen == lines.Keys && node == Node(trace[..i], sourceMap)
      invariant lines == Attributed(trace[..i], sourceMap) && Accounts(ret, byPc, lines)
    {
      hide Accounts;
      AttributedCharged(trace[..i], sourceMap);
      NodeNext(trace, sourceMap, i);
      var pc := trace[i];
      if pc !in seen {
        if pc in sourceMap {
          node := Some(sourceMap[pc]);
        }
        if node.Some? {
          AccountsNext(ret, byPc, lines, pc, node.value);
          ret := ret[node.value := At(ret, node.value).Plus(byPc[pc])];
          lines := lines[pc := node.value];
          seen := seen + {pc};
        }
      }
    }
    assert trace[..|trace|] == trace;
    AttributedCharged(trace, sourceMap);
  }

  lemma NothingYet(sourceMap: map<int, Line>)
    ensures Charged([], sourceMap) == {} && Attributed([], sourceMap) == map[] && Node([], sourceMap) == None
  {}

  lemma ValuesPut<K, V>(m: map<K, V>, k: K, v: V)
    requires k !in m
    ensures m[k := v].Values == m.Values + {v}
  {
    forall x | x in m.Values ensures x in m[k := v].Values {
      var l :| l in m && m[l] == x;
      assert m[k := v][l] == x;
    }
    assert m[k := v][k] == v;
  }

  lemma NothingCharged(byPc: map<int, Datum>)
    ensures Sum(Restrict(byPc, {})) == ZERO && Sum<Line>(map[]) == ZERO
  {
    assert Restrict(byPc, {}) == map[];
  }

  lemma ChargeOne(byPc: map<int, Datum>, seen: set<int>, pc: int)
    requires pc in byPc && pc !in seen
    ensures Sum(Restrict(byPc, seen + {pc})) == Sum(Restrict(byPc, seen)).Plus(byPc[pc])
  {
    SumPut(Restrict(byPc, seen), pc, byPc[pc]);
    assert Restrict(byPc, seen + {pc}) == Restrict(byPc, seen)[pc := byPc[pc]];
  }

  // ---- merging into a profile -----------------------------------------------------------------

  /** A line of a contract, the key of the profile. */
  datatype Place = Place(contract: int, line: Line)

  /** What merging all lines but those in `left` adds to a place. */
  function Added(contract: int, byLine: map<Line, Datum>, left: set<Line>, key: Place): Datum {
    if key.contract == contract && key.line !in left then At(byLine, key.line) else ZERO
  }

  ghost predicate Merged(was: map<Place, Datum>, now: map<Place, Datum>, contract: int, byLine: map<Line, Datum>, left: set<Line>) {
    forall key: Place :: At(now, key) == At(was, key).Plus(Added(contract, byLine, left, key))
  }

  lemma MergedStart(was: map<Place, Datum>, contract: int, byLine: map<Line, Datum>)
    ensures Merged(was, was, contract, byLine, byLine.Keys)
  {}

  lemma AddedNext(contract: int, byLine: map<Line, Datum>, left: set<Line>, line: Line, key: Place)
    requires line in left && line in byLine
    ensures Added(contract, byLine, left - {line}, key) ==
            if key == Place(contract, line) then byLine[line] else Added(contract, byLine, left, key)
    ensures key == Place(contract, line) ==> Added(contract, byLine, left, key) == ZERO
  {}

  lemma MergedNext(was: map<Place, Datum>, now: map<Place, Datum>, contract: int, byLine: map<Line, Datum>,
                   left: set<Line>, line: Line, after: map<Place, Datum>)
    requires Merged(was, now, contract, byLine, left) && line in left && line in byLine
    requires after == now[Place(contract, line) := At(now, Place(contract, line)).Plus(byLine[line])]
    ensures Merged(was, after, contract, byLine, left - {line})
  {
    hide At, Added;
    forall key: Place ensures At(after, key) == At(was, key).Plus(Added(contract, byLine, left - {line}, key)) {
      AtPut(now, Place(contract, line), byLine[line], key);
      AddedNext(contract, byLine, left, line, key);
      PlusZero(At(was, key));
      assert At(now, key) == At(was, key).Plus(Added(contract, byLine, left, key));
    }
  }

  class LineProfile {
    var profile: map<Place, Datum>

    constructor ()
      ensures profile == map[]
    {
      profile := map[];
    }

    /** `merge_single`: each line of the call is added to the same line of that contract, so the profile
        grows by exactly what the lines add up to. */
    method MergeSingle(contract: int, byLine: map<Line, Datum>)
      modifies this
      ensures Sum(profile) == Sum(old(profile)).Plus(Sum(byLine))
      ensures Merged(old(profile), profile, contract, byLine, {})
    {
      hide Sum, Merged;
      var rest := byLine;
      NothingCharged(map[]);
      MergedStart(profile, contract, byLine);
      while rest != map[]
        invariant forall line :: line in rest ==> line in byLine && rest[line] == byLine[line]
        invariant Sum(old(profile)).Plus(Sum(byLine)) == Sum(profile).Plus(Sum(rest))
        invariant Merged(old(profile), profile, contract, byLine, rest.Keys)
        decreases |rest|
      {
        var line :| line in rest;
        Smaller(rest, line);
        SumRemove(rest, line);
        SumPut(profile, Place(contract, line), rest[line]);
        ghost var before := profile;
        profile := profile[Place(contract, line) := At(profile, Place(contract, line)).Plus(rest[line])];
        MergedNext(old(profile), before, contract, byLine, rest.Keys, line, profile);
        assert (rest - {line}).Keys == rest.Keys - {line};
        rest := rest - {line};
      }
    }
  }
}
