/** What a run of a forked account database answers, in terms of the node's replies and of the writes of the
    run alone. */
module ForkHistory {
  import opened Words
  import opened Wrappers
  import opened Journals
  import opened CachingRpc
  import opened ForkModel
  import opened AccountFork
  import opened ForkRun

  /** Anything that can be read back. */
  datatype Field = Balance(a: Address) | Nonce(a: Address) | Code(a: Address) | Slot(a: Address, s: Word)

  function ReadOf(f: Field): Op {
    match f
    case Balance(a) => OpGetBalance(a)
    case Nonce(a) => OpGetNonce(a)
    case Code(a) => OpGetCode(a)
    case Slot(a, s) => OpGetStorage(a, s)
  }

  predicate Writes(op: Op, f: Field) {
    match op
    case OpSetBalance(a, _) => f == Balance(a)
    case OpSetNonce(a, _) => f == Nonce(a)
    case OpSetCode(a, _) => f == Field.Code(a)
    case OpSetStorage(a, s, _) => f == Slot(a, s)
    case _ => false
  }

  /** What a write of a field leaves to be read. */
  function Written(op: Op): Outcome {
    match op
    case OpSetBalance(_, n) => Value(n)
    case OpSetNonce(_, n) => Value(n)
    case OpSetCode(_, bs) => Outcome.Code(bs)
    case OpSetStorage(_, _, v) => Value(v)
    case _ => Nothing
  }

  /** The request that asks the node for a field. */
  function Ask(f: Field, block: nat): Request {
    match f
    case Balance(a) => CachingRpc.GetBalance(a, block)
    case Nonce(a) => GetTransactionCount(a, block)
    case Code(a) => GetCode(a, block)
    case Slot(a, s) => GetStorageAt(a, s, block)
  }

  /** A reply as an outcome. */
  function Answered(reply: Option<Reply>): Outcome {
    if reply == None then Raised
    else match reply.value
      case Quantity(n) => Value(n)
      case Data(bs) => Outcome.Code(bs)
      case Prestate(_) => Raised
  }

  ghost function Answer(remote: Remote, block: nat, f: Field, c: Chain): Outcome {
    ChainStep(remote, block, ReadOf(f), c).out
  }

  /** The field reads as `v` now and in every snapshot named `floor` or later. */
  ghost predicate Holds(remote: Remote, block: nat, f: Field, floor: nat, v: Outcome, c: Chain) {
    && c.next >= floor && Answer(remote, block, f, c) == v
    && forall i :: 0 <= i < |c.saved| && c.saved[i].id >= floor ==>
         Answer(remote, block, f, c.(current := c.saved[i].world)) == v
  }

  /** The operation does not write the field, nor go back to before checkpoint `floor`. */
  predicate Leaves(op: Op, f: Field, floor: nat) {
    !Writes(op, f) && (op.OpDiscard? ==> op.id >= floor)
  }

  predicate AllLeave(ops: seq<Op>, f: Field, floor: nat) {
    forall i :: 0 <= i < |ops| ==> Leaves(ops[i], f, floor)
  }

  /** What is read depends on the current world alone. */
  lemma AnswerCurrent(remote: Remote, block: nat, f: Field, c: Chain, d: Chain)
    requires c.current == d.current
    ensures Answer(remote, block, f, c) == Answer(remote, block, f, d)
  {}

  lemma StepLeaves(remote: Remote, block: nat, op: Op, f: Field, floor: nat, v: Outcome, c: Chain)
    requires Leaves(op, f, floor) && Holds(remote, block, f, floor, v, c)
    ensures Holds(remote, block, f, floor, v, ChainStep(remote, block, op, c).chain)
  {
    var d := ChainStep(remote, block, op, c).chain;
    forall i | 0 <= i < |d.saved| && d.saved[i].id >= floor
      ensures Answer(remote, block, f, d.(current := d.saved[i].world)) == v
    {
      if i < |c.saved| {
        AnswerCurrent(remote, block, f, c.(current := c.saved[i].world), d.(current := d.saved[i].world));
      } else {
        AnswerCurrent(remote, block, f, c, d.(current := d.saved[i].world));
      }
    }
    if op.OpDiscard? && op.id in SavedIds(c) {
      var k := Find(SavedIds(c), op.id);
      assert c.saved[k].id == op.id;
      AnswerCurrent(remote, block, f, c.(current := c.saved[k].world), d);
    }
  }

  lemma {:induction false} RunLeaves(remote: Remote, block: nat, ops: seq<Op>, f: Field, floor: nat, v: Outcome, c: Chain)
    requires AllLeave(ops, f, floor) && Holds(remote, block, f, floor, v, c)
    ensures Holds(remote, block, f, floor, v, ChainRun(remote, block, ops, c).1)
    decreases |ops|
  {
    hide Holds, ChainStep, Leaves;
    if ops != [] {
      StepLeaves(remote, block, ops[0], f, floor, v, c);
      RunLeaves(remote, block, ops[1..], f, floor, v, ChainStep(remote, block, ops[0], c).chain);
    }
  }

  lemma {:induction false} RunConcat(remote: Remote, block: nat, a: seq<Op>, b: seq<Op>, c: Chain)
    ensures var first := ChainRun(remote, block, a, c);
      var rest := ChainRun(remote, block, b, first.1);
      ChainRun(remote, block, a + b, c) == (first.0 + rest.0, rest.1)
    decreases |a|
  {
    hide ChainStep;
    if a == [] {
      assert a + b == b;
      assert [] + ChainRun(remote, block, b, c).0 == ChainRun(remote, block, b, c).0;
    } else {
      assert (a + b)[1..] == a[1..] + b;
      var s := ChainStep(remote, block, a[0], c);
      RunConcat(remote, block, a[1..], b, s.chain);
      var first := ChainRun(remote, block, a[1..], s.chain);
      var rest := ChainRun(remote, block, b, first.1);
      assert ([s.out] + first.0) + rest.0 == [s.out] + (first.0 + rest.0);
    }
  }

  lemma RunOne(remote: Remote, block: nat, op: Op, c: Chain)
    ensures var s := ChainStep(remote, block, op, c); ChainRun(remote, block, [op], c) == ([s.out], s.chain)
  {
    hide ChainStep;
    assert [op][1..] == [];
    var s := ChainStep(remote, block, op, c);
    assert [s.out] + [] == [s.out] && ChainRun(remote, block, [], s.chain) == ([], s.chain);
  }

  /** The last answer of a run. */
  ghost function LastAnswer(remote: Remote, block: nat, ops: seq<Op>, f: Field, c: Chain): Outcome {
    var outs := ChainRun(remote, block, ops + [ReadOf(f)], c).0;
    if outs == [] then Nothing else outs[|outs| - 1]
  }

  lemma LastIs(remote: Remote, block: nat, ops: seq<Op>, f: Field, c: Chain)
    ensures LastAnswer(remote, block, ops, f, c) == Answer(remote, block, f, ChainRun(remote, block, ops, c).1)
  {
    hide ChainStep, ChainRun;
    RunConcat(remote, block, ops, [ReadOf(f)], c);
    RunOne(remote, block, ReadOf(f), ChainRun(remote, block, ops, c).1);
  }

  lemma WriteReads(remote: Remote, block: nat, op: Op, f: Field, c: Chain)
    requires Writes(op, f) && forall i :: 0 <= i < |c.saved| ==> c.saved[i].id < c.next
    ensures Holds(remote, block, f, c.next, Written(op), ChainStep(remote, block, op, c).chain)
  {}

  lemma StepBelow(remote: Remote, block: nat, op: Op, c: Chain)
    requires Named(c)
    ensures Named(ChainStep(remote, block, op, c).chain)
  {}

  lemma {:induction false} RunBelow(remote: Remote, block: nat, ops: seq<Op>, c: Chain)
    requires Named(c)
    ensures Named(ChainRun(remote, block, ops, c).1)
    decreases |ops|
  {
    hide Named, ChainStep;
    if ops != [] {
      StepBelow(remote, block, ops[0], c);
      RunBelow(remote, block, ops[1..], ChainStep(remote, block, ops[0], c).chain);
    }
  }

  /** A read gives the last value written, whatever was read, written elsewhere, committed or prefetched in
      between, and whatever checkpoints taken after the write were discarded. */
  lemma LastWriteIsRead(remote: Remote, block: nat, before: seq<Op>, write: Op, after: seq<Op>, f: Field, c: Chain)
    requires Named(c) && Writes(write, f)
    requires AllLeave(after, f, ChainRun(remote, block, before, c).1.next)
    ensures LastAnswer(remote, block, before + [write] + after, f, c) == Written(write)
  {
    hide ChainStep, ChainRun, Named, Holds, AllLeave, Written, Writes;
    var c1 := ChainRun(remote, block, before, c).1;
    RunBelow(remote, block, before, c);
    assert forall i :: 0 <= i < |c1.saved| ==> c1.saved[i].id < c1.next by { NamedBelow(c1); }
    WriteReads(remote, block, write, f, c1);
    RunOne(remote, block, write, c1);
    RunConcat(remote, block, before, [write], c);
    RunConcat(remote, block, before + [write], after, c);
    RunLeaves(remote, block, after, f, c1.next, Written(write), ChainStep(remote, block, write, c1).chain);
    LastIs(remote, block, before + [write] + after, f, c);
    HoldsNow(remote, block, f, c1.next, Written(write), ChainRun(remote, block, before + [write] + after, c).1);
  }

  lemma NamedBelow(c: Chain)
    requires Named(c)
    ensures forall i :: 0 <= i < |c.saved| ==> c.saved[i].id < c.next
  {}

  lemma HoldsNow(remote: Remote, block: nat, f: Field, floor: nat, v: Outcome, c: Chain)
    requires Holds(remote, block, f, floor, v, c)
    ensures Answer(remote, block, f, c) == v
  {}

  /** A new fork reads as the node's own replies. */
  lemma FreshHolds(remote: Remote, block: nat, f: Field)
    requires Answering(remote, block)
    ensures Holds(remote, block, f, 0, Answered(remote(Ask(f, block))), Chain(RemoteWorld(remote, block), [], 0))
  {
    match f
    case Balance(a) => assert IsQuantity(remote(CachingRpc.GetBalance(a, block)));
    case Nonce(a) => assert IsQuantity(remote(GetTransactionCount(a, block)));
    case Code(a) => assert remote(GetCode(a, block)).Some?;
    case Slot(a, s) =>
      assert IsQuantity(remote(GetStorageAt(a, s, block)));
  }

  /** What no operation of a run writes is read as the node replied, whatever else happened. */
  lemma UnwrittenIsReply(remote: Remote, block: nat, ops: seq<Op>, f: Field)
    requires Answering(remote, block) && AllLeave(ops, f, 0)
    ensures LastAnswer(remote, block, ops, f, Chain(RemoteWorld(remote, block), [], 0)) == Answered(remote(Ask(f, block)))
  {
    hide ChainStep, ChainRun, Holds, Answering, Answered, Ask;
    var c := Chain(RemoteWorld(remote, block), [], 0);
    FreshHolds(remote, block, f);
    RunLeaves(remote, block, ops, f, 0, Answered(remote(Ask(f, block))), c);
    LastIs(remote, block, ops, f, c);
    HoldsNow(remote, block, f, 0, Answered(remote(Ask(f, block))), ChainRun(remote, block, ops, c).1);
  }

  /** No operation writes anything of the account. */
  predicate Untouched(ops: seq<Op>, a: Address) {
    forall i :: 0 <= i < |ops| ==>
      match ops[i]
      case OpSetBalance(x, _) => x != a
      case OpSetNonce(x, _) => x != a
      case OpSetCode(x, _) => x != a
      case OpSetStorage(x, _, _) => x != a
      case _ => true
  }

  /** One read of a field after any run of a new fork. */
  method ReadUnwritten(rpc: CachingRPC, block: nat, ops: seq<Op>, f: Field) returns (out: Outcome)
    requires rpc.Valid() && Answering(rpc.remote, block) && AllLeave(ops, f, 0)
    requires forall i :: 0 <= i < |ops| ==> HonestTrace(rpc.remote, block, ops[i])
    modifies rpc`db
    ensures rpc.Valid() && out == Answered(rpc.remote(Ask(f, block)))
  {
    hide ChainRun, ChainStep, Answering, HonestTrace, Answered, Ask;
    var db := new AccountDBFork(rpc, block);
    UnwrittenIsReply(rpc.remote, block, ops, f);
    ReadIsHonest(rpc.remote, block, f);
    var outs := RunAll(db, ops + [ReadOf(f)]);
    RunLength(rpc.remote, block, ops + [ReadOf(f)], Chain(RemoteWorld(rpc.remote, block), [], 0));
    out := outs[|outs| - 1];
  }

  lemma ReadIsHonest(remote: Remote, block: nat, f: Field)
    ensures HonestTrace(remote, block, ReadOf(f))
  {}

  lemma {:induction false} RunLength(remote: Remote, block: nat, ops: seq<Op>, c: Chain)
    ensures |ChainRun(remote, block, ops, c).0| == |ops|
    decreases |ops|
  {
    hide ChainStep;
    if ops != [] { RunLength(remote, block, ops[1..], ChainStep(remote, block, ops[0], c).chain); }
  }

  /** For an account that a run of a new fork did not write: balance, nonce, code and storage are the node's
      replies to `eth_getBalance`, `eth_getTransactionCount`, `eth_getCode` and `eth_getStorageAt`. */
  method ReadUntouched(rpc: CachingRPC, block: nat, ops: seq<Op>, a: Address, s: Word)
    returns (balance: nat, nonce: nat, bytecode: seq<Byte>, slot: nat)
    requires rpc.Valid() && Answering(rpc.remote, block) && Untouched(ops, a)
    requires forall i :: 0 <= i < |ops| ==> HonestTrace(rpc.remote, block, ops[i])
    modifies rpc`db
    ensures rpc.Valid()
    ensures rpc.remote(CachingRpc.GetBalance(a, block)) == Some(Quantity(balance))
    ensures rpc.remote(GetTransactionCount(a, block)) == Some(Quantity(nonce))
    ensures rpc.remote(GetCode(a, block)) == Some(Data(bytecode))
    ensures rpc.remote(GetStorageAt(a, s, block)) == Some(Quantity(slot))
  {
    hide HonestTrace;
    UntouchedLeaves(ops, a, s);
    AnsweredKinds(rpc.remote, block, a, s);
    hide Answering;
    var b := ReadUnwritten(rpc, block, ops, Balance(a));
    var n := ReadUnwritten(rpc, block, ops, Nonce(a));
    var c := ReadUnwritten(rpc, block, ops, Field.Code(a));
    var t := ReadUnwritten(rpc, block, ops, Slot(a, s));
    balance, nonce, bytecode, slot := b.n, n.n, c.bs, t.n;
  }

  lemma UntouchedLeaves(ops: seq<Op>, a: Address, s: Word)
    requires Untouched(ops, a)
    ensures AllLeave(ops, Balance(a), 0) && AllLeave(ops, Nonce(a), 0) && AllLeave(ops, Field.Code(a), 0) && AllLeave(ops, Slot(a, s), 0)
  {}

  lemma AnsweredKinds(remote: Remote, block: nat, a: Address, s: Word)
    requires Answering(remote, block)
    ensures IsQuantity(remote(CachingRpc.GetBalance(a, block))) && IsQuantity(remote(GetTransactionCount(a, block)))
    ensures IsQuantity(remote(GetStorageAt(a, s, block)))
    ensures remote(GetCode(a, block)).Some? && remote(GetCode(a, block)).value.Data?
  {}
}
