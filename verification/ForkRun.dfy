/** Whole runs of a forked account database against the simple state. */
module ForkRun {
  import opened Words
  import opened Wrappers
  import opened Journals
  import opened CachingRpc
  import opened ForkModel
  import opened AccountFork

  datatype Op =
    | OpGetStorage(a: Address, s: Word)
    | OpSetStorage(a: Address, s: Word, v: Word)
    | OpGetBalance(a: Address)
    | OpSetBalance(a: Address, n: nat)
    | OpGetNonce(a: Address)
    | OpSetNonce(a: Address, n: nat)
    | OpGetCode(a: Address)
    | OpSetCode(a: Address, bytecode: seq<Byte>)
    | OpRecord
    | OpDiscard(id: nat)
    | OpCommit(id: nat)
    | OpPrefetch(msg: Message)

  datatype Outcome = Nothing | Value(n: nat) | Code(bs: seq<Byte>) | Checkpoint(id: nat) | Raised

  datatype Stepped = Stepped(out: Outcome, chain: Chain)

  /** One operation on the simple state. A prefetch uses up a checkpoint name and does nothing else. */
  ghost function ChainStep(remote: Remote, block: nat, op: Op, c: Chain): Stepped {
    match op
    case OpGetStorage(a, s) => Stepped(Value(c.current.storage(a, s)), c)
    case OpSetStorage(a, s, v) => Stepped(Nothing, c.(current := WriteSlot(c.current, a, s, v)))
    case OpGetBalance(a) => Stepped(Value(c.current.account(a).balance), c)
    case OpSetBalance(a, n) =>
      Stepped(Nothing, c.(current := WriteAccount(c.current, a, c.current.account(a).(balance := n))))
    case OpGetNonce(a) => Stepped(Value(c.current.account(a).nonce), c)
    case OpSetNonce(a, n) =>
      Stepped(Nothing, c.(current := WriteAccount(c.current, a, c.current.account(a).(nonce := n))))
    case OpGetCode(a) => Stepped(Code(c.current.account(a).codeHash.preimage), c)
    case OpSetCode(a, bs) =>
      Stepped(Nothing, c.(current := WriteAccount(c.current, a, c.current.account(a).(codeHash := Keccak(bs)))))
    case OpRecord => Stepped(Checkpoint(c.next), TakeSnapshot(c))
    case OpDiscard(id) => if id in SavedIds(c) then Stepped(Nothing, Restore(c, id)) else Stepped(Raised, c)
    case OpCommit(id) => if id in SavedIds(c) then Stepped(Nothing, Keep(c, id)) else Stepped(Raised, c)
    case OpPrefetch(msg) =>
      Stepped(Nothing, if remote(TraceCall(msg, block)).Some? then c.(next := c.next + 1) else c)
  }

  ghost function ChainRun(remote: Remote, block: nat, ops: seq<Op>, c: Chain): (r: (seq<Outcome>, Chain)) {
    if ops == [] then ([], c)
    else
      var first := ChainStep(remote, block, ops[0], c);
      var rest := ChainRun(remote, block, ops[1..], first.chain);
      ([first.out] + rest.0, rest.1)
  }

  /** A trace that is answered, and is well formed, tells the truth. */
  ghost predicate HonestTrace(remote: Remote, block: nat, op: Op) {
    op.OpPrefetch? && remote(TraceCall(op.msg, block)).Some? && remote(TraceCall(op.msg, block)).value.Prestate? ==>
      var trace := remote(TraceCall(op.msg, block)).value.accounts;
      AllCanonical(trace) ==> AllAgree(remote, block, trace, |trace|)
  }

  method Perform(db: AccountDBFork, op: Op) returns (out: Outcome)
    requires db.Valid() && HonestTrace(db.rpc.remote, db.block, op)
    modifies db, db.rpc`db
    ensures db.Valid() && Stepped(out, db.model) == ChainStep(db.rpc.remote, db.block, op, old(db.model))
  {
    hide Sound, Restore, Keep, TakeSnapshot, Upto, Kept, PutAll, Listed, SameWorld, CacheOk;
    out := Nothing;
    match op
    case OpGetStorage(a, s) => var v := db.GetStorage(a, s); out := Value(v);
    case OpSetStorage(a, s, v) => db.SetStorage(a, s, v);
    case OpGetBalance(a) => var n := db.GetBalanceOf(a); out := Value(n);
    case OpSetBalance(a, n) => db.SetBalance(a, n);
    case OpGetNonce(a) => var n := db.GetNonce(a); out := Value(n);
    case OpSetNonce(a, n) => db.SetNonce(a, n);
    case OpGetCode(a) => var bs := db.GetCodeOf(a); out := Code(bs);
    case OpSetCode(a, bs) => db.SetCode(a, bs);
    case OpRecord => var id := db.Record(); out := Checkpoint(id);
    case OpDiscard(id) => var ok := db.Discard(id); if !ok { out := Raised; }
    case OpCommit(id) => var ok := db.Commit(id); if !ok { out := Raised; }
    case OpPrefetch(msg) => db.TryPrefetch(msg);
  }

  lemma RunUnfolds(remote: Remote, block: nat, ops: seq<Op>, i: nat, c: Chain)
    requires i < |ops|
    ensures var first, run := ChainStep(remote, block, ops[i], c), ChainRun(remote, block, ops[i..], c);
      var rest := ChainRun(remote, block, ops[i + 1..], first.chain);
      run.0 == [first.out] + rest.0 && run.1 == rest.1
  {
    hide ChainStep;
    assert ops[i..][1..] == ops[i + 1..];
  }

  lemma RunEnds(remote: Remote, block: nat, ops: seq<Op>, c: Chain)
    ensures ChainRun(remote, block, ops[|ops|..], c) == ([], c)
  {
    hide ChainStep;
  }

  /** Any run, nested checkpoints, prefetches and errors included, answers like the simple state. */
  method RunAll(db: AccountDBFork, ops: seq<Op>) returns (outs: seq<Outcome>)
    requires db.Valid() && forall i :: 0 <= i < |ops| ==> HonestTrace(db.rpc.remote, db.block, ops[i])
    modifies db, db.rpc`db
    ensures db.Valid()
    ensures outs == ChainRun(db.rpc.remote, db.block, ops, old(db.model)).0
    ensures db.model == ChainRun(db.rpc.remote, db.block, ops, old(db.model)).1
  {
    hide ChainStep, ChainRun, Sound;
    outs := [];
    ghost var whole := ChainRun(db.rpc.remote, db.block, ops, db.model);
    assert ops[0..] == ops;
    for i := 0 to |ops|
      invariant db.Valid()
      invariant outs + ChainRun(db.rpc.remote, db.block, ops[i..], db.model).0 == whole.0
      invariant ChainRun(db.rpc.remote, db.block, ops[i..], db.model).1 == whole.1
    {
      RunUnfolds(db.rpc.remote, db.block, ops, i, db.model);
      var out := Perform(db, ops[i]);
      outs := outs + [out];
    }
    RunEnds(db.rpc.remote, db.block, ops, db.model);
  }

  /** The one visible effect of an honest prefetch: an account listed in the trace and not known before
      exists from now on, even an empty one. */
  method ExistsAfterPrefetch(db: AccountDBFork, msg: Message, a: Address) returns (after: bool)
    requires db.Valid() && db.rpc.remote(TraceCall(msg, db.block)).Some?
    requires var reply := db.rpc.remote(TraceCall(msg, db.block)).value;
      reply.Prestate? && AllCanonical(reply.accounts) && AllAgree(db.rpc.remote, db.block, reply.accounts, |reply.accounts|)
    modifies db, db.rpc`db
    ensures db.Valid()
    ensures var acct, trace := old(db.model).current.account(a), db.rpc.remote(TraceCall(msg, db.block)).value.accounts;
      after <==> old(a in Top(db.accounts)) || acct.balance > 0 || acct.nonce > 0
                 || (Listed(trace, |trace|, a) && a !in old(db.Known()))
  {
    hide Sound, Upto, Kept, SameWorld, CacheOk;
    db.TryPrefetch(msg);
    after := db.AccountExists(a);
  }

  // ---- what the simple state guarantees -------------------------------------------------------

  /** The operation leaves checkpoints up to `floor` alone. */
  predicate Inside(op: Op, floor: nat) {
    (op.OpDiscard? ==> op.id > floor) && (op.OpCommit? ==> op.id > floor)
  }

  lemma StepInside(remote: Remote, block: nat, op: Op, c0: Chain, c: Chain)
    requires Named(c0) && Named(c) && Inside(op, c0.next)
    requires c.next > c0.next && |c.saved| > |c0.saved|
    requires c.saved[..|c0.saved| + 1] == c0.saved + [Saved(c0.next, c0.current)]
    ensures var c' := ChainStep(remote, block, op, c).chain;
      Named(c') && c'.next > c0.next && |c'.saved| > |c0.saved|
      && c'.saved[..|c0.saved| + 1] == c0.saved + [Saved(c0.next, c0.current)]
  {
    var n := |c0.saved|;
    var c' := ChainStep(remote, block, op, c).chain;
    if (op.OpDiscard? || op.OpCommit?) && op.id in SavedIds(c) {
      var i := Find(SavedIds(c), op.id);
      assert c.saved[..n + 1][n].id == c0.next;
      assert i > n;
      assert c'.saved == c.saved[..i];
      assert c.saved[..i][..n + 1] == c.saved[..n + 1];
    } else if op.OpRecord? {
      assert c'.saved[..n + 1] == c.saved[..n + 1];
    }
  }

  /** Discarding a checkpoint undoes every operation made since, whatever was nested in between. */
  lemma {:induction false} RollbackUndoes(remote: Remote, block: nat, ops: seq<Op>, c0: Chain, c: Chain)
    requires Named(c0) && Named(c) && forall i :: 0 <= i < |ops| ==> Inside(ops[i], c0.next)
    requires c.next > c0.next && |c.saved| > |c0.saved|
    requires c.saved[..|c0.saved| + 1] == c0.saved + [Saved(c0.next, c0.current)]
    ensures var end := ChainRun(remote, block, ops, c).1;
      && c0.next in SavedIds(end)
      && Restore(end, c0.next) == c0.(next := end.next)
  {
    if ops == [] {
      var n := |c0.saved|;
      assert c.saved[..n + 1][n] == Saved(c0.next, c0.current);
      var ids := SavedIds(c);
      assert ids[n] == c0.next;
      assert Find(ids, c0.next) == n;
      assert c.saved[..n] == c.saved[..n + 1][..n] == c0.saved;
    } else {
      StepInside(remote, block, ops[0], c0, c);
      RollbackUndoes(remote, block, ops[1..], c0, ChainStep(remote, block, ops[0], c).chain);
    }
  }
}
