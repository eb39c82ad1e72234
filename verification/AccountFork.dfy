/** `AccountDBFork` of `boa/vm/fork.py`: journals and caches over a remote state, indistinguishable
    from one mutable copy of that state with snapshots. */
module AccountFork {
  import opened Words
  import opened Wrappers
  import opened Journals
  import opened CachingRpc
  import opened ForkModel

  /** A trace entry says what the node answers; omitted fields mean empty. */
  ghost predicate TraceAgrees(remote: Remote, block: nat, t: Touched) {
    t.address.Canonical? ==>
      && remote(GetBalance(t.address.a, block)) == Some(Quantity(if t.balance.Some? then t.balance.value else 0))
      && remote(GetTransactionCount(t.address.a, block)) == Some(Quantity(if t.nonce.Some? then t.nonce.value else 0))
      && remote(GetCode(t.address.a, block)) == Some(Data(if t.code.Some? then t.code.value else []))
      && forall k :: 0 <= k < |t.storage| ==> SlotAgrees(remote, block, t.address.a, t.storage[k])
  }

  ghost predicate SlotAgrees(remote: Remote, block: nat, a: Address, entry: (Word, Word)) {
    remote(GetStorageAt(a, entry.0, block)) == Some(Quantity(entry.1))
  }

  /** What is taken over from an agreeing entry is the remote state. */
  lemma AgreesMeans(remote: Remote, block: nat, t: Touched)
    requires TraceAgrees(remote, block, t) && t.address.Canonical?
    ensures Prefetched(t) == RemoteAccount(remote, block, t.address.a)
  {}

  lemma SlotMeans(remote: Remote, block: nat, a: Address, entry: (Word, Word))
    requires SlotAgrees(remote, block, a, entry)
    ensures entry.1 == RemoteSlot(remote, block, a, entry.0)
  {}

  function OrElse<T>(o: Option<T>, default: T): T {
    if o.Some? then o.value else default
  }

  function Prefetched(t: Touched): Account {
    Account(OrElse(t.nonce, 0), OrElse(t.balance, 0), Keccak(OrElse(t.code, [])))
  }

  lemma WriteTwice(w: World, a: Address, p: Account, q: Account)
    ensures SameWorld(WriteAccount(WriteAccount(w, a, p), a, q), WriteAccount(w, a, q))
  {}

  lemma CacheSame(cache: map<Address, Account>, v: World, w: World)
    requires CacheOk(cache, v) && SameWorld(v, w)
    ensures CacheOk(cache, w)
  {}

  /** `j` is `j0` with one more checkpoint on top. */
  ghost predicate OneAbove<K, V>(j: Journal<K, V>, j0: Journal<K, V>) {
    j.base == j0.base && |j.layers| == |j0.layers| + 1 && j.layers[..|j0.layers|] == j0.layers
  }

  ghost predicate Above(j: Store, j0: Store) {
    && OneAbove(j.storage, j0.storage) && OneAbove(j.dontfetch, j0.dontfetch)
    && OneAbove(j.accounts, j0.accounts) && OneAbove(j.code, j0.code)
  }

  lemma PutAbove<K, V>(j: Journal<K, V>, j0: Journal<K, V>, writes: map<K, V>)
    requires OneAbove(j, j0)
    ensures OneAbove(PutAll(j, writes), j0)
  {}

  /** Written maps after one more write. */
  lemma PutTop<K, V>(j: Journal<K, V>, k: K, v: V)
    ensures Top(Put(j, k, v)) == Top(j)[k := v]
    ensures Top(Put(j, k, v)).Keys == Top(j).Keys + {k}
  {
    PutAllUpto(j, map[k := v]);
    assert Top(j) + map[k := v] == Top(j)[k := v];
  }

  /** Slots and accounts that were already known keep their content. */
  ghost predicate Kept(slots: set<(Address, Word)>, known: set<Address>, v: World, w: World) {
    && (forall a: Address, s: Word :: (a, s) in slots ==> w.storage(a, s) == v.storage(a, s))
    && (forall a: Address :: a in known ==> w.account(a) == v.account(a))
  }

  /** A valid entry among the first `n` names `a`. */
  ghost predicate Listed(trace: seq<Touched>, n: nat, a: Address)
    requires n <= |trace|
  {
    exists k :: 0 <= k < n && trace[k].address == Canonical(a)
  }

  ghost predicate AllAgree(remote: Remote, block: nat, trace: seq<Touched>, n: nat)
    requires n <= |trace|
  {
    forall k :: 0 <= k < n ==> TraceAgrees(remote, block, trace[k])
  }

  ghost predicate AllCanonical(trace: seq<Touched>) {
    forall k :: 0 <= k < |trace| ==> trace[k].address.Canonical?
  }

  lemma SnapshotTops(base: Store, id: nat)
    ensures Above(Opened(base, id), base)
    ensures Top(Opened(base, id).dontfetch) == Top(base.dontfetch)
    ensures Top(Opened(base, id).accounts) == Top(base.accounts)
  {
    hide Upto;
    RecordUpto(base.dontfetch, id);
    RecordUpto(base.accounts, id);
  }

  /** Discarding the newest checkpoint gives back the journals and the world it was opened on. */
  lemma DiscardRestores(remote: World, j: Store, c: Chain, base: Store, c0: Chain, id: nat)
    requires Sound(remote, j, c) && Above(j, base) && id == c0.next
    requires c == TakeSnapshot(c0).(current := c.current)
    ensures id in SavedIds(c) && InStep(j) && id in Ids(j.storage)
    ensures Discarded(j, id) == base
    ensures Restore(c, id) == c0.(next := c0.next + 1)
  {
    var n := |c0.saved|;
    assert c.saved[n] == Saved(id, c0.current);
    assert SavedIds(c)[n] == id;
    assert |Ids(j.storage)| == n + 1;
    assert Find(SavedIds(c), id) == n;
    assert c.saved[..n] == c0.saved;
  }

  lemma CommitKeeps(remote: World, j: Store, c: Chain, c0: Chain, id: nat)
    requires Sound(remote, j, c) && id == c0.next
    requires c == TakeSnapshot(c0).(current := c.current)
    ensures id in SavedIds(c) && InStep(j) && id in Ids(j.storage)
    ensures Keep(c, id) == c0.(current := c.current, next := c0.next + 1)
    ensures Top(Committed(j, id).accounts) == Top(j.accounts)
    ensures Top(Committed(j, id).dontfetch) == Top(j.dontfetch)
  {
    hide Upto, PutAll;
    var n := |c0.saved|;
    assert SavedIds(c)[n] == id;
    assert Find(SavedIds(c), id) == n;
    assert c.saved[..n] == c0.saved;
    CommitUpto(j.accounts, id);
    CommitUpto(j.dontfetch, id);
  }

  ghost predicate CacheOk(cache: map<Address, Account>, w: World) {
    forall a :: a in cache ==> cache[a] == w.account(a)
  }

  class AccountDBFork {
    const rpc: CachingRPC
    const block: nat                                     // the pinned block
    var storage: Journal<(Address, Word), Word>
    var dontfetch: Journal<(Address, Word), ()>
    var accounts: Journal<Address, Account>
    var code: Journal<Hash, seq<Byte>>
    var accountCache: map<Address, Account>
    var nextCheckpoint: nat
    ghost var model: Chain

    ghost function Logs(): Store
      reads this
    {
      Store(storage, dontfetch, accounts, code)
    }

    ghost function Remote(): World {
      RemoteWorld(rpc.remote, block)
    }

    ghost predicate Valid()
      reads this, rpc
    {
      && rpc.Valid() && Answering(rpc.remote, block)
      && Sound(Remote(), Logs(), model)
      && CacheOk(accountCache, model.current)
      && model.next == nextCheckpoint
    }

    constructor (rpc: CachingRPC, block: nat)
      requires rpc.Valid() && Answering(rpc.remote, block)
      ensures Valid() && this.rpc == rpc && this.block == block
      ensures model == Chain(RemoteWorld(rpc.remote, block), [], 0)
    {
      this.rpc, this.block := rpc, block;
      storage, dontfetch, accounts, code := Journal(map[], []), Journal(map[], []), Journal(map[], []), Journal(map[], []);
      accountCache, nextCheckpoint := map[], 0;
      model := Chain(RemoteWorld(rpc.remote, block), [], 0);
    }

    // ---- checkpoints ---------------------------------------------------------------------------

    method Record() returns (checkpoint: nat)
      requires Valid()
      modifies this
      ensures Valid() && checkpoint == old(model).next && model == TakeSnapshot(old(model))
      ensures Logs() == Opened(old(Logs()), checkpoint) && accountCache == old(accountCache)
    {
      Opening(Remote(), Logs(), model);
      checkpoint := nextCheckpoint;
      nextCheckpoint := nextCheckpoint + 1;
      storage, accounts, code := Journals.Record(storage, checkpoint), Journals.Record(accounts, checkpoint), Journals.Record(code, checkpoint);
      dontfetch := Journals.Record(dontfetch, checkpoint);
      model := TakeSnapshot(model);
    }

    /** `ok` is false where the journals raise: no such checkpoint, and nothing has changed. */
    method Discard(checkpoint: nat) returns (ok: bool)
      requires Valid()
      modifies this
      ensures Valid() && ok == (checkpoint in SavedIds(old(model)))
      ensures ok ==> InStep(old(Logs())) && checkpoint in Ids(old(storage))
      ensures ok ==> Logs() == Discarded(old(Logs()), checkpoint) && model == Restore(old(model), checkpoint)
      ensures !ok ==> Logs() == old(Logs()) && model == old(model) && accountCache == old(accountCache)
    {
      hide Sound, SavedIds, Find, Over;
      SoundSteps(Remote(), Logs(), model);
      if checkpoint !in Ids(storage) {
        return false;
      }
      Discarding(Remote(), Logs(), model, checkpoint);
      storage, accounts, code := Journals.Discard(storage, checkpoint), Journals.Discard(accounts, checkpoint), Journals.Discard(code, checkpoint);
      accountCache := map[];
      dontfetch := Journals.Discard(dontfetch, checkpoint);
      model := Restore(model, checkpoint);
      return true;
    }

    method Commit(checkpoint: nat) returns (ok: bool)
      requires Valid()
      modifies this
      ensures Valid() && ok == (checkpoint in SavedIds(old(model)))
      ensures model == if ok then Keep(old(model), checkpoint) else old(model)
      ensures ok ==> InStep(old(Logs())) && checkpoint in Ids(old(storage))
      ensures ok ==> Logs() == Committed(old(Logs()), checkpoint)
      ensures accountCache == old(accountCache)
    {
      hide Sound, SavedIds, Find, Over, PutAll;
      SoundSteps(Remote(), Logs(), model);
      if checkpoint !in Ids(storage) {
        return false;
      }
      Committing(Remote(), Logs(), model, checkpoint);
      storage, accounts, code := Journals.Commit(storage, checkpoint), Journals.Commit(accounts, checkpoint), Journals.Commit(code, checkpoint);
      dontfetch := Journals.Commit(dontfetch, checkpoint);
      model := Keep(model, checkpoint);
      return true;
    }

    // ---- storage -------------------------------------------------------------------------------

    method SetStorage(a: Address, s: Word, v: Word)
      requires Valid()
      modifies this`storage, this`dontfetch, this`model
      ensures Valid() && model == old(model).(current := WriteSlot(old(model).current, a, s, v))
      ensures Logs() == SlotWritten(old(Logs()), a, s, v)
    {
      hide Sound, PutAll;
      SlotWrite(Remote(), Logs(), model, a, s, v);
      storage := Put(storage, (a, s), v);
      dontfetch := Put(dontfetch, (a, s), ());
      model := model.(current := WriteSlot(model.current, a, s, v));
    }

    function HaveStorage(a: Address, s: Word): bool
      reads this
    {
      (a, s) in Top(dontfetch)
    }

    /** What the simple state holds; a value fetched on the way is invisible. */
    method GetStorage(a: Address, s: Word) returns (v: Word)
      requires Valid()
      modifies this`storage, this`dontfetch, this`model, rpc`db
      ensures Valid() && v == old(model).current.storage(a, s) && model == old(model)
    {
      hide Upto, PutAll, CodeKnown;
      assert SoundAt(Remote(), Logs(), model, |model.saved|);
      v := if (a, s) in Top(storage) then Top(storage)[(a, s)] else 0;
      if HaveStorage(a, s) {
        return;
      }
      var reply := rpc.Fetch(GetStorageAt(a, s, block));
      v := reply.value.n;
      SetStorage(a, s, v);
      Renamed(Remote(), Logs(), model, old(model).current);
      model := old(model);
    }

    // ---- accounts ------------------------------------------------------------------------------

    ghost function Known(): set<Address>
      reads this
    {
      accountCache.Keys + Top(accounts).Keys
    }

    /** None when neither the cache nor the journal has the account. */
    method GetAccountHelper(a: Address) returns (acct: Option<Account>)
      requires Valid()
      ensures acct.Some? == (a in Known())
      ensures acct == if a in Known() then Some(model.current.account(a)) else None
      ensures a !in Known() ==> model.current.account(a) == RemoteAccount(rpc.remote, block, a)
    {
      assert SoundAt(Remote(), Logs(), model, |model.saved|);
      if a in accountCache {
        return Some(accountCache[a]);
      }
      return if a in Top(accounts) then Some(Top(accounts)[a]) else None;
    }

    method GetAccountRpc(a: Address) returns (acct: Account)
      requires rpc.Valid() && Answering(rpc.remote, block)
      modifies rpc`db
      ensures rpc.Valid() && acct == RemoteAccount(rpc.remote, block, a)
    {
      var reqs := [GetBalance(a, block), GetTransactionCount(a, block), GetCode(a, block)];
      var res := rpc.FetchMulti(reqs);
      AnswersChar(rpc.remote, reqs);
      assert reqs[0] == GetBalance(a, block) && reqs[1] == GetTransactionCount(a, block) && reqs[2] == GetCode(a, block);
      assert IsQuantity(rpc.remote(reqs[0])) && IsQuantity(rpc.remote(reqs[1])) && rpc.remote(reqs[2]).value.Data?;
      acct := Account(res.value[1].n, res.value[0].n, Keccak(res.value[2].bs));
    }

    method GetAccount(a: Address) returns (acct: Account)
      requires Valid()
      modifies this`accountCache, rpc`db
      ensures Valid() && acct == model.current.account(a)
      ensures accountCache == old(accountCache)[a := acct]
    {
      var known := GetAccountHelper(a);
      if known.None? {
        acct := GetAccountRpc(a);
      } else {
        acct := known.value;
      }
      accountCache := accountCache[a := acct];
    }

    method SetAccount(a: Address, acct: Account)
      requires Valid() && KnownHash(Remote(), Top(code), a, acct.codeHash)
      modifies this`accountCache, this`accounts, this`model
      ensures Valid() && model == old(model).(current := WriteAccount(old(model).current, a, acct))
      ensures accountCache == old(accountCache)[a := acct] && accounts == Put(old(accounts), a, acct)
    {
      AccountWrite(Remote(), Logs(), model, a, acct);
      accountCache := accountCache[a := acct];
      accounts := Put(accounts, a, acct);
      model := model.(current := WriteAccount(model.current, a, acct));
    }

    method GetBalanceOf(a: Address) returns (balance: nat)
      requires Valid()
      modifies this`accountCache, rpc`db
      ensures Valid() && balance == model.current.account(a).balance
    {
      var acct := GetAccount(a);
      balance := acct.balance;
    }

    method GetNonce(a: Address) returns (nonce: nat)
      requires Valid()
      modifies this`accountCache, rpc`db
      ensures Valid() && nonce == model.current.account(a).nonce
    {
      var acct := GetAccount(a);
      nonce := acct.nonce;
    }

    /** An account read back keeps a code that can be found. */
    lemma HashOfRead(a: Address)
      requires Valid()
      ensures KnownHash(Remote(), Top(code), a, model.current.account(a).codeHash)
      ensures forall h :: h in Top(code) ==> h == Keccak(Top(code)[h])
    {
      assert SoundAt(Remote(), Logs(), model, |model.saved|);
    }

    method SetBalance(a: Address, balance: nat)
      requires Valid()
      modifies this`accountCache, this`accounts, this`model, rpc`db
      ensures Valid()
      ensures var acct := old(model).current.account(a);
        model == old(model).(current := WriteAccount(old(model).current, a, acct.(balance := balance)))
    {
      var acct := GetAccount(a);
      HashOfRead(a);
      SetAccount(a, acct.(balance := balance));
    }

    method SetNonce(a: Address, nonce: nat)
      requires Valid()
      modifies this`accountCache, this`accounts, this`model, rpc`db
      ensures Valid()
      ensures var acct := old(model).current.account(a);
        model == old(model).(current := WriteAccount(old(model).current, a, acct.(nonce := nonce)))
    {
      var acct := GetAccount(a);
      HashOfRead(a);
      SetAccount(a, acct.(nonce := nonce));
    }

    method SetCode(a: Address, bytecode: seq<Byte>)
      requires Valid()
      modifies this`accountCache, this`accounts, this`code, this`model, rpc`db
      ensures Valid()
      ensures var acct := old(model).current.account(a).(codeHash := Keccak(bytecode));
        && model == old(model).(current := WriteAccount(old(model).current, a, acct))
        && accountCache == old(accountCache)[a := acct] && accounts == Put(old(accounts), a, acct)
        && code == Put(old(code), Keccak(bytecode), bytecode)
    {
      hide Sound, PutAll, Upto;
      var acct := GetAccount(a);
      CodeWrite(Remote(), Logs(), model, bytecode);
      code := Put(code, Keccak(bytecode), bytecode);
      SetAccount(a, acct.(codeHash := Keccak(bytecode)));
    }

    method GetCodeOf(a: Address) returns (bytecode: seq<Byte>)
      requires Valid()
      modifies this`accountCache, this`accounts, this`code, this`model, rpc`db
      ensures Valid() && Keccak(bytecode) == old(model).current.account(a).codeHash && model == old(model)
    {
      hide Sound, PutAll, Upto;
      var acct := GetAccount(a);
      HashOfRead(a);
      if acct.codeHash == EMPTY_SHA3 {
        return [];
      }
      if acct.codeHash in Top(code) {
        return Top(code)[acct.codeHash];
      }
      var reply := rpc.Fetch(GetCode(a, block));           // MissingBytecode
      bytecode := reply.value.bs;
      SetCode(a, bytecode);
      Renamed(Remote(), Logs(), model, old(model).current);
      model := old(model);
    }

    method AccountExists(a: Address) returns (exists_: bool)
      requires Valid()
      modifies this`accountCache, rpc`db
      ensures Valid()
      ensures exists_ == (a in Top(accounts) || model.current.account(a).balance > 0 || model.current.account(a).nonce > 0)
    {
      if a in Top(accounts) {
        return true;
      }
      var balance := GetBalanceOf(a);
      var nonce := GetNonce(a);
      exists_ := balance > 0 || nonce > 0;
    }

    // ---- prefetching ---------------------------------------------------------------------------

    lemma UnwrittenIsRemote()
      requires Valid()
      ensures forall a: Address, s: Word :: (a, s) !in Top(dontfetch) ==>
                model.current.storage(a, s) == RemoteSlot(rpc.remote, block, a, s)
    {
      assert SoundAt(Remote(), Logs(), model, |model.saved|);
    }

    method AdoptAccount(a: Address, t: Touched, ghost base: Store)
      requires Valid() && a !in Known() && Above(Logs(), base)
      modifies this`accountCache, this`accounts, this`code, this`model, rpc`db
      ensures Valid() && Above(Logs(), base)
      ensures model == old(model).(current := WriteAccount(old(model).current, a, Prefetched(t)))
      ensures Top(accounts).Keys == old(Top(accounts)).Keys + {a} && accountCache.Keys == old(accountCache).Keys + {a}
    {
      hide Sound, Upto, PutAll, Answering, RemoteWorld, SameWorld, CacheOk;
      SetAccount(a, Account(OrElse(t.nonce, 0), OrElse(t.balance, 0), EMPTY_SHA3));
      PutTop(old(accounts), a, Account(OrElse(t.nonce, 0), OrElse(t.balance, 0), EMPTY_SHA3));
      PutAbove(old(accounts), base.accounts, map[a := Account(OrElse(t.nonce, 0), OrElse(t.balance, 0), EMPTY_SHA3)]);
      label before:
      SetCode(a, OrElse(t.code, []));
      PutTop(old@before(accounts), a, Prefetched(t));
      PutAbove(old@before(accounts), base.accounts, map[a := Prefetched(t)]);
      PutAbove(old(code), base.code, map[Prefetched(t).codeHash := OrElse(t.code, [])]);
      var w := WriteAccount(old(model).current, a, Prefetched(t));
      WriteTwice(old(model).current, a, Account(OrElse(t.nonce, 0), OrElse(t.balance, 0), EMPTY_SHA3), Prefetched(t));
      CacheSame(accountCache, model.current, w);
      Renamed(Remote(), Logs(), model, w);
      model := old(model).(current := w);
    }

    method AdoptStorage(a: Address, slots: seq<(Word, Word)>, ghost base: Store)
      requires Valid() && Above(Logs(), base)
      modifies this`storage, this`dontfetch, this`model
      ensures Valid() && Above(Logs(), base)
      ensures model == old(model).(current := model.current)
      ensures old(Top(dontfetch)).Keys <= Top(dontfetch).Keys
      ensures Kept(old(Top(dontfetch)).Keys, Known(), old(model).current, model.current)
      ensures (forall k :: 0 <= k < |slots| ==> SlotAgrees(rpc.remote, block, a, slots[k])) ==>
                SameWorld(old(model).current, model.current)
    {
      hide Sound, Upto, PutAll, RemoteSlot;
      for i := 0 to |slots|
        invariant Valid() && Above(Logs(), base)
        invariant model == old(model).(current := model.current)
        invariant old(Top(dontfetch)).Keys <= Top(dontfetch).Keys
        invariant Kept(old(Top(dontfetch)).Keys, Known(), old(model).current, model.current)
        invariant (forall k :: 0 <= k < i ==> SlotAgrees(rpc.remote, block, a, slots[k])) ==>
                    SameWorld(old(model).current, model.current)
      {
        var (slot, value) := slots[i];
        if !HaveStorage(a, slot) {
          UnwrittenIsRemote();
          if SlotAgrees(rpc.remote, block, a, slots[i]) { SlotMeans(rpc.remote, block, a, slots[i]); }
          assert SlotAgrees(rpc.remote, block, a, slots[i]) ==> model.current.storage(a, slot) == value;
          PutTop(dontfetch, (a, slot), ());
          PutAbove(storage, base.storage, map[(a, slot) := value]);
          PutAbove(dontfetch, base.dontfetch, map[(a, slot) := ()]);
          SetStorage(a, slot, value);
        }
      }
    }

    method AdoptEntry(a: Address, t: Touched, ghost base: Store)
      requires Valid() && Above(Logs(), base) && t.address == Canonical(a)
      modifies this, rpc`db
      ensures Valid() && Above(Logs(), base)
      ensures model == old(model).(current := model.current)
      ensures old(Top(dontfetch)).Keys <= Top(dontfetch).Keys && Known() == old(Known()) + {a}
      ensures Top(accounts).Keys == old(Top(accounts)).Keys + (if a in old(Known()) then {} else {a})
      ensures Kept(old(Top(dontfetch)).Keys, old(Known()), old(model).current, model.current)
      ensures TraceAgrees(rpc.remote, block, t) ==> SameWorld(old(model).current, model.current)
    {
      hide Sound, Upto, PutAll, RemoteSlot, RemoteAccount, Prefetched;
      if TraceAgrees(rpc.remote, block, t) { AgreesMeans(rpc.remote, block, t); }
      var known := GetAccountHelper(a);
      if known.None? {
        AdoptAccount(a, t, base);
      }
      AdoptStorage(a, t.storage, base);
    }

    /** The entries one by one, until one has a malformed address. */
    method AdoptEntries(trace: seq<Touched>, ghost base: Store) returns (ok: bool)
      requires Valid() && Above(Logs(), base)
      modifies this, rpc`db
      ensures Valid() && Above(Logs(), base) && ok == AllCanonical(trace)
      ensures model == old(model).(current := model.current)
      ensures Kept(old(Top(dontfetch)).Keys, old(Known()), old(model).current, model.current)
      ensures ok && AllAgree(rpc.remote, block, trace, |trace|) ==> SameWorld(old(model).current, model.current)
      ensures ok ==> forall x :: x in Top(accounts) <==>
                       x in old(Top(accounts)) || (Listed(trace, |trace|, x) && x !in old(Known()))
    {
      hide Sound, Upto, TraceAgrees, Answering, CacheOk, RemoteWorld, Listed;
      NoneListed(trace);
      for i := 0 to |trace|
        invariant Valid() && Above(Logs(), base)
        invariant model == old(model).(current := model.current)
        invariant old(Top(dontfetch)).Keys <= Top(dontfetch).Keys
        invariant Kept(old(Top(dontfetch)).Keys, old(Known()), old(model).current, model.current)
        invariant AllAgree(rpc.remote, block, trace, i) ==> SameWorld(old(model).current, model.current)
        invariant forall x :: x in Known() <==> x in old(Known()) || Listed(trace, i, x)
        invariant forall x :: x in Top(accounts) <==> x in old(Top(accounts)) || (Listed(trace, i, x) && x !in old(Known()))
        invariant forall k :: 0 <= k < i ==> trace[k].address.Canonical?
      {
        if trace[i].address.Malformed? {
          return false;
        }
        ListedNext(trace, i);
        AdoptEntry(trace[i].address.a, trace[i], base);
      }
      return true;
    }

    /** With a trace that agrees with the remote state nothing can be noticed but `account_exists`;
        with any trace, what was known stays; a malformed address restores every journal. */
    method TryPrefetch(msg: Message)
      requires Valid()
      modifies this, rpc`db
      ensures Valid()
      ensures var reply := rpc.remote(TraceCall(msg, block));
        && (reply.None? ==> Logs() == old(Logs()) && model == old(model))
        && (reply.Some? ==>
          var trace := reply.value.accounts;
          && model == old(model).(current := model.current, next := old(model).next + 1)
          && Kept(old(Top(dontfetch)).Keys, old(Known()), old(model).current, model.current)
          && (!AllCanonical(trace) ==> Logs() == old(Logs()) && model.current == old(model).current)
          && (AllAgree(rpc.remote, block, trace, |trace|) ==> model.current == old(model).current)
          && (AllCanonical(trace) ==> forall x :: x in Top(accounts) <==>
                x in old(Top(accounts)) || (Listed(trace, |trace|, x) && x !in old(Known()))))
    {
      hide Sound, Upto, PutAll, Find, SavedIds, AllAgree, Listed, AllCanonical, Kept, Opened, Discarded, Committed, Restore, Keep;
      var reply := rpc.Fetch(TraceCall(msg, block));
      if reply.None? {
        return;
      }
      var trace := reply.value.accounts;
      ghost var base := Logs();
      SnapshotTops(base, nextCheckpoint);
      var snapshot := Record();
      var ok := AdoptEntries(trace, base);
      if !ok {
        DiscardRestores(Remote(), Logs(), model, base, old(model), snapshot);
        var _ := Discard(snapshot);
        KeptSame(old(Top(dontfetch)).Keys, old(Known()), model.current);
        return;
      }
      CommitKeeps(Remote(), Logs(), model, old(model), snapshot);
      var _ := Commit(snapshot);
      if AllAgree(rpc.remote, block, trace, |trace|) {
        Renamed(Remote(), Logs(), model, old(model).current);
        KeptSame(old(Top(dontfetch)).Keys, old(Known()), old(model).current);
        model := model.(current := old(model).current);
      }
    }
  }

  lemma KeptSame(slots: set<(Address, Word)>, known: set<Address>, w: World)
    ensures Kept(slots, known, w, w)
  {}

  lemma NoneListed(trace: seq<Touched>)
    ensures forall x :: !Listed(trace, 0, x)
  {}

  lemma ListedNext(trace: seq<Touched>, n: nat)
    requires n < |trace| && trace[n].address.Canonical?
    ensures forall x :: Listed(trace, n + 1, x) <==> Listed(trace, n, x) || x == trace[n].address.a
  {
    forall x ensures Listed(trace, n + 1, x) <==> Listed(trace, n, x) || x == trace[n].address.a {
      if x == trace[n].address.a { assert trace[n].address == Canonical(x); }
    }
  }
}
