/** What a forked account database must look like: one mutable copy of the remote state at the pinned
    block, with snapshots. Below it, the journals of `AccountDBFork` as values and the relation
    between the two. */
module ForkModel {
  import opened Words
  import opened Journals
  import opened CachingRpc
  import opened Wrappers

  /** A collision-free hash. */
  datatype Hash = Keccak(preimage: seq<Byte>)

  const EMPTY_SHA3 := Keccak([])

  /** `eth.rlp.accounts.Account` without the storage root. */
  datatype Account = Account(nonce: nat, balance: nat, codeHash: Hash)

  // ---- the simple state -----------------------------------------------------------------------

  datatype World = World(storage: (Address, Word) -> Word, account: Address -> Account)

  datatype Saved = Saved(id: nat, world: World)

  datatype Chain = Chain(current: World, saved: seq<Saved>, next: nat)

  ghost function WriteSlot(w: World, a: Address, s: Word, v: Word): World {
    w.(storage := (x: Address, y: Word) => var r: Word := if x == a && y == s then v else w.storage(x, y); r)
  }

  ghost function WriteAccount(w: World, a: Address, acct: Account): World {
    w.(account := (x: Address) => if x == a then acct else w.account(x))
  }

  ghost predicate SameWorld(v: World, w: World) {
    && (forall a: Address, s: Word :: v.storage(a, s) == w.storage(a, s))
    && (forall a: Address :: v.account(a) == w.account(a))
  }

  ghost function SavedIds(c: Chain): (ids: seq<nat>)
    ensures |ids| == |c.saved| && forall i :: 0 <= i < |ids| ==> ids[i] == c.saved[i].id
  {
    seq(|c.saved|, i requires 0 <= i < |c.saved| => c.saved[i].id)
  }

  /** Checkpoint names only grow. */
  ghost predicate Named(c: Chain) {
    && (forall i :: 0 <= i < |c.saved| ==> c.saved[i].id < c.next)
    && (forall i, j :: 0 <= i < j < |c.saved| ==> c.saved[i].id < c.saved[j].id)
  }

  ghost function TakeSnapshot(c: Chain): Chain {
    Chain(c.current, c.saved + [Saved(c.next, c.current)], c.next + 1)
  }

  ghost function Restore(c: Chain, id: nat): Chain
    requires id in SavedIds(c)
  {
    var i := Find(SavedIds(c), id);
    c.(current := c.saved[i].world, saved := c.saved[..i])
  }

  ghost function Keep(c: Chain, id: nat): Chain
    requires id in SavedIds(c)
  {
    c.(saved := c.saved[..Find(SavedIds(c), id)])
  }

  // ---- the remote state -----------------------------------------------------------------------

  function Number(reply: Option<Reply>): nat {
    if reply.Some? && reply.value.Quantity? then reply.value.n else 0
  }

  function Bytes(reply: Option<Reply>): seq<Byte> {
    if reply.Some? && reply.value.Data? then reply.value.bs else []
  }

  function RemoteAccount(remote: Remote, block: nat, a: Address): Account {
    Account(Number(remote(GetTransactionCount(a, block))), Number(remote(GetBalance(a, block))),
            Keccak(Bytes(remote(GetCode(a, block)))))
  }

  function RemoteSlot(remote: Remote, block: nat, a: Address, s: Word): Word {
    Wrap(Number(remote(GetStorageAt(a, s, block))))
  }

  ghost function RemoteWorld(remote: Remote, block: nat): World {
    World((a: Address, s: Word) => RemoteSlot(remote, block, a, s), (a: Address) => RemoteAccount(remote, block, a))
  }

  ghost predicate IsQuantity(reply: Option<Reply>) {
    reply.Some? && reply.value.Quantity?
  }

  /** The node answers every state query at the pinned block with a value of the right kind. */
  ghost predicate Answering(remote: Remote, block: nat) {
    && (forall a: Address :: IsQuantity(remote(GetBalance(a, block))))
    && (forall a: Address :: IsQuantity(remote(GetTransactionCount(a, block))))
    && (forall a: Address :: remote(GetCode(a, block)).Some? && remote(GetCode(a, block)).value.Data?)
    && (forall a: Address, s: Word :: IsQuantity(remote(GetStorageAt(a, s, block)))
                                      && remote(GetStorageAt(a, s, block)).value.n < TWO256)
    && (forall m: Message :: remote(TraceCall(m, block)).Some? ==> remote(TraceCall(m, block)).value.Prestate?)
  }

  // ---- the journals ---------------------------------------------------------------------------

  datatype Store = Store(
    storage: Journal<(Address, Word), Word>,
    dontfetch: Journal<(Address, Word), ()>,
    accounts: Journal<Address, Account>,
    code: Journal<Hash, seq<Byte>>)

  /** All four journals opened the same checkpoints. */
  ghost predicate InStep(j: Store) {
    Ids(j.storage) == Ids(j.dontfetch) == Ids(j.accounts) == Ids(j.code)
  }

  ghost function WorldAt(c: Chain, d: nat): World
    requires d <= |c.saved|
  {
    if d == |c.saved| then c.current else c.saved[d].world
  }

  /** The maps read as the world `w`: what was written, else the remote state. */
  ghost predicate Shows(remote: World, st: map<(Address, Word), Word>, df: map<(Address, Word), ()>,
                        ac: map<Address, Account>, w: World) {
    && st.Keys == df.Keys
    && (forall a: Address, s: Word ::
          w.storage(a, s) == if (a, s) in df then st[(a, s)] else remote.storage(a, s))
    && (forall a: Address :: w.account(a) == if a in ac then ac[a] else remote.account(a))
  }

  /** The code of every written account can be found: stored, fetchable or empty. */
  ghost predicate CodeKnown(remote: World, ac: map<Address, Account>, cd: map<Hash, seq<Byte>>) {
    && (forall a :: a in ac ==> KnownHash(remote, cd, a, ac[a].codeHash))
    && (forall h :: h in cd ==> h == Keccak(cd[h]))
  }

  ghost predicate KnownHash(remote: World, cd: map<Hash, seq<Byte>>, a: Address, h: Hash) {
    h == EMPTY_SHA3 || h in cd || h == remote.account(a).codeHash
  }

  ghost predicate SoundAt(remote: World, j: Store, c: Chain, d: nat)
    requires InStep(j) && |c.saved| == |j.storage.layers| && d <= |c.saved|
  {
    assert |Ids(j.storage)| == |j.storage.layers| == |j.dontfetch.layers| == |j.accounts.layers| == |j.code.layers|;
    && Shows(remote, Upto(j.storage, d), Upto(j.dontfetch, d), Upto(j.accounts, d), WorldAt(c, d))
    && CodeKnown(remote, Upto(j.accounts, d), Upto(j.code, d))
  }

  /** At every checkpoint depth the journals read as the snapshot taken there. */
  ghost predicate Sound(remote: World, j: Store, c: Chain) {
    && InStep(j) && SavedIds(c) == Ids(j.storage) && Named(c)
    && (forall d :: 0 <= d <= |c.saved| ==> SoundAt(remote, j, c, d))
  }

  /** The journals after one write of a slot. */
  function SlotWritten(j: Store, a: Address, s: Word, v: Word): Store {
    j.(storage := Put(j.storage, (a, s), v), dontfetch := Put(j.dontfetch, (a, s), ()))
  }

  function Opened(j: Store, id: nat): Store {
    Store(Record(j.storage, id), Record(j.dontfetch, id), Record(j.accounts, id), Record(j.code, id))
  }

  function Discarded(j: Store, id: nat): Store
    requires id in Ids(j.storage) && id in Ids(j.dontfetch) && id in Ids(j.accounts) && id in Ids(j.code)
  {
    Store(Discard(j.storage, id), Discard(j.dontfetch, id), Discard(j.accounts, id), Discard(j.code, id))
  }

  function Committed(j: Store, id: nat): Store
    requires id in Ids(j.storage) && id in Ids(j.dontfetch) && id in Ids(j.accounts) && id in Ids(j.code)
  {
    Store(Commit(j.storage, id), Commit(j.dontfetch, id), Commit(j.accounts, id), Commit(j.code, id))
  }

  lemma SoundSteps(remote: World, j: Store, c: Chain)
    requires Sound(remote, j, c)
    ensures InStep(j) && SavedIds(c) == Ids(j.storage)
  {}

  lemma SlotShown(remote: World, st: map<(Address, Word), Word>, df: map<(Address, Word), ()>,
                  ac: map<Address, Account>, w: World, a: Address, s: Word, v: Word)
    requires Shows(remote, st, df, ac, w)
    ensures Shows(remote, st + map[(a, s) := v], df + map[(a, s) := ()], ac, WriteSlot(w, a, s, v))
  {}

  lemma AccountShown(remote: World, st: map<(Address, Word), Word>, df: map<(Address, Word), ()>,
                     ac: map<Address, Account>, cd: map<Hash, seq<Byte>>, w: World, a: Address, acct: Account)
    requires Shows(remote, st, df, ac, w) && CodeKnown(remote, ac, cd) && KnownHash(remote, cd, a, acct.codeHash)
    ensures Shows(remote, st, df, ac + map[a := acct], WriteAccount(w, a, acct))
    ensures CodeKnown(remote, ac + map[a := acct], cd)
  {}

  lemma CodeShown(remote: World, ac: map<Address, Account>, cd: map<Hash, seq<Byte>>, code: seq<Byte>)
    requires CodeKnown(remote, ac, cd)
    ensures CodeKnown(remote, ac, cd + map[Keccak(code) := code])
  {}

  lemma RenamedShown(remote: World, st: map<(Address, Word), Word>, df: map<(Address, Word), ()>,
                     ac: map<Address, Account>, v: World, w: World)
    requires Shows(remote, st, df, ac, v) && SameWorld(v, w)
    ensures Shows(remote, st, df, ac, w)
  {}

  lemma SlotWrite(remote: World, j: Store, c: Chain, a: Address, s: Word, v: Word)
    requires Sound(remote, j, c)
    ensures Sound(remote, SlotWritten(j, a, s, v), c.(current := WriteSlot(c.current, a, s, v)))
  {
    var j', c' := SlotWritten(j, a, s, v), c.(current := WriteSlot(c.current, a, s, v));
    hide Upto, PutAll, Find, Shows, CodeKnown;
    PutAllUpto(j.storage, map[(a, s) := v]);
    PutAllUpto(j.dontfetch, map[(a, s) := ()]);
    assert SavedIds(c') == SavedIds(c);
    assert SoundAt(remote, j, c, |c.saved|);
    SlotShown(remote, Top(j.storage), Top(j.dontfetch), Top(j.accounts), c.current, a, s, v);
    forall d | 0 <= d <= |c'.saved| ensures SoundAt(remote, j', c', d) {
      assert SoundAt(remote, j, c, d);
    }
  }

  lemma AccountWrite(remote: World, j: Store, c: Chain, a: Address, acct: Account)
    requires Sound(remote, j, c) && KnownHash(remote, Top(j.code), a, acct.codeHash)
    ensures Sound(remote, j.(accounts := Put(j.accounts, a, acct)), c.(current := WriteAccount(c.current, a, acct)))
  {
    var j', c' := j.(accounts := Put(j.accounts, a, acct)), c.(current := WriteAccount(c.current, a, acct));
    hide Upto, PutAll, Find, Shows, CodeKnown;
    PutAllUpto(j.accounts, map[a := acct]);
    assert SavedIds(c') == SavedIds(c);
    assert SoundAt(remote, j, c, |c.saved|);
    AccountShown(remote, Top(j.storage), Top(j.dontfetch), Top(j.accounts), Top(j.code), c.current, a, acct);
    forall d | 0 <= d <= |c'.saved| ensures SoundAt(remote, j', c', d) {
      assert SoundAt(remote, j, c, d);
    }
  }

  lemma CodeWrite(remote: World, j: Store, c: Chain, code: seq<Byte>)
    requires Sound(remote, j, c)
    ensures Sound(remote, j.(code := Put(j.code, Keccak(code), code)), c)
    ensures Keccak(code) in Top(Put(j.code, Keccak(code), code))
  {
    var j' := j.(code := Put(j.code, Keccak(code), code));
    hide Upto, PutAll, Find, Shows, CodeKnown;
    PutAllUpto(j.code, map[Keccak(code) := code]);
    assert SoundAt(remote, j, c, |c.saved|);
    CodeShown(remote, Top(j.accounts), Top(j.code), code);
    forall d | 0 <= d <= |c.saved| ensures SoundAt(remote, j', c, d) {
      assert SoundAt(remote, j, c, d);
    }
  }

  /** Only the content of the current world matters. */
  lemma Renamed(remote: World, j: Store, c: Chain, w: World)
    requires Sound(remote, j, c) && SameWorld(c.current, w)
    ensures Sound(remote, j, c.(current := w))
  {
    var c' := c.(current := w);
    hide Upto, Find, Shows, CodeKnown;
    assert SavedIds(c') == SavedIds(c);
    assert SoundAt(remote, j, c, |c.saved|);
    RenamedShown(remote, Top(j.storage), Top(j.dontfetch), Top(j.accounts), c.current, w);
    forall d | 0 <= d <= |c'.saved| ensures SoundAt(remote, j, c', d) {
      assert SoundAt(remote, j, c, d);
    }
  }

  lemma Opening(remote: World, j: Store, c: Chain)
    requires Sound(remote, j, c)
    ensures Sound(remote, Opened(j, c.next), TakeSnapshot(c))
  {
    var j', c' := Opened(j, c.next), TakeSnapshot(c);
    hide Upto, Find, Shows, CodeKnown;
    RecordUpto(j.storage, c.next);
    RecordUpto(j.dontfetch, c.next);
    RecordUpto(j.accounts, c.next);
    RecordUpto(j.code, c.next);
    assert SavedIds(c') == SavedIds(c) + [c.next];
    forall d | 0 <= d <= |c'.saved| ensures SoundAt(remote, j', c', d) {
      assert SoundAt(remote, j, c, if d <= |c.saved| then d else d - 1);
    }
  }

  lemma Discarding(remote: World, j: Store, c: Chain, id: nat)
    requires Sound(remote, j, c) && id in SavedIds(c)
    ensures Sound(remote, Discarded(j, id), Restore(c, id))
  {
    var j', c', i := Discarded(j, id), Restore(c, id), Find(SavedIds(c), id);
    hide Upto, Find, Shows, CodeKnown;
    DiscardUpto(j.storage, id);
    DiscardUpto(j.dontfetch, id);
    DiscardUpto(j.accounts, id);
    DiscardUpto(j.code, id);
    assert SavedIds(c') == SavedIds(c)[..i];
    forall d | 0 <= d <= |c'.saved| ensures SoundAt(remote, j', c', d) {
      assert SoundAt(remote, j, c, d);
    }
  }

  /** A depth whose maps and world come from a sound depth is sound. */
  lemma Unmoved(remote: World, j: Store, c: Chain, d: nat, j': Store, c': Chain, d': nat)
    requires InStep(j) && |c.saved| == |j.storage.layers| && d <= |c.saved|
    requires InStep(j') && |c'.saved| == |j'.storage.layers| && d' <= |c'.saved|
    requires |j.dontfetch.layers| == |j.accounts.layers| == |j.code.layers| == |j.storage.layers|
    requires |j'.dontfetch.layers| == |j'.accounts.layers| == |j'.code.layers| == |j'.storage.layers|
    requires Upto(j.storage, d) == Upto(j'.storage, d') && Upto(j.dontfetch, d) == Upto(j'.dontfetch, d')
    requires Upto(j.accounts, d) == Upto(j'.accounts, d') && Upto(j.code, d) == Upto(j'.code, d')
    requires WorldAt(c, d) == WorldAt(c', d') && SoundAt(remote, j, c, d)
    ensures SoundAt(remote, j', c', d')
  {
    hide Upto, Shows, CodeKnown;
  }

  lemma CommittedMaps(j: Store, id: nat, d: nat)
    requires InStep(j) && id in Ids(j.storage) && d <= Find(Ids(j.storage), id)
    ensures var j', i := Committed(j, id), Find(Ids(j.storage), id);
      var from := if d < i then d else |j.storage.layers|;
      && InStep(j') && Ids(j'.storage) == Ids(j.storage)[..i]
      && |j.dontfetch.layers| == |j.accounts.layers| == |j.code.layers| == |j.storage.layers|
      && |j'.dontfetch.layers| == |j'.accounts.layers| == |j'.code.layers| == |j'.storage.layers| == i
      && Upto(j.storage, from) == Upto(j'.storage, d) && Upto(j.dontfetch, from) == Upto(j'.dontfetch, d)
      && Upto(j.accounts, from) == Upto(j'.accounts, d) && Upto(j.code, from) == Upto(j'.code, d)
  {
    hide Upto, Find, Commit;
    CommitUpto(j.storage, id);
    CommitUpto(j.dontfetch, id);
    CommitUpto(j.accounts, id);
    CommitUpto(j.code, id);
  }

  lemma Committing(remote: World, j: Store, c: Chain, id: nat)
    requires Sound(remote, j, c) && id in SavedIds(c)
    ensures Sound(remote, Committed(j, id), Keep(c, id))
  {
    hide Upto, Find, Commit, SoundAt;
    var j', c', i := Committed(j, id), Keep(c, id), Find(SavedIds(c), id);
    CommittedMaps(j, id, 0);
    assert SavedIds(c') == SavedIds(c)[..i];
    forall d | 0 <= d <= |c'.saved| ensures SoundAt(remote, j', c', d) {
      CommittedMaps(j, id, d);
      Unmoved(remote, j, c, if d < i then d else |c.saved|, j', c', d);
    }
  }
}
