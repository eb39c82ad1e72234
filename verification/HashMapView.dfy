/** Reading a HashMap back out of storage: `Sha3PreimageTracer` and `SstoreTracer` of `boa/vm/py_evm.py`,
    `unwrap_storage_key`, `setpath` and `StorageVar.get` of `boa/contracts/vyper/vyper_contract.py`. */
module HashMapView {
  import opened Wrappers
  import opened Words
  import opened VyperLayout
  import opened VyperDecoder

  /** 32-byte words; the hash of 64 bytes is a free constructor of its two halves. */
  datatype Word32 = Plain(w: Word) | Keccak(hi: Word32, lo: Word32)

  type Preimages = map<Word32, (Word32, Word32)>

  /** The slot Vyper derives for the keys of a nested HashMap, outermost key first. */
  function Derive(slot: Word32, keys: seq<Word32>): Word32 {
    if keys == [] then slot else Keccak(Derive(slot, keys[..|keys| - 1]), keys[|keys| - 1])
  }

  ghost predicate Truthful(db: Preimages) {
    forall image :: image in db ==> image == Keccak(db[image].0, db[image].1)
  }

  /** Every hash on the way down from `k` has its preimage in the trace. */
  predicate Traced(db: Preimages, k: Word32) {
    k.Plain? || (k in db && Traced(db, k.hi))
  }

  lemma {:induction false} TracedGrows(db: Preimages, more: Preimages, k: Word32)
    requires Traced(db, k) && db.Keys <= more.Keys
    ensures Traced(more, k)
  {
    if k.Keccak? { TracedGrows(db, more, k.hi); }
  }

  // ---- the tracers ----------------------------------------------------------------------------

  class Traces {
    var sha3: Preimages
    var sstore: map<nat, set<Word32>>

    /** Preimages are true, and every touched slot can be unwrapped. */
    ghost predicate Valid()
      reads this
    {
      Truthful(sha3) && forall a, k :: a in sstore && k in sstore[a] ==> Traced(sha3, k)
    }

    constructor ()
      ensures Valid() && sha3 == map[] && sstore == map[]
    {
      sha3, sstore := map[], map[];
    }

    /** After SHA3 has run on `size` bytes; only 64-byte preimages are kept. */
    method TraceSha3(size: nat, hi: Word32, lo: Word32)
      requires Valid()
      modifies this`sha3
      ensures Valid() && sha3 == if size == 64 then old(sha3)[Keccak(hi, lo) := (hi, lo)] else old(sha3)
    {
      if size != 64 {
        return;
      }
      sha3 := sha3[Keccak(hi, lo) := (hi, lo)];
      forall a, k | a in sstore && k in sstore[a] ensures Traced(sha3, k) {
        TracedGrows(old(sha3), sha3, k);
      }
    }

    /** Before SSTORE runs; a contract only has hashes it computed. */
    method TraceSstore(account: nat, slot: Word32)
      requires Valid() && Traced(sha3, slot)
      modifies this`sstore
      ensures Valid()
      ensures var before := if account in old(sstore) then old(sstore)[account] else {};
        sstore == old(sstore)[account := before + {slot}]
    {
      var before := if account in sstore then sstore[account] else {};
      sstore := sstore[account := before + {slot}];
    }
  }

  // ---- undoing the hashes ---------------------------------------------------------------------

  function Unwrap(db: Preimages, k: Word32): (path: seq<Word32>)
    requires Truthful(db)
    ensures path != []
    decreases k
  {
    if k in db then Unwrap(db, db[k].0) + [db[k].1] else [k]
  }

  /** `unwrap_storage_key`: the inner function appends to `path`. */
  method UnwrapStorageKey(db: Preimages, k: Word32, path: seq<Word32>) returns (r: seq<Word32>)
    requires Truthful(db)
    ensures r == path + Unwrap(db, k)
    decreases k
  {
    if k in db {
      var (slot, key) := db[k];
      r := UnwrapStorageKey(db, slot, path);
      r := r + [key];
    } else {
      r := path + [k];
    }
  }

  /** Unwrapping a slot derived at any depth gives the root and the keys in order. */
  lemma {:induction false} UnwrapInverts(db: Preimages, slot: Word, keys: seq<Word32>)
    requires Truthful(db) && Traced(db, Derive(Plain(slot), keys))
    ensures Unwrap(db, Derive(Plain(slot), keys)) == [Plain(slot)] + keys
    decreases |keys|
  {
    if keys != [] {
      var n := |keys| - 1;
      UnwrapInverts(db, slot, keys[..n]);
      assert keys == keys[..n] + [keys[n]];
    }
  }

  /** Whatever unwraps to that root was derived from it. */
  lemma {:induction false} UnwrapIsDerived(db: Preimages, k: Word32)
    requires Truthful(db)
    ensures var path := Unwrap(db, k); k == Derive(path[0], path[1..])
    decreases k
  {
    if k in db {
      UnwrapIsDerived(db, db[k].0);
      var inner, path := Unwrap(db, db[k].0), Unwrap(db, k);
      assert path[1..] == inner[1..] + [db[k].1];
      assert path[1..][..|path[1..]| - 1] == inner[1..];
    }
  }

  // ---- nested dicts ---------------------------------------------------------------------------

  datatype Nested = Entry(v: Value) | Dict(entries: map<Value, Nested>)

  /** Dicts down to depth `d`, then values. */
  predicate Deep(n: Nested, d: nat)
    decreases d
  {
    if d == 0 then n.Entry? else n.Dict? && forall k :: k in n.entries ==> Deep(n.entries[k], d - 1)
  }

  function Lookup(n: Nested, path: seq<Value>): Option<Value>
    decreases |path|
  {
    if path == [] then if n.Entry? then Some(n.v) else None
    else if n.Dict? && path[0] in n.entries then Lookup(n.entries[path[0]], path[1..])
    else None
  }

  /** `setpath(lens, path, val)`. */
  function SetPath(n: Nested, path: seq<Value>, v: Value): (r: Nested)
    requires path != [] && Deep(n, |path|)
    ensures Deep(r, |path|)
    decreases |path|
  {
    if |path| == 1 then Dict(n.entries[path[0] := Entry(v)])
    else
      var inner := if path[0] in n.entries then n.entries[path[0]] else Dict(map[]);
      Dict(n.entries[path[0] := SetPath(inner, path[1..], v)])
  }

  /** One path is set and every other path of that length keeps its value. */
  lemma {:induction false} SetPathLookup(n: Nested, path: seq<Value>, v: Value, other: seq<Value>)
    requires path != [] && Deep(n, |path|) && |other| == |path|
    ensures Lookup(SetPath(n, path, v), other) == if other == path then Some(v) else Lookup(n, other)
    decreases |path|
  {
    if |path| == 1 {
      assert other[1..] == [];
      assert other == path <==> other[0] == path[0];
    } else {
      var inner := if path[0] in n.entries then n.entries[path[0]] else Dict(map[]);
      SetPathLookup(inner, path[1..], v, other[1..]);
      assert other == path <==> other[0] == path[0] && other[1..] == path[1..] by {
        assert other == [other[0]] + other[1..] && path == [path[0]] + path[1..];
      }
    }
  }

  // ---- StorageVar.get -------------------------------------------------------------------------

  /** `HashMap[key, value]`, the value a map again or a one-word type. */
  datatype MapType = HashMapT(key: Typ, value: MapType) | Base(typ: Typ)

  function Levels(ty: MapType): nat {
    if ty.HashMapT? then 1 + Levels(ty.value) else 0
  }

  function ValueType(ty: MapType): Typ {
    if ty.HashMapT? then ValueType(ty.value) else ty.typ
  }

  predicate WordType(t: Typ) {
    (t.BytesM? && t.m <= 32) || t.Address? || t.Bool? || t.Int?
  }

  predicate WordMap(ty: MapType) {
    if ty.HashMapT? then WordType(ty.key) && WordMap(ty.value) else WordType(ty.typ)
  }

  function DecodeWord(t: Typ, w: Word): Value {
    Decode(Memory(Bytes32(w)), t)
  }

  /** The word is how Vyper lays out a value of the type (keys are clamped). */
  predicate Canonical(t: Typ, w: Word)
    requires WordType(t)
  {
    WellTyped(t, DecodeWord(t, w)) && Encode(t, DecodeWord(t, w)) == Bytes32(w)
  }

  /** A key of the path that leads to this slot. */
  predicate KeyOf(x: Word32, k: Word32) {
    k.Keccak? && (x == k.lo || KeyOf(x, k.hi))
  }

  lemma {:induction false} DerivedKeys(slot: Word32, keys: seq<Word32>, x: Word32)
    requires x in keys
    ensures KeyOf(x, Derive(slot, keys))
    decreases |keys|
  {
    var n := |keys| - 1;
    assert keys == keys[..n] + [keys[n]];
    if x != keys[n] {
      DerivedKeys(slot, keys[..n], x);
    }
  }

  /** Words with the same bytes are the same word, among the keys of these slots: no two hashes collide and
      nothing has the bytes of a hash without being it. */
  ghost predicate Distinct(bytes: Word32 -> Word, ks: set<Word32>) {
    forall k, l, x, y :: k in ks && l in ks && KeyOf(x, k) && KeyOf(y, l) && bytes(x) == bytes(y) ==> x == y
  }

  /** The keys in a path fit the levels of the map. */
  predicate KeysOk(ty: MapType, bytes: Word32 -> Word, keys: seq<Word32>)
    requires WordMap(ty)
    decreases keys
  {
    |keys| == Levels(ty) &&
    (keys == [] || (Canonical(ty.key, bytes(keys[0])) && KeysOk(ty.value, bytes, keys[1..])))
  }

  function DecodeKeys(ty: MapType, bytes: Word32 -> Word, keys: seq<Word32>): (path: seq<Value>)
    requires WordMap(ty) && KeysOk(ty, bytes, keys)
    ensures |path| == |keys|
    decreases keys
  {
    if keys == [] then [] else [DecodeWord(ty.key, bytes(keys[0]))] + DecodeKeys(ty.value, bytes, keys[1..])
  }

  /** The key type at a depth. */
  function KeyType(ty: MapType, i: nat): Typ
    requires i < Levels(ty)
  {
    if i == 0 then ty.key else KeyType(ty.value, i - 1)
  }

  /** Each key of the path is decoded as the key type of its own level. */
  lemma {:induction false} KeyIs(ty: MapType, bytes: Word32 -> Word, keys: seq<Word32>, i: nat)
    requires WordMap(ty) && KeysOk(ty, bytes, keys) && i < |keys|
    ensures DecodeKeys(ty, bytes, keys)[i] == Decode(Memory(Bytes32(bytes(keys[i]))), KeyType(ty, i))
    decreases i
  {
    if i > 0 { KeyIs(ty.value, bytes, keys[1..], i - 1); }
  }

  lemma {:induction false} DecodeKeysInjective(ty: MapType, bytes: Word32 -> Word, a: seq<Word32>, b: seq<Word32>)
    requires WordMap(ty) && KeysOk(ty, bytes, a) && KeysOk(ty, bytes, b) && DecodeKeys(ty, bytes, a) == DecodeKeys(ty, bytes, b)
    requires forall x, y :: x in a && y in b && bytes(x) == bytes(y) ==> x == y
    ensures a == b
    decreases a
  {
    if a != [] {
      var p, q := DecodeKeys(ty, bytes, a), DecodeKeys(ty, bytes, b);
      assert p[0] == q[0] && p[1..] == DecodeKeys(ty.value, bytes, a[1..]) && q[1..] == DecodeKeys(ty.value, bytes, b[1..]);
      DecodeKeysInjective(ty.value, bytes, a[1..], b[1..]);
      assert Bytes32(bytes(a[0])) == Bytes32(bytes(b[0]));
      WordRoundTrip(bytes(a[0]));
      WordRoundTrip(bytes(b[0]));
      assert a == [a[0]] + a[1..] && b == [b[0]] + b[1..];
    }
  }

  /** Python's truth of a decoded word: an address or a bytesM is a non-empty string even when zero. */
  predicate Truthy(v: Value) {
    match v
    case VInt(n) => n != 0
    case VBool(b) => b
    case VBytes(bs) => bs != []
    case _ => true
  }

  /** Zero words are left out exactly for integers and booleans (and the empty bytes type). */
  lemma ZeroHiddenIff(t: Typ)
    requires WordType(t)
    ensures Truthy(DecodeWord(t, 0)) <==> t.Address? || (t.BytesM? && t.m > 0)
  {
    WordRoundTrip(0);
    var zero := Bytes32(0);
    assert zero[..32] == zero;
    if t.Bool? {
      assert zero == ToBytes(0, 31) + [0];
      assert zero[31..32] == [0];
      assert FromBytes([0]) == 0 by { assert [0][..0] == []; }
    }
  }

  /** A stored word whose value is put into the dict, in terms of the word: all addresses, all non-empty
      `bytesM`, integers other than 0, booleans with a set last byte. */
  predicate Kept(t: Typ, w: Word) {
    t.Address? || (t.BytesM? && t.m > 0) || (t.Int? && w != 0) || (t.Bool? && w % 256 != 0)
  }

  /** Python's truth of the decoded value, for every word, clamped or not. */
  lemma TruthyIff(t: Typ, w: Word)
    requires WordType(t)
    ensures Truthy(DecodeWord(t, w)) <==> Kept(t, w)
  {
    WordRoundTrip(w);
    var b := Bytes32(w);
    assert b[..32] == b;
    if t.Bool? {
      assert b == ToBytes(w / 256, 31) + [w % 256];
      assert b[31..32] == [w % 256];
      assert FromBytes([w % 256]) == w % 256 by { assert [w % 256][..0] == []; }
    }
  }

  /** On clamped words: everything is kept but the zero integer and `False`. */
  lemma TruthyClamped(t: Typ, w: Word)
    requires WordType(t) && Canonical(t, w)
    ensures Truthy(DecodeWord(t, w)) <==> t.Address? || (t.BytesM? && t.m > 0) || ((t.Int? || t.Bool?) && w != 0)
  {
    TruthyIff(t, w);
    if t.Bool? {
      WordRoundTrip(w);
      LastByte(w);
      if w % 256 == 0 { FromBytesLeadingZeros(31, [0]); assert FromBytes([0]) == 0 by { assert [0][..0] == []; } }
    }
  }

  lemma LastByte(w: Word)
    ensures Bytes32(w)[31] == w % 256
  {}

  /** A stored value is read back as itself. */
  lemma StoredIsRead(t: Typ, v: Value)
    requires WordType(t) && WellTyped(t, v)
    ensures |Encode(t, v)| == 32 && FromBytes(Encode(t, v)) < TWO256 && DecodeWord(t, FromBytes(Encode(t, v))) == v
  {
    EncodeLays(t, v);
    var e := Encode(t, v);
    BytesRoundTrip(e);
    EncodeDecode(t, v, []);
    assert e + [] == e;
  }

  /** Touched slot `k` puts value `v` at `path` of the map at `slot`. */
  ghost predicate Shows(ty: MapType, bytes: Word32 -> Word, slot: Word, storage: Word32 -> Word, k: Word32, path: seq<Value>, v: Value)
    requires WordMap(ty)
  {
    exists keys :: Located(ty, bytes, slot, k, keys) && path == DecodeKeys(ty, bytes, keys)
                   && v == DecodeWord(ValueType(ty), storage(k)) && Kept(ValueType(ty), storage(k))
  }

  ghost predicate Located(ty: MapType, bytes: Word32 -> Word, slot: Word, k: Word32, keys: seq<Word32>)
    requires WordMap(ty)
  {
    KeysOk(ty, bytes, keys) && k == Derive(Plain(slot), keys)
  }

  /** The dict holds what the slots in `done` show and nothing else. */
  ghost predicate Mirrors(ret: Nested, ty: MapType, bytes: Word32 -> Word, slot: Word, storage: Word32 -> Word, done: set<Word32>)
    requires WordMap(ty)
  {
    forall path: seq<Value>, v: Value :: |path| == Levels(ty) ==>
      (Lookup(ret, path) == Some(v) <==> exists k :: k in done && Shows(ty, bytes, slot, storage, k, path, v))
  }

  /** A traced slot shows at most one value, at the path its unwrapping gives. */
  lemma ShowsOnly(db: Preimages, ty: MapType, bytes: Word32 -> Word, slot: Word, storage: Word32 -> Word, k: Word32, path: seq<Value>, v: Value)
    requires Truthful(db) && Traced(db, k) && WordMap(ty) && Shows(ty, bytes, slot, storage, k, path, v)
    ensures Unwrap(db, k)[0] == Plain(slot) && KeysOk(ty, bytes, Unwrap(db, k)[1..])
    ensures path == DecodeKeys(ty, bytes, Unwrap(db, k)[1..]) && v == DecodeWord(ValueType(ty), storage(k)) && Kept(ValueType(ty), storage(k))
  {
    hide KeysOk, DecodeKeys, Unwrap;
    var keys :| Located(ty, bytes, slot, k, keys) && path == DecodeKeys(ty, bytes, keys)
                && v == DecodeWord(ValueType(ty), storage(k)) && Kept(ValueType(ty), storage(k));
    UnwrapInverts(db, slot, keys);
    assert ([Plain(slot)] + keys)[1..] == keys;
  }

  /** Conversely, a slot that unwraps to the root shows its value at that path if it is truthy. */
  lemma ShowsUnwrapped(db: Preimages, ty: MapType, bytes: Word32 -> Word, slot: Word, storage: Word32 -> Word, k: Word32)
    requires Truthful(db) && WordMap(ty) && Unwrap(db, k)[0] == Plain(slot) && KeysOk(ty, bytes, Unwrap(db, k)[1..])
    requires Kept(ValueType(ty), storage(k))
    ensures Shows(ty, bytes, slot, storage, k, DecodeKeys(ty, bytes, Unwrap(db, k)[1..]), DecodeWord(ValueType(ty), storage(k)))
  {
    hide KeysOk, DecodeKeys, Unwrap, DecodeWord;
    UnwrapIsDerived(db, k);
    assert Located(ty, bytes, slot, k, Unwrap(db, k)[1..]);
  }

  lemma MirrorsSkip(ret: Nested, ty: MapType, bytes: Word32 -> Word, slot: Word, storage: Word32 -> Word, done: set<Word32>, k: Word32)
    requires WordMap(ty) && Mirrors(ret, ty, bytes, slot, storage, done)
    requires forall path, v :: !Shows(ty, bytes, slot, storage, k, path, v)
    ensures Mirrors(ret, ty, bytes, slot, storage, done + {k})
  {
    hide Shows, Lookup, WordMap;
  }

  /** Different touched slots of the map have different paths. */
  lemma SamePathSameSlot(ty: MapType, bytes: Word32 -> Word, slot: Word, storage: Word32 -> Word, k: Word32, l: Word32, path: seq<Value>, v: Value, w: Value)
    requires WordMap(ty) && Shows(ty, bytes, slot, storage, k, path, v) && Shows(ty, bytes, slot, storage, l, path, w)
    requires Distinct(bytes, {k, l})
    ensures k == l && v == w
  {
    hide KeysOk, DecodeKeys, KeyOf, Derive;
    var a :| Located(ty, bytes, slot, k, a) && path == DecodeKeys(ty, bytes, a) && v == DecodeWord(ValueType(ty), storage(k));
    var b :| Located(ty, bytes, slot, l, b) && path == DecodeKeys(ty, bytes, b) && w == DecodeWord(ValueType(ty), storage(l));
    forall x, y | x in a && y in b && bytes(x) == bytes(y) ensures x == y {
      DerivedKeys(Plain(slot), a, x);
      DerivedKeys(Plain(slot), b, y);
    }
    DecodeKeysInjective(ty, bytes, a, b);
  }

  lemma Fewer(bytes: Word32 -> Word, ks: set<Word32>, fewer: set<Word32>)
    requires Distinct(bytes, ks) && fewer <= ks
    ensures Distinct(bytes, fewer)
  {}

  lemma MirrorsSet(ret: Nested, ty: MapType, bytes: Word32 -> Word, slot: Word, storage: Word32 -> Word, done: set<Word32>, k: Word32,
                   path: seq<Value>, v: Value)
    requires WordMap(ty) && Mirrors(ret, ty, bytes, slot, storage, done) && Deep(ret, Levels(ty))
    requires |path| == Levels(ty) > 0 && Shows(ty, bytes, slot, storage, k, path, v)
    requires forall p, w :: Shows(ty, bytes, slot, storage, k, p, w) ==> p == path && w == v
    requires Distinct(bytes, done + {k})
    ensures Mirrors(SetPath(ret, path, v), ty, bytes, slot, storage, done + {k})
  {
    hide Shows, Lookup, WordMap, SetPath, Deep, Distinct;
    var now := SetPath(ret, path, v);
    forall p: seq<Value>, w: Value | |p| == Levels(ty)
      ensures Lookup(now, p) == Some(w) <==> exists l :: l in done + {k} && Shows(ty, bytes, slot, storage, l, p, w)
    {
      SetPathLookup(ret, path, v, p);
      if p == path {
        if w == v { assert k in done + {k} && Shows(ty, bytes, slot, storage, k, p, w); }
        forall l | l in done + {k} && Shows(ty, bytes, slot, storage, l, p, w) ensures w == v {
          Fewer(bytes, done + {k}, {k, l});
          SamePathSameSlot(ty, bytes, slot, storage, k, l, path, v, w);
        }
      } else {
        assert !Shows(ty, bytes, slot, storage, k, p, w);
        if Lookup(ret, p) == Some(w) {
          var l :| l in done && Shows(ty, bytes, slot, storage, l, p, w);
          assert l in done + {k};
        }
      }
    }
  }

  class StorageVar {
    const slot: Word
    const typ: MapType

    constructor (slot: Word, typ: MapType)
      ensures this.slot == slot && this.typ == typ
    {
      this.slot, this.typ := slot, typ;
    }

    /** The decoded keys of a path, level by level, and the type reached. */
    method DecodePath(bytes: Word32 -> Word, keys: seq<Word32>) returns (path: seq<Value>, ty: MapType)
      requires WordMap(typ) && KeysOk(typ, bytes, keys)
      ensures path == DecodeKeys(typ, bytes, keys) && ty == Base(ValueType(typ))
    {
      path, ty := [], typ;
      for i := 0 to |keys|
        invariant WordMap(ty) && KeysOk(ty, bytes, keys[i..]) && ValueType(ty) == ValueType(typ)
        invariant path + DecodeKeys(ty, bytes, keys[i..]) == DecodeKeys(typ, bytes, keys)
      {
        assert keys[i..][0] == keys[i] && keys[i..][1..] == keys[i + 1..];
        path := path + [DecodeWord(ty.key, bytes(keys[i]))];
        ty := ty.value;
      }
      assert keys[|keys|..] == [];
    }

    /** `get` of a HashMap: exactly the touched keys whose stored word is kept, at their paths; keys of other
        variables are left out. */
    method Get(traces: Traces, account: nat, bytes: Word32 -> Word, storage: Word32 -> Word) returns (ret: Nested)
      requires traces.Valid() && WordMap(typ) && typ.HashMapT?
      requires account in traces.sstore ==> forall k :: k in traces.sstore[account] ==>
                 Unwrap(traces.sha3, k)[0] == Plain(slot) ==> KeysOk(typ, bytes, Unwrap(traces.sha3, k)[1..])
      requires account in traces.sstore ==> Distinct(bytes, traces.sstore[account])
      ensures Deep(ret, Levels(typ))
      ensures Mirrors(ret, typ, bytes, slot, storage, if account in traces.sstore then traces.sstore[account] else {})
    {
      hide KeysOk, DecodeKeys, Unwrap, DecodeWord, Shows, Lookup, WordMap, SetPath, Truthful, Traced, Distinct;
      var touched := if account in traces.sstore then traces.sstore[account] else {};
      ret := Dict(map[]);
      EmptyMirrors(typ, bytes, slot, storage);
      var rest, done := touched, {};
      while rest != {}
        invariant done + rest == touched && Deep(ret, Levels(typ)) && Mirrors(ret, typ, bytes, slot, storage, done)
        decreases rest
      {
        var k :| k in rest;
        var path := UnwrapStorageKey(traces.sha3, k, []);
        assert path == Unwrap(traces.sha3, k);
        ghost var v := DecodeWord(ValueType(typ), storage(k));
        if path[0] == Plain(slot) {
          var keys, ty := DecodePath(bytes, path[1..]);
          var val := DecodeWord(ty.typ, storage(k));
          ValueIsWord(typ);
          TruthyIff(ValueType(typ), storage(k));
          if Truthy(val) {
            ShowsUnwrapped(traces.sha3, typ, bytes, slot, storage, k);
            forall p, w | Shows(typ, bytes, slot, storage, k, p, w) ensures p == keys && w == v {
              ShowsOnly(traces.sha3, typ, bytes, slot, storage, k, p, w);
            }
            KeysLength(typ, bytes, path[1..]);
            Fewer(bytes, touched, done + {k});
            MirrorsSet(ret, typ, bytes, slot, storage, done, k, keys, val);
            ret := SetPath(ret, keys, val);
          } else {
            forall p, w ensures !Shows(typ, bytes, slot, storage, k, p, w) {
              if Shows(typ, bytes, slot, storage, k, p, w) { ShowsOnly(traces.sha3, typ, bytes, slot, storage, k, p, w); }
            }
            MirrorsSkip(ret, typ, bytes, slot, storage, done, k);
          }
        } else {
          forall p, w ensures !Shows(typ, bytes, slot, storage, k, p, w) {
            if Shows(typ, bytes, slot, storage, k, p, w) { ShowsOnly(traces.sha3, typ, bytes, slot, storage, k, p, w); }
          }
          MirrorsSkip(ret, typ, bytes, slot, storage, done, k);
        }
        rest, done := rest - {k}, done + {k};
      }
      assert done == touched;
    }
  }

  lemma {:induction false} ValueIsWord(ty: MapType)
    requires WordMap(ty)
    ensures WordType(ValueType(ty))
  {
    if ty.HashMapT? { ValueIsWord(ty.value); }
  }

  lemma KeysLength(ty: MapType, bytes: Word32 -> Word, keys: seq<Word32>)
    requires WordMap(ty) && KeysOk(ty, bytes, keys)
    ensures |keys| == Levels(ty)
  {}

  lemma EmptyMirrors(ty: MapType, bytes: Word32 -> Word, slot: Word, storage: Word32 -> Word)
    requires WordMap(ty) && ty.HashMapT?
    ensures Mirrors(Dict(map[]), ty, bytes, slot, storage, {})
  {}
}
