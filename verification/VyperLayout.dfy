/** How Vyper lays values out in memory: the specification `decode_vyper_object` has to invert. */
module VyperLayout {
  import opened Words

  datatype Field = Field(name: string, typ: Typ)

  datatype Typ =
    | BytesM(m: nat)
    | Address
    | Bool
    | Int(signed: bool)
    | Bytestring(bound: nat)                 // Bytes[bound], and String[bound] before decoding as text
    | SArray(sub: Typ, count: nat)
    | DArray(sub: Typ, bound: nat)
    | Struct(name: string, fields: seq<Field>)
    | Tuple(fields: seq<Field>)

  datatype Value =
    | VBytes(bs: seq<Byte>)
    | VAddress(bs: seq<Byte>)
    | VBool(b: bool)
    | VInt(n: int)
    | VList(vs: seq<Value>)
    | VStruct(name: string, keys: seq<string>, vs: seq<Value>)
    | VTuple(vs: seq<Value>)

  predicate HasFields(t: Typ) {
    t.Struct? || t.Tuple?
  }

  /** `memory_bytes_required`. */
  function MemSize(t: Typ): nat
    decreases t, 1, 0
  {
    match t
    case Bytestring(bound) => 32 + Ceil32(bound)
    case SArray(sub, count) => count * MemSize(sub)
    case DArray(sub, bound) => 32 + bound * MemSize(sub)
    case Struct(_, _) => FieldsSize(t, 0)
    case Tuple(_) => FieldsSize(t, 0)
    case _ => 32
  }

  /** The fields from number `i` on. */
  function FieldsSize(t: Typ, i: nat): nat
    requires HasFields(t) && i <= |t.fields|
    decreases t, 0, |t.fields| - i
  {
    if i == |t.fields| then 0 else MemSize(t.fields[i].typ) + FieldsSize(t, i + 1)
  }

  predicate InRange(n: int, signed: bool) {
    if signed then -(TWO256 / 2) <= n < TWO256 / 2 else 0 <= n < TWO256
  }

  /** Types Vyper can name: bytes1 to bytes32, bounds that fit a word. */
  predicate ValidType(t: Typ)
    decreases t
  {
    match t
    case BytesM(m) => m <= 32
    case Bytestring(bound) => bound < TWO256
    case SArray(sub, _) => ValidType(sub)
    case DArray(sub, bound) => bound < TWO256 && ValidType(sub)
    case Struct(_, fields) => forall i :: 0 <= i < |fields| ==> ValidType(fields[i].typ)
    case Tuple(fields) => forall i :: 0 <= i < |fields| ==> ValidType(fields[i].typ)
    case _ => true
  }

  function Names(fields: seq<Field>): (names: seq<string>)
    ensures |names| == |fields| && forall i :: 0 <= i < |fields| ==> names[i] == fields[i].name
  {
    seq(|fields|, i requires 0 <= i < |fields| => fields[i].name)
  }

  predicate WellTyped(t: Typ, v: Value)
    decreases t
  {
    match t
    case BytesM(m) => v.VBytes? && |v.bs| == m
    case Address => v.VAddress? && |v.bs| == 20
    case Bool => v.VBool?
    case Int(signed) => v.VInt? && InRange(v.n, signed)
    case Bytestring(bound) => v.VBytes? && |v.bs| <= bound
    case SArray(sub, count) => v.VList? && |v.vs| == count && forall i :: 0 <= i < |v.vs| ==> WellTyped(sub, v.vs[i])
    case DArray(sub, bound) => v.VList? && |v.vs| <= bound && forall i :: 0 <= i < |v.vs| ==> WellTyped(sub, v.vs[i])
    case Struct(name, fields) =>
      v.VStruct? && v.name == name && v.keys == Names(fields) && |v.vs| == |fields|
      && forall i :: 0 <= i < |fields| ==> WellTyped(fields[i].typ, v.vs[i])
    case Tuple(fields) =>
      v.VTuple? && |v.vs| == |fields| && forall i :: 0 <= i < |fields| ==> WellTyped(fields[i].typ, v.vs[i])
  }

  // ---- the layout -----------------------------------------------------------------------------

  /** `mem` holds `v`; padding and unused room may hold anything. */
  predicate Lays(t: Typ, v: Value, mem: seq<Byte>)
    decreases t, 1, 0
  {
    |mem| == MemSize(t) &&
    match t
    case BytesM(m) => v.VBytes? && m <= 32 && v.bs == mem[..m]
    case Address => v.VAddress? && v.bs == mem[12..32]
    case Bool => v.VBool? && mem[31] == if v.b then 1 else 0
    case Int(signed) => v.VInt? && InRange(v.n, signed) && mem == Bytes32(Wrap(v.n))
    case Bytestring(bound) =>
      v.VBytes? && |v.bs| <= bound && bound < TWO256
      && mem[..32] == Bytes32(|v.bs|) && mem[32..32 + |v.bs|] == v.bs
    case SArray(sub, count) => v.VList? && |v.vs| == count && LaysList(sub, v.vs, mem)
    case DArray(sub, bound) =>
      v.VList? && |v.vs| <= bound && bound < TWO256 && mem[..32] == Bytes32(|v.vs|) && LaysList(sub, v.vs, mem[32..])
    case Struct(name, fields) =>
      v.VStruct? && v.name == name && v.keys == Names(fields) && |v.vs| == |fields| && LaysFields(t, 0, v.vs, mem)
    case Tuple(fields) => v.VTuple? && |v.vs| == |fields| && LaysFields(t, 0, v.vs, mem)
  }

  /** Values one after another from the start of `mem`. */
  predicate LaysList(sub: Typ, vs: seq<Value>, mem: seq<Byte>)
    decreases sub, 2, |vs|
  {
    var n := MemSize(sub);
    vs == [] || (n <= |mem| && Lays(sub, vs[0], mem[..n]) && LaysList(sub, vs[1..], mem[n..]))
  }

  predicate LaysFields(t: Typ, i: nat, vs: seq<Value>, mem: seq<Byte>)
    requires HasFields(t) && i <= |t.fields| && |vs| == |t.fields| - i
    decreases t, 0, |t.fields| - i
  {
    i == |t.fields| ||
    (var n := MemSize(t.fields[i].typ);
     n <= |mem| && Lays(t.fields[i].typ, vs[0], mem[..n]) && LaysFields(t, i + 1, vs[1..], mem[n..]))
  }

  /** A layout with zero padding. */
  function Encode(t: Typ, v: Value): seq<Byte>
    requires WellTyped(t, v) && ValidType(t)
    decreases t, 1, 0
  {
    match t
    case BytesM(m) => v.bs + Zeros(32 - m)
    case Address => Zeros(12) + v.bs
    case Bool => Zeros(31) + [if v.b then 1 else 0]
    case Int(_) => Bytes32(Wrap(v.n))
    case Bytestring(bound) => Bytes32(|v.bs|) + v.bs + Zeros(Ceil32(bound) - |v.bs|)
    case SArray(sub, _) => EncodeList(sub, v.vs)
    case DArray(sub, bound) => Bytes32(|v.vs|) + EncodeList(sub, v.vs) + Zeros(Room(bound - |v.vs|, MemSize(sub)))
    case Struct(_, _) => EncodeFields(t, 0, v.vs)
    case Tuple(_) => EncodeFields(t, 0, v.vs)
  }

  function Room(count: nat, size: nat): nat {
    count * size
  }

  function EncodeList(sub: Typ, vs: seq<Value>): seq<Byte>
    requires ValidType(sub) && forall i :: 0 <= i < |vs| ==> WellTyped(sub, vs[i])
    decreases sub, 2, |vs|
  {
    if vs == [] then [] else Encode(sub, vs[0]) + EncodeList(sub, vs[1..])
  }

  function EncodeFields(t: Typ, i: nat, vs: seq<Value>): seq<Byte>
    requires HasFields(t) && ValidType(t) && i <= |t.fields| && |vs| == |t.fields| - i
    requires forall k :: 0 <= k < |vs| ==> WellTyped(t.fields[i + k].typ, vs[k])
    decreases t, 0, |t.fields| - i
  {
    if i == |t.fields| then []
    else
      assert forall k :: 0 <= k < |vs[1..]| ==> WellTyped(t.fields[i + 1 + k].typ, vs[1..][k]) by {
        forall k | 0 <= k < |vs[1..]| ensures WellTyped(t.fields[i + 1 + k].typ, vs[1..][k]) {
          assert t.fields[i + (1 + k)] == t.fields[i + 1 + k] && vs[1..][k] == vs[1 + k];
        }
      }
      Encode(t.fields[i].typ, vs[0]) + EncodeFields(t, i + 1, vs[1..])
  }

  predicate Scalar(t: Typ) {
    t.BytesM? || t.Address? || t.Bool? || t.Int? || t.Bytestring?
  }

  lemma ScalarLays(t: Typ, v: Value)
    requires Scalar(t) && WellTyped(t, v) && ValidType(t)
    ensures Lays(t, v, Encode(t, v))
  {
    hide LaysList, LaysFields, EncodeList, EncodeFields, FieldsSize;
    if t.Bytestring? {
      assert Encode(t, v)[..32] == Bytes32(|v.bs|);
      assert Encode(t, v)[32..32 + |v.bs|] == v.bs;
    } else if t.Int? {
      assert |Encode(t, v)| == 32;
    }
  }

  lemma DArrayLays(sub: Typ, bound: nat, vs: seq<Value>)
    requires ValidType(DArray(sub, bound)) && WellTyped(DArray(sub, bound), VList(vs))
    requires |EncodeList(sub, vs)| == |vs| * MemSize(sub)
    requires LaysList(sub, vs, EncodeList(sub, vs) + Zeros(Room(bound - |vs|, MemSize(sub))))
    ensures Lays(DArray(sub, bound), VList(vs), Encode(DArray(sub, bound), VList(vs)))
  {
    hide LaysList, LaysFields, EncodeList, EncodeFields, FieldsSize;
    var mem := Encode(DArray(sub, bound), VList(vs));
    var rest := Zeros(Room(bound - |vs|, MemSize(sub)));
    assert mem == Bytes32(|vs|) + (EncodeList(sub, vs) + rest);
    assert mem[..32] == Bytes32(|vs|) && mem[32..] == EncodeList(sub, vs) + rest;
    assert |vs| * MemSize(sub) + (bound - |vs|) * MemSize(sub) == bound * MemSize(sub);
  }

  /** Every well-typed value has a layout. */
  lemma {:induction false} EncodeLays(t: Typ, v: Value)
    requires WellTyped(t, v) && ValidType(t)
    ensures Lays(t, v, Encode(t, v))
    decreases t, 1, 0
  {
    hide LaysList, LaysFields, EncodeList, EncodeFields;
    match t
    case SArray(sub, count) =>
      EncodeListLays(sub, v.vs, []);
      assert EncodeList(sub, v.vs) + [] == EncodeList(sub, v.vs);
    case DArray(sub, bound) =>
      EncodeListLays(sub, v.vs, Zeros(Room(bound - |v.vs|, MemSize(sub))));
      DArrayLays(sub, bound, v.vs);
    case Struct(_, _) => EncodeFieldsLays(t, 0, v.vs);
    case Tuple(_) => EncodeFieldsLays(t, 0, v.vs);
    case _ => ScalarLays(t, v);
  }

  lemma CountMonotone(k: nat, m: nat, n: nat)
    requires m <= n
    ensures 0 <= m * k <= n * k
  {
    assert (n - m) * k >= 0;
  }

  lemma Distribute(k: int, n: int)
    ensures (k + 1) * n == n + k * n
  {}

  lemma {:induction false} EncodeListLays(sub: Typ, vs: seq<Value>, rest: seq<Byte>)
    requires ValidType(sub) && forall i :: 0 <= i < |vs| ==> WellTyped(sub, vs[i])
    ensures |EncodeList(sub, vs)| == |vs| * MemSize(sub)
    ensures LaysList(sub, vs, EncodeList(sub, vs) + rest)
    decreases sub, 2, |vs|
  {
    hide Encode, MemSize, ValidType;
    if vs != [] {
      var n, first, tail := MemSize(sub), Encode(sub, vs[0]), EncodeList(sub, vs[1..]) + rest;
      EncodeLays(sub, vs[0]);
      EncodeListLays(sub, vs[1..], rest);
      assert |first| == n;
      assert EncodeList(sub, vs) + rest == first + tail;
      assert (first + tail)[..n] == first && (first + tail)[n..] == tail;
      assert |vs| * n == n + |vs[1..]| * n by { Distribute(|vs| - 1, n); }
    }
  }

  lemma {:induction false} EncodeFieldsLays(t: Typ, i: nat, vs: seq<Value>)
    requires HasFields(t) && ValidType(t) && i <= |t.fields| && |vs| == |t.fields| - i
    requires forall k :: 0 <= k < |vs| ==> WellTyped(t.fields[i + k].typ, vs[k])
    ensures |EncodeFields(t, i, vs)| == FieldsSize(t, i)
    ensures LaysFields(t, i, vs, EncodeFields(t, i, vs))
    decreases t, 0, |t.fields| - i
  {
    hide Encode, MemSize;
    if i < |t.fields| {
      assert WellTyped(t.fields[i + 0].typ, vs[0]);
      EncodeLays(t.fields[i].typ, vs[0]);
      forall k | 0 <= k < |vs[1..]| ensures WellTyped(t.fields[i + 1 + k].typ, vs[1..][k]) {
        assert t.fields[i + (1 + k)] == t.fields[i + 1 + k] && vs[1..][k] == vs[1 + k];
      }
      EncodeFieldsLays(t, i + 1, vs[1..]);
      var n, mem := MemSize(t.fields[i].typ), EncodeFields(t, i, vs);
      assert mem[..n] == Encode(t.fields[i].typ, vs[0]) && mem[n..] == EncodeFields(t, i + 1, vs[1..]);
    }
  }
}
