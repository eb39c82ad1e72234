/** `boa/contracts/vyper/decoder_utils.py`: decoding Vyper values out of memory or storage. */
module VyperDecoder {
  import opened Words
  import opened VyperLayout

  /** What is sliced at the top level: a memory view, or storage from slot `key` on. */
  datatype Source = Memory(mem: seq<Byte>) | Storage(slots: nat -> Word, key: nat)

  /** The slots `key .. key + n` one after another. */
  function Flatten(slots: nat -> Word, key: nat, n: nat): (r: seq<Byte>)
    ensures |r| == 32 * n
  {
    if n == 0 then [] else Flatten(slots, key, n - 1) + Bytes32(slots(key + n - 1))
  }

  /** The bytes of consecutive slots, each slot's most significant first. */
  lemma {:induction false} FlattenAt(slots: nat -> Word, key: nat, n: nat, i: nat, j: nat)
    requires i < n && j < 32
    ensures Flatten(slots, key, n)[32 * i + j] == Bytes32(slots(key + i))[j]
    decreases n
  {
    if i < n - 1 { FlattenAt(slots, key, n - 1, i, j); }
  }

  /** `src[lo:hi]`. */
  function Read(src: Source, lo: nat, hi: nat): (r: seq<Byte>)
    requires lo <= hi
    ensures |r| <= hi - lo
  {
    match src
    case Memory(mem) => Slice(mem, lo, hi)
    case Storage(slots, key) => Flatten(slots, key, Ceil32(hi) / 32)[lo..hi]
  }

  function GetLength(word: seq<Byte>, bound: nat): (len: nat)
    ensures len <= bound
  {
    var n := FromBytes(Slice(word, 0, 32));
    if n > bound then bound else n
  }

  /** `int.from_bytes(...)` of at most 32 bytes, read back as signed if asked. */
  function DecodeInt(bs: seq<Byte>, signed: bool): int
    requires |bs| <= 32
  {
    ShortBytesAreWord(bs);
    if signed then AsSigned(FromBytes(bs)) else FromBytes(bs)
  }

  function Decode(src: Source, t: Typ): Value
    decreases t, 1, 0
  {
    match t
    case BytesM(m) => VBytes(Read(src, 0, m))
    case Address => VAddress(Read(src, 12, 32))
    case Bool => VBool(FromBytes(Read(src, 31, 32)) != 0)
    case Int(signed) => VInt(DecodeInt(Read(src, 0, 32), signed))
    case Bytestring(bound) => VBytes(Read(src, 32, 32 + GetLength(Read(src, 0, 32), bound)))
    case SArray(sub, count) => VList(DecodeList(src, sub, 0, count))
    case DArray(sub, bound) => VList(DecodeList(src, sub, 32, GetLength(Read(src, 0, 32), bound)))
    case Struct(name, fields) => VStruct(name, Names(fields), DecodeFields(src, t, 0, 0))
    case Tuple(_) => VTuple(DecodeFields(src, t, 0, 0))
  }

  function DecodeList(src: Source, sub: Typ, ofst: nat, count: nat): (vs: seq<Value>)
    ensures |vs| == count
    decreases sub, 2, count
  {
    var n := MemSize(sub);
    if count == 0 then [] else [Decode(Memory(Read(src, ofst, ofst + n)), sub)] + DecodeList(src, sub, ofst + n, count - 1)
  }

  function DecodeFields(src: Source, t: Typ, i: nat, ofst: nat): (vs: seq<Value>)
    requires HasFields(t) && i <= |t.fields|
    ensures |vs| == |t.fields| - i
    decreases t, 0, |t.fields| - i
  {
    if i == |t.fields| then []
    else
      var n := MemSize(t.fields[i].typ);
      [Decode(Memory(Read(src, ofst, ofst + n)), t.fields[i].typ)] + DecodeFields(src, t, i + 1, ofst + n)
  }

  lemma ListStep(src: Source, sub: Typ, ofst: nat, count: nat)
    requires count > 0
    ensures var n := MemSize(sub);
      DecodeList(src, sub, ofst, count) ==
        [Decode(Memory(Read(src, ofst, ofst + n)), sub)] + DecodeList(src, sub, ofst + n, count - 1)
  {
    hide MemSize, Read, Decode;
  }

  lemma FieldsStep(src: Source, t: Typ, i: nat, ofst: nat)
    requires HasFields(t) && i < |t.fields|
    ensures var n := MemSize(t.fields[i].typ);
      DecodeFields(src, t, i, ofst) ==
        [Decode(Memory(Read(src, ofst, ofst + n)), t.fields[i].typ)] + DecodeFields(src, t, i + 1, ofst + n)
  {
    hide MemSize, Read, Decode;
  }

  lemma SliceOfDrop<T>(s: seq<T>, ofst: nat, n: nat)
    requires ofst + n <= |s|
    ensures s[ofst..][..n] == s[ofst..ofst + n] && s[ofst..][n..] == s[ofst + n..]
  {}

  // ---- only the first MemSize bytes matter ----------------------------------------------------

  ghost predicate Agree(p: Source, q: Source, n: nat) {
    forall lo, hi :: 0 <= lo <= hi <= n ==> Read(p, lo, hi) == Read(q, lo, hi)
  }

  lemma SameRead(p: Source, q: Source, n: nat, lo: nat, hi: nat)
    requires Agree(p, q, n) && lo <= hi <= n
    ensures Read(p, lo, hi) == Read(q, lo, hi)
  {}

  lemma NoElements(src: Source, sub: Typ, ofst: nat)
    ensures DecodeList(src, sub, ofst, 0) == []
  {}

  lemma {:induction false} ListAgrees(p: Source, q: Source, n: nat, sub: Typ, ofst: nat, count: nat)
    requires Agree(p, q, n) && ofst + count * MemSize(sub) <= n
    ensures DecodeList(p, sub, ofst, count) == DecodeList(q, sub, ofst, count)
    decreases count
  {
    hide MemSize, Read, Decode, DecodeList, Agree;
    if count > 0 {
      var k := MemSize(sub);
      assert count * k == k + (count - 1) * k by { Distribute(count - 1, k); }
      CountMonotone(k, 0, count - 1);
      SameRead(p, q, n, ofst, ofst + k);
      ListAgrees(p, q, n, sub, ofst + k, count - 1);
      ListStep(p, sub, ofst, count);
      ListStep(q, sub, ofst, count);
    } else {
      NoElements(p, sub, ofst);
      NoElements(q, sub, ofst);
    }
  }

  lemma {:induction false} FieldsAgree(p: Source, q: Source, n: nat, t: Typ, i: nat, ofst: nat)
    requires HasFields(t) && i <= |t.fields|
    requires Agree(p, q, n) && ofst + FieldsSize(t, i) <= n
    ensures DecodeFields(p, t, i, ofst) == DecodeFields(q, t, i, ofst)
    decreases |t.fields| - i
  {
    hide MemSize, Read;
    if i < |t.fields| {
      FieldsAgree(p, q, n, t, i + 1, ofst + MemSize(t.fields[i].typ));
    }
  }

  lemma ScalarAgrees(p: Source, q: Source, t: Typ)
    requires Scalar(t) && Agree(p, q, MemSize(t)) && ValidType(t)
    ensures Decode(p, t) == Decode(q, t)
  {
    hide Read, DecodeList, DecodeFields, FieldsSize;
  }

  /** Two sources that agree on the first `MemSize(t)` bytes decode alike, garbage or not. */
  lemma DecodeAgrees(p: Source, q: Source, t: Typ)
    requires Agree(p, q, MemSize(t)) && ValidType(t)
    ensures Decode(p, t) == Decode(q, t)
  {
    hide Read, DecodeList, DecodeFields, FieldsSize;
    match t
    case SArray(sub, count) => ListAgrees(p, q, MemSize(t), sub, 0, count);
    case DArray(sub, bound) =>
      CountMonotone(MemSize(sub), 0, bound);
      assert Read(p, 0, 32) == Read(q, 0, 32);
      var len := GetLength(Read(p, 0, 32), bound);
      CountMonotone(MemSize(sub), len, bound);
      ListAgrees(p, q, MemSize(t), sub, 32, len);
    case Struct(_, _) => FieldsAgree(p, q, MemSize(t), t, 0, 0);
    case Tuple(_) => FieldsAgree(p, q, MemSize(t), t, 0, 0);
    case _ => ScalarAgrees(p, q, t);
  }

  /** Bytes past the type's size are never read. */
  lemma DecodeIsLocal(mem: seq<Byte>, tail: seq<Byte>, t: Typ)
    requires MemSize(t) <= |mem| && ValidType(t)
    ensures Decode(Memory(mem + tail), t) == Decode(Memory(mem), t)
  {
    forall lo, hi | 0 <= lo <= hi <= MemSize(t) ensures Read(Memory(mem + tail), lo, hi) == Read(Memory(mem), lo, hi) {
      assert (mem + tail)[lo..hi] == mem[lo..hi];
    }
    DecodeAgrees(Memory(mem + tail), Memory(mem), t);
  }

  lemma {:induction false} FlattenPrefix(slots: nat -> Word, key: nat, m: nat, n: nat)
    requires m <= n
    ensures Flatten(slots, key, m) <= Flatten(slots, key, n)
  {
    if m < n { FlattenPrefix(slots, key, m, n - 1); }
  }

  /** A slice of storage is a slice of all the slots flattened. */
  lemma ReadStorage(slots: nat -> Word, key: nat, n: nat, lo: nat, hi: nat)
    requires lo <= hi <= 32 * n
    ensures Read(Storage(slots, key), lo, hi) == Flatten(slots, key, n)[lo..hi]
  {
    hide Flatten;
    var m := Ceil32(hi) / 32;
    FlattenPrefix(slots, key, m, n);
    assert Flatten(slots, key, n)[..32 * m] == Flatten(slots, key, m);
  }

  /** Decoding through storage slots is decoding the flattened slots. */
  lemma DecodeStorage(slots: nat -> Word, key: nat, t: Typ)
    requires ValidType(t)
    ensures Decode(Storage(slots, key), t) == Decode(Memory(Flatten(slots, key, Ceil32(MemSize(t)) / 32)), t)
  {
    hide Read, Flatten, Decode, MemSize, ValidType;
    var n := Ceil32(MemSize(t)) / 32;
    var flat := Flatten(slots, key, n);
    forall lo, hi | 0 <= lo <= hi <= MemSize(t)
      ensures Read(Storage(slots, key), lo, hi) == Read(Memory(flat), lo, hi)
    {
      ReadStorage(slots, key, n, lo, hi);
      ReadMemory(flat, lo, hi);
    }
    DecodeAgrees(Storage(slots, key), Memory(flat), t);
  }

  // ---- bounded on arbitrary bytes -------------------------------------------------------------

  lemma {:induction false} ListTyped(mem: seq<Byte>, sub: Typ, ofst: nat, count: nat)
    requires ValidType(sub) && ofst + count * MemSize(sub) <= |mem|
    ensures forall i :: 0 <= i < count ==> WellTyped(sub, DecodeList(Memory(mem), sub, ofst, count)[i])
    decreases sub, 2, count
  {
    hide MemSize, WellTyped, Decode, DecodeList, Read;
    if count > 0 {
      var k := MemSize(sub);
      assert count * k == k + (count - 1) * k by { Distribute(count - 1, k); }
      CountMonotone(k, 0, count - 1);
      assert Read(Memory(mem), ofst, ofst + k) == mem[ofst..ofst + k] by { ReadMemory(mem, ofst, ofst + k); }
      DecodeTyped(mem[ofst..ofst + k], sub);
      ListTyped(mem, sub, ofst + k, count - 1);
      ListStep(Memory(mem), sub, ofst, count);
    }
  }

  predicate FieldTyped(t: Typ, k: nat, v: Value)
    requires HasFields(t) && k < |t.fields|
  {
    WellTyped(t.fields[k].typ, v)
  }

  lemma {:induction false} FieldsTyped(mem: seq<Byte>, t: Typ, i: nat, ofst: nat)
    requires HasFields(t) && ValidType(t) && i <= |t.fields| && ofst + FieldsSize(t, i) <= |mem|
    ensures forall k :: 0 <= k < |t.fields| - i ==> FieldTyped(t, i + k, DecodeFields(Memory(mem), t, i, ofst)[k])
    decreases t, 0, |t.fields| - i
  {
    hide MemSize, WellTyped, Decode, DecodeFields, Read;
    if i < |t.fields| {
      var n := MemSize(t.fields[i].typ);
      assert Read(Memory(mem), ofst, ofst + n) == mem[ofst..ofst + n] by { ReadMemory(mem, ofst, ofst + n); }
      DecodeTyped(mem[ofst..ofst + n], t.fields[i].typ);
      FieldsTyped(mem, t, i + 1, ofst + n);
      FieldsStep(Memory(mem), t, i, ofst);
      var vs, rest := DecodeFields(Memory(mem), t, i, ofst), DecodeFields(Memory(mem), t, i + 1, ofst + n);
      forall k | 0 <= k < |t.fields| - i ensures FieldTyped(t, i + k, vs[k]) {
        if k > 0 { assert vs[k] == rest[k - 1] && i + k == i + 1 + (k - 1); }
      }
    }
  }

  lemma ReadMemory(mem: seq<Byte>, lo: nat, hi: nat)
    requires lo <= hi <= |mem|
    ensures Read(Memory(mem), lo, hi) == mem[lo..hi]
  {}

  /** Whatever the bytes, the result is a value of the type: no container exceeds its bound. */
  lemma {:induction false} DecodeTyped(mem: seq<Byte>, t: Typ)
    requires ValidType(t) && MemSize(t) <= |mem|
    ensures WellTyped(t, Decode(Memory(mem), t))
    decreases t, 1, 0
  {
    hide DecodeList, DecodeFields, FieldsSize;
    match t
    case Int(signed) => ShortBytesAreWord(Read(Memory(mem), 0, 32));
    case SArray(sub, count) => ListTyped(mem, sub, 0, count);
    case DArray(sub, bound) =>
      var len := GetLength(Read(Memory(mem), 0, 32), bound);
      CountMonotone(MemSize(sub), len, bound);
      ListTyped(mem, sub, 32, len);
    case Struct(_, fields) =>
      FieldsTyped(mem, t, 0, 0);
      forall k | 0 <= k < |fields| ensures WellTyped(fields[k].typ, DecodeFields(Memory(mem), t, 0, 0)[k]) {
        assert FieldTyped(t, 0 + k, DecodeFields(Memory(mem), t, 0, 0)[k]);
      }
    case Tuple(fields) =>
      FieldsTyped(mem, t, 0, 0);
      forall k | 0 <= k < |fields| ensures WellTyped(fields[k].typ, DecodeFields(Memory(mem), t, 0, 0)[k]) {
        assert FieldTyped(t, 0 + k, DecodeFields(Memory(mem), t, 0, 0)[k]);
      }
    case _ =>
  }

  // ---- round trip -----------------------------------------------------------------------------

  lemma {:induction false} ListRoundTrip(mem: seq<Byte>, sub: Typ, ofst: nat, vs: seq<Value>)
    requires ValidType(sub) && ofst <= |mem| && LaysList(sub, vs, mem[ofst..])
    ensures DecodeList(Memory(mem), sub, ofst, |vs|) == vs
    decreases sub, 2, |vs|
  {
    hide MemSize, Lays, Decode, DecodeList, Read, ValidType;
    if vs != [] {
      var n := MemSize(sub);
      SliceOfDrop(mem, ofst, n);
      assert Read(Memory(mem), ofst, ofst + n) == mem[ofst..ofst + n] by { ReadMemory(mem, ofst, ofst + n); }
      RoundTrip(mem[ofst..ofst + n], sub, vs[0]);
      ListRoundTrip(mem, sub, ofst + n, vs[1..]);
      ListStep(Memory(mem), sub, ofst, |vs|);
    }
  }

  lemma {:induction false} FieldsRoundTrip(mem: seq<Byte>, t: Typ, i: nat, ofst: nat, vs: seq<Value>)
    requires HasFields(t) && ValidType(t) && i <= |t.fields| && |vs| == |t.fields| - i
    requires ofst <= |mem| && LaysFields(t, i, vs, mem[ofst..])
    ensures DecodeFields(Memory(mem), t, i, ofst) == vs
    decreases t, 0, |t.fields| - i
  {
    hide MemSize, Lays, Decode, DecodeFields, Read;
    if i < |t.fields| {
      var n := MemSize(t.fields[i].typ);
      SliceOfDrop(mem, ofst, n);
      assert Read(Memory(mem), ofst, ofst + n) == mem[ofst..ofst + n] by { ReadMemory(mem, ofst, ofst + n); }
      RoundTrip(mem[ofst..ofst + n], t.fields[i].typ, vs[0]);
      FieldsRoundTrip(mem, t, i + 1, ofst + n, vs[1..]);
      FieldsStep(Memory(mem), t, i, ofst);
    }
  }

  lemma SignedRoundTrip(n: int, signed: bool)
    requires InRange(n, signed)
    ensures DecodeInt(Bytes32(Wrap(n)), signed) == n
  {
    WordRoundTrip(Wrap(n));
    if n < 0 { DivUnique(n + TWO256, TWO256, 0); assert Wrap(n) == n + TWO256; }
  }

  lemma ScalarRoundTrip(mem: seq<Byte>, t: Typ, v: Value)
    requires Scalar(t) && ValidType(t) && Lays(t, v, mem)
    ensures Decode(Memory(mem), t) == v
  {
    hide LaysList, LaysFields, DecodeList, DecodeFields;
    match t
    case Int(signed) =>
      SignedRoundTrip(v.n, signed);
      assert mem[..32] == mem;
    case Bool =>
      assert FromBytes([mem[31]]) == mem[31] by { assert [mem[31]][..0] == []; }
      assert mem[31..32] == [mem[31]];
    case Bytestring(bound) =>
      WordRoundTrip(|v.bs|);
      assert mem[..32][..32] == mem[..32];
    case _ =>
  }

  /** Decoding a layout of a value gives the value. */
  lemma {:induction false} RoundTrip(mem: seq<Byte>, t: Typ, v: Value)
    requires ValidType(t) && Lays(t, v, mem)
    ensures Decode(Memory(mem), t) == v
    decreases t, 1, 0
  {
    hide LaysList, LaysFields, DecodeList, DecodeFields, FieldsSize;
    match t
    case SArray(sub, count) =>
      assert mem[0..] == mem;
      ListRoundTrip(mem, sub, 0, v.vs);
    case DArray(sub, bound) =>
      CountMonotone(MemSize(sub), 0, bound);
      WordRoundTrip(|v.vs|);
      assert mem[..32][..32] == mem[..32];
      ListRoundTrip(mem, sub, 32, v.vs);
    case Struct(_, _) =>
      assert mem[0..] == mem;
      FieldsRoundTrip(mem, t, 0, 0, v.vs);
    case Tuple(_) =>
      assert mem[0..] == mem;
      FieldsRoundTrip(mem, t, 0, 0, v.vs);
    case _ => ScalarRoundTrip(mem, t, v);
  }

  /** Every well-typed value survives being laid out, whatever follows it in memory. */
  lemma EncodeDecode(t: Typ, v: Value, tail: seq<Byte>)
    requires ValidType(t) && WellTyped(t, v)
    ensures Decode(Memory(Encode(t, v) + tail), t) == v
  {
    EncodeLays(t, v);
    RoundTrip(Encode(t, v), t, v);
    DecodeIsLocal(Encode(t, v), tail, t);
  }

  // ---- what arbitrary bytes decode to ---------------------------------------------------------

  /** A length word counts up to the bound of the type: anything above it, as in an uninitialized variable,
      stands for the bound. */
  function Clipped(mem: seq<Byte>, bound: nat): nat
    requires 32 <= |mem|
  {
    if FromBytes(mem[..32]) <= bound then FromBytes(mem[..32]) else bound
  }

  lemma LengthIs(mem: seq<Byte>, bound: nat)
    requires 32 <= |mem|
    ensures GetLength(Read(Memory(mem), 0, 32), bound) == Clipped(mem, bound)
  {
    assert Read(Memory(mem), 0, 32) == mem[..32];
    assert Slice(mem[..32], 0, 32) == mem[..32];
  }

  lemma IntMeans(bs: seq<Byte>, signed: bool)
    requires |bs| == 32
    ensures var n := DecodeInt(bs, signed); InRange(n, signed) && n % TWO256 == FromBytes(bs)
  {
    ShortBytesAreWord(bs);
    var w: Word := FromBytes(bs);
    if AsSigned(w) < 0 { DivUnique(w - TWO256, TWO256, -1); }
  }

  /** Which bytes a value without parts is made of. */
  lemma ScalarMeans(mem: seq<Byte>, t: Typ)
    requires Scalar(t) && ValidType(t) && MemSize(t) <= |mem|
    ensures var v := Decode(Memory(mem), t);
      match t
      case BytesM(m) => v == VBytes(mem[..m])
      case Address => v == VAddress(mem[12..32])
      case Bool => v == VBool(mem[31] != 0)
      case Int(signed) => v.VInt? && InRange(v.n, signed) && v.n % TWO256 == FromBytes(mem[..32])
      case Bytestring(bound) => v == VBytes(mem[32..32 + Clipped(mem, bound)])
      case _ => true
  {
    hide DecodeList, DecodeFields, FieldsSize;
    match t
    case Bool =>
      assert mem[31..32] == [mem[31]];
      assert FromBytes([mem[31]]) == mem[31] by { assert [mem[31]][..0] == []; }
    case Int(signed) =>
      assert Read(Memory(mem), 0, 32) == mem[..32];
      IntMeans(mem[..32], signed);
    case Bytestring(bound) => LengthIs(mem, bound);
    case _ =>
  }

  /** The bytes of element number `i` of an array whose elements start at `start`. */
  function ElementBytes(mem: seq<Byte>, sub: Typ, start: nat, i: nat): seq<Byte> {
    CountMonotone(MemSize(sub), 0, i);
    Slice(mem, start + i * MemSize(sub), start + i * MemSize(sub) + MemSize(sub))
  }

  lemma {:induction false} ElementMeans(mem: seq<Byte>, sub: Typ, ofst: nat, count: nat, i: nat)
    requires i < count
    ensures DecodeList(Memory(mem), sub, ofst, count)[i] == Decode(Memory(ElementBytes(mem, sub, ofst, i)), sub)
    decreases i
  {
    hide MemSize, Decode, DecodeList;
    var n := MemSize(sub);
    ListStep(Memory(mem), sub, ofst, count);
    if i > 0 {
      ElementMeans(mem, sub, ofst + n, count - 1, i - 1);
      assert ofst + n + (i - 1) * n == ofst + i * n by { Distribute(i - 1, n); }
    }
  }

  /** An array has as many elements as its type or its length word says, one after another. */
  lemma ArrayMeans(mem: seq<Byte>, t: Typ)
    requires (t.SArray? || t.DArray?) && ValidType(t) && (t.DArray? ==> 32 <= |mem|)
    ensures var v, start := Decode(Memory(mem), t), if t.SArray? then 0 else 32;
      && v.VList? && |v.vs| == (if t.SArray? then t.count else Clipped(mem, t.bound))
      && forall i :: 0 <= i < |v.vs| ==>
           v.vs[i] == Decode(Memory(ElementBytes(mem, t.sub, start, i)), t.sub)
  {
    hide MemSize, DecodeList, ElementBytes;
    if t.DArray? { LengthIs(mem, t.bound); }
    var v, start := Decode(Memory(mem), t), if t.SArray? then 0 else 32;
    forall i | 0 <= i < |v.vs|
      ensures v.vs[i] == Decode(Memory(ElementBytes(mem, t.sub, start, i)), t.sub)
    {
      ElementMeans(mem, t.sub, start, |v.vs|, i);
    }
  }

  /** Where a member starts: after all those before it. */
  function MemberStart(t: Typ, i: nat): nat
    requires HasFields(t) && i <= |t.fields|
  {
    if i == 0 then 0 else MemberStart(t, i - 1) + MemSize(t.fields[i - 1].typ)
  }

  lemma {:induction false} MemberMeans(mem: seq<Byte>, t: Typ, i: nat, k: nat)
    requires HasFields(t) && i <= k < |t.fields|
    ensures DecodeFields(Memory(mem), t, i, MemberStart(t, i))[k - i] ==
            Decode(Memory(Slice(mem, MemberStart(t, k), MemberStart(t, k) + MemSize(t.fields[k].typ))), t.fields[k].typ)
    decreases k - i
  {
    hide MemSize, Decode, DecodeFields;
    FieldsStep(Memory(mem), t, i, MemberStart(t, i));
    if i < k { MemberMeans(mem, t, i + 1, k); }
  }

  /** A struct or tuple has its members one after another, each in its own bytes. */
  lemma MembersMean(mem: seq<Byte>, t: Typ)
    requires HasFields(t)
    ensures var v := Decode(Memory(mem), t);
      && (if t.Struct? then v.VStruct? && v.name == t.name && v.keys == Names(t.fields) else v.VTuple?)
      && |v.vs| == |t.fields|
      && forall k :: 0 <= k < |t.fields| ==>
           v.vs[k] == Decode(Memory(Slice(mem, MemberStart(t, k), MemberStart(t, k) + MemSize(t.fields[k].typ))), t.fields[k].typ)
  {
    hide MemSize, DecodeFields, MemberStart;
    var v := Decode(Memory(mem), t);
    assert MemberStart(t, 0) == 0 by { FirstAtZero(t); }
    forall k | 0 <= k < |t.fields|
      ensures v.vs[k] == Decode(Memory(Slice(mem, MemberStart(t, k), MemberStart(t, k) + MemSize(t.fields[k].typ))), t.fields[k].typ)
    {
      MemberMeans(mem, t, 0, k);
    }
  }

  lemma FirstAtZero(t: Typ)
    requires HasFields(t)
    ensures MemberStart(t, 0) == 0
  {}

  // ---- the loops ------------------------------------------------------------------------------

  lemma FlattenStep(slots: nat -> Word, key: nat, from: nat, n: nat)
    requires from <= n
    ensures Flatten(slots, key, n + 1)[32 * from..] == Flatten(slots, key, n)[32 * from..] + Bytes32(slots(key + n))
  {}

  lemma Whole(start: nat, stop: nat)
    requires start <= stop
    ensures start / 32 <= Ceil32(stop) / 32 && Floor32(start) == 32 * (start / 32) <= start
    ensures stop <= 32 * (Ceil32(stop) / 32)
  {}

  lemma WithinTail(flat: seq<Byte>, ofst: nat, start: nat, stop: nat)
    requires ofst <= start <= stop <= |flat|
    ensures Slice(flat[ofst..], start - ofst, stop - ofst) == flat[start..stop]
  {}

  /** Storage wrapped so that it can be sliced like memory. */
  class ByteAddressableStorage {
    const slots: nat -> Word                 // `evm.get_storage_slot(address, .)`
    const key: nat

    constructor (slots: nat -> Word, key: nat)
      ensures this.slots == slots && this.key == key
    {
      this.slots, this.key := slots, key;
    }

    /** `self[start:stop]`: the bytes of the flattened slots, reading only the slots in question. */
    method GetItem(start: nat, stop: nat) returns (r: seq<Byte>)
      requires start <= stop
      ensures r == Read(Storage(slots, key), start, stop)
    {
      hide Flatten, Read, Ceil32, Floor32;
      Whole(start, stop);
      ghost var first := start / 32;
      var ret: seq<Byte> := [];
      var i := key + start / 32;
      while i < key + Ceil32(stop) / 32
        invariant key + first <= i <= key + Ceil32(stop) / 32
        invariant ret == Flatten(slots, key, i - key)[32 * first..]
      {
        FlattenStep(slots, key, first, i - key);
        ret := ret + Bytes32(slots(i));
        i := i + 1;
      }
      var startOfst := Floor32(start);
      r := Slice(ret, start - startOfst, stop - startOfst);
      WithinTail(Flatten(slots, key, Ceil32(stop) / 32), startOfst, start, stop);
      ReadStorage(slots, key, Ceil32(stop) / 32, start, stop);
    }
  }

  method GetSlice(src: Source, lo: nat, hi: nat) returns (r: seq<Byte>)
    requires lo <= hi
    ensures r == Read(src, lo, hi)
  {
    match src
    case Memory(mem) => r := Slice(mem, lo, hi);
    case Storage(slots, key) =>
      var view := new ByteAddressableStorage(slots, key);
      r := view.GetItem(lo, hi);
  }

  /** The elements of an array, `ret` and `ofst` growing together. */
  method DecodeElements(src: Source, sub: Typ, from: nat, length: nat) returns (ret: seq<Value>)
    ensures ret == DecodeList(src, sub, from, length)
    decreases sub, 2
  {
    hide MemSize, Read, Decode, DecodeList;
    var n := MemSize(sub);
    var ofst := from;
    ret := [];
    for k := 0 to length
      invariant ret + DecodeList(src, sub, ofst, length - k) == DecodeList(src, sub, from, length)
    {
      ListStep(src, sub, ofst, length - k);
      var mem := GetSlice(src, ofst, ofst + n);
      var v := DecodeObject(Memory(mem), sub);
      ret := ret + [v];
      ofst := ofst + n;
    }
    assert DecodeList(src, sub, ofst, 0) == [];
  }

  method DecodeMembers(src: Source, t: Typ) returns (ret: seq<Value>)
    requires HasFields(t)
    ensures ret == DecodeFields(src, t, 0, 0)
    decreases t, 0
  {
    hide MemSize, Read, Decode, DecodeFields;
    var ofst := 0;
    ret := [];
    for i := 0 to |t.fields|
      invariant ret + DecodeFields(src, t, i, ofst) == DecodeFields(src, t, 0, 0)
    {
      FieldsStep(src, t, i, ofst);
      var n := MemSize(t.fields[i].typ);
      var mem := GetSlice(src, ofst, ofst + n);
      var v := DecodeObject(Memory(mem), t.fields[i].typ);
      ret := ret + [v];
      ofst := ofst + n;
    }
  }

  method DecodeObject(src: Source, t: Typ) returns (v: Value)
    ensures v == Decode(src, t)
    decreases t, 1
  {
    match t
    case BytesM(m) => var bs := GetSlice(src, 0, m); v := VBytes(bs);
    case Address => var bs := GetSlice(src, 12, 32); v := VAddress(bs);
    case Bool => var bs := GetSlice(src, 31, 32); v := VBool(FromBytes(bs) != 0);
    case Int(signed) => var bs := GetSlice(src, 0, 32); v := VInt(DecodeInt(bs, signed));
    case Bytestring(bound) =>
      var head := GetSlice(src, 0, 32);
      var bs := GetSlice(src, 32, 32 + GetLength(head, bound));
      v := VBytes(bs);
    case SArray(sub, count) => var vs := DecodeElements(src, sub, 0, count); v := VList(vs);
    case DArray(sub, bound) =>
      var head := GetSlice(src, 0, 32);
      var vs := DecodeElements(src, sub, 32, GetLength(head, bound));
      v := VList(vs);
    case Struct(name, fields) => var vs := DecodeMembers(src, t); v := VStruct(name, Names(fields), vs);
    case Tuple(_) => var vs := DecodeMembers(src, t); v := VTuple(vs);
  }
}
