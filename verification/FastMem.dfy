/** `boa/vm/fast_mem.py`: a cache of aligned words in front of byte memory, written back late. Every method
    is tied to the function of `WordCache` that says what becomes of the buffers, and to plain bytes. */
module FastMem {
  import opened Wrappers
  import opened Words
  import FlatMemory
  import opened C = WordCache

  class FastMem {
    var memCache: seq<Option<Word>>      // None is _DIRTY
    var needsWriteback: seq<bool>
    var bytes: seq<Byte>

    function State(): Memory
      reads this
    {
      Memory(memCache, needsWriteback, bytes)
    }

    /** The three buffers fit together and no pending word is missing. */
    ghost predicate Shape()
      reads this
    {
      Fits(State())
    }

    ghost predicate Valid()
      reads this
    {
      Good(State())
    }

    ghost function Flat(): (r: seq<Byte>)
      reads this
      ensures |r| == |bytes|
    {
      C.Flat(State())
    }

    constructor ()
      ensures State() == EMPTY && Valid() && Flat() == []
    {
      memCache, needsWriteback, bytes := [], [], [];
    }

    /** `Memory.extend` of the superclass. */
    method SuperExtend(start: nat, size: nat)
      modifies this`bytes
      ensures bytes == FlatMemory.Extend(old(bytes), start, size)
    {
      bytes := FlatMemory.Extend(bytes, start, size);
    }

    /** With size 0 the cache can grow while the bytes do not. */
    method Extend(start: nat, size: nat)
      modifies this
      ensures State() == C.Extend(old(State()), start, size)
      ensures old(Valid()) ==> (Valid() <==> (size > 0 || (start + 31) / 32 <= old(|memCache|)))
      ensures old(Valid()) && Valid() ==> Flat() == FlatMemory.Extend(old(Flat()), start, size)
    {
      ghost var m := State();
      var newSize := (start + size + 31) / 32;
      var difference := newSize - |memCache|;
      if difference > 0 {
        memCache := memCache + seq(difference, _ => None);
        needsWriteback := needsWriteback + seq(difference, _ => false);
        SuperExtend(start, size);
      }
      if Good(m) { ExtendIs(m, start, size); }
    }

    /** `ok` is false where an index or the assertion fails: exactly outside memory. */
    method Writeback(start: nat, size: nat) returns (ok: bool)
      modifies this`bytes, this`needsWriteback
      ensures Did(State(), ok) == C.Writeback(old(State()), start, size)
      ensures old(Shape()) ==> (ok <==> FlatMemory.InRange(old(bytes), start, size))
      ensures old(Shape()) && ok ==> Flushed(old(State()), State(), start / 32, Ceil32(start + size) / 32)
      ensures old(Valid()) && ok ==> Valid() && |bytes| == old(|bytes|) && Flat() == old(Flat())
    {
      ghost var m := State();
      if Fits(m) { WritebackIs(m, start, size); }
      var first, last := start / 32, Ceil32(start + size) / 32;
      var ix := first;
      while ix < last
        invariant first <= ix && (ix <= last || ix == first) && memCache == m.cache
        invariant Flush(State(), ix, last) == Flush(m, first, last)
      {
        if ix >= |needsWriteback| {
          return false;
        }
        if needsWriteback[ix] {
          if ix >= |memCache| || memCache[ix].None? || ix + 32 > |bytes| {
            return false;
          }
          bytes := Splice(bytes, 32 * ix, Bytes32(memCache[ix].value));
          needsWriteback := needsWriteback[ix := false];
        }
        ix := ix + 1;
      }
      return true;
    }

    method ReadBytes(start: nat, size: nat) returns (ok: bool, r: seq<Byte>)
      modifies this`bytes, this`needsWriteback
      ensures DidRead(State(), ok, r) == C.ReadBytes(old(State()), start, size)
      ensures old(Shape()) ==> (ok <==> FlatMemory.InRange(old(bytes), start, size))
      ensures old(Shape()) && ok ==> r == FlatMemory.ReadBytes(old(Flat()), start, size) && |r| == size
      ensures old(Shape()) && ok ==> Flushed(old(State()), State(), start / 32, Ceil32(start + size) / 32)
      ensures old(Valid()) && ok ==> Valid() && |bytes| == old(|bytes|) && Flat() == old(Flat())
    {
      if Shape() { ReadBytesIs(State(), start, size); }
      ok := Writeback(start, size);
      r := if ok then Slice(bytes, start, start + size) else [];
    }

    method Read(start: nat, size: nat) returns (ok: bool, r: seq<Byte>)
      modifies this`bytes, this`needsWriteback
      ensures DidRead(State(), ok, r) == C.ReadBytes(old(State()), start, size)
      ensures old(Shape()) ==> (ok <==> FlatMemory.InRange(old(bytes), start, size))
      ensures old(Shape()) && ok ==> r == FlatMemory.ReadBytes(old(Flat()), start, size) && |r| == size
      ensures old(Shape()) && ok ==> Flushed(old(State()), State(), start / 32, Ceil32(start + size) / 32)
      ensures old(Valid()) && ok ==> Valid() && |bytes| == old(|bytes|) && Flat() == old(Flat())
    {
      if Shape() { ReadBytesIs(State(), start, size); }
      ok := Writeback(start, size);
      r := if ok then Slice(bytes, start, start + size) else [];
    }

    /** Right for every word in range as long as the cache is coherent. It stays coherent exactly
        when the read was aligned, or when the aligned word there happens to be the same. */
    method ReadWord(start: nat) returns (ok: bool, r: Word)
      modifies this
      ensures DidWord(State(), ok, r) == C.ReadWord(old(State()), start)
      ensures old(Valid()) && start + 32 <= old(|bytes|) ==>
                && ok && Shape() && |bytes| == old(|bytes|) && Flat() == old(Flat()) && memCache[start / 32] == Some(r)
                && r == FlatMemory.ReadWord(old(Flat()), start)
                && (Valid() <==> (start % 32 == 0 || r == FlatMemory.ReadWord(old(Flat()), Floor32(start))))
    {
      if Valid() && start + 32 <= |bytes| { ReadWordIs(State(), start); }
      var q := start / 32;
      if start % 32 == 0 {
        if q >= |memCache| {
          return false, 0;
        }
        if memCache[q].Some? {
          return true, memCache[q].value;
        }
      }
      ok, r := FillWord(start);
    }

    /** The rest of `read_word`: read the bytes and remember them under the word they start in. */
    method FillWord(start: nat) returns (ok: bool, r: Word)
      modifies this
      ensures DidWord(State(), ok, r) == C.FillWord(old(State()), start)
    {
      var q := start / 32;
      var bs;
      ok, bs := ReadBytes(start, 32);
      if !ok || q >= |memCache| {
        return false, 0;
      }
      ShortBytesAreWord(bs);
      r := FromBytes(bs);
      memCache := memCache[q := Some(r)];
    }

    method WriteWord(start: nat, w: Word) returns (ok: bool)
      modifies this
      ensures Did(State(), ok) == C.WriteWord(old(State()), start, w)
      ensures old(Valid()) && start + 32 <= old(|bytes|) ==>
                ok && Valid() && |bytes| == old(|bytes|) && Flat() == FlatMemory.WriteWord(old(Flat()), start, w)
    {
      if Valid() && start + 32 <= |bytes| { WriteWordIs(State(), start, w); }
      if start % 32 == 0 {
        var q := start / 32;
        if q >= |memCache| {
          return false;
        }
        memCache := memCache[q := Some(w)];
        if q >= |needsWriteback| {
          return false;
        }
        needsWriteback := needsWriteback[q := true];
        return true;
      }
      ok := Write(start, Bytes32(w));
    }

    /** `Memory.write` of the superclass. */
    method SuperWrite(start: nat, val: seq<Byte>) returns (ok: bool)
      modifies this`bytes
      ensures ok <==> val == [] || start + |val| <= |old(bytes)|
      ensures bytes == if ok && val != [] then FlatMemory.WriteBytes(old(bytes), start, val) else old(bytes)
    {
      if val == [] {
        return true;
      }
      if start + |val| > |bytes| {
        return false;
      }
      bytes := FlatMemory.WriteBytes(bytes, start, val);
      return true;
    }

    /** The words of the range are dropped from the cache. */
    method Drop(first: nat, last: nat) returns (ok: bool)
      modifies this`memCache
      ensures memCache == Dropped(old(memCache), first, last)
      ensures ok <==> first >= last || last <= |memCache|
    {
      var i := first;
      assert Dropped(memCache, first, first) == memCache;
      while i < last
        invariant first <= i && (i <= last || i == first) && (i > first ==> i <= |memCache|)
        invariant memCache == Dropped(old(memCache), first, i)
      {
        if i >= |memCache| {
          return false;
        }
        memCache := memCache[i := None];
        i := i + 1;
      }
      return true;
    }

    method Write(start: nat, val: seq<Byte>) returns (ok: bool)
      modifies this
      ensures Did(State(), ok) == C.Write(old(State()), start, val)
      ensures old(Valid()) ==> (ok <==> FlatMemory.InRange(old(bytes), start, |val|))
      ensures old(Valid()) && ok && val != [] ==>
                Valid() && |bytes| == old(|bytes|) && Flat() == FlatMemory.WriteBytes(old(Flat()), start, val)
      ensures old(Valid()) && ok && val == [] ==> Valid() && |bytes| == old(|bytes|) && Flat() == old(Flat())
    {
      hide Good, Fits, Flushed, C.Flat, C.Writeback, FlatMemory.WriteBytes, Dropped;
      ghost var m := State();
      if Good(m) { WriteIs(m, start, val); }
      var first, last := start / 32, (start + |val| + 31) / 32;
      ok := Writeback(start, |val|);
      if !ok {
        return;
      }
      ok := Drop(first, last);
      if !ok {
        return;
      }
      ok := SuperWrite(start, val);
    }
  }

  // ---- every interleaving of operations -------------------------------------------------------

  datatype MemOp =
    | OpExtend(start: nat, size: nat)
    | OpReadWord(start: nat)
    | OpWriteWord(start: nat, w: Word)
    | OpReadBytes(start: nat, size: nat)
    | OpRead(start: nat, size: nat)
    | OpWrite(start: nat, val: seq<Byte>)

  datatype Output = Nothing | AWord(w: Word) | Bytes(bs: seq<Byte>)

  datatype FlatRes = FlatRes(out: Output, mem: seq<Byte>)

  /** In range, no extension by nothing beyond the end, and no unaligned read of a word other than the
      aligned one around it. */
  predicate Allowed(op: MemOp, mem: seq<Byte>) {
    match op
    case OpExtend(p, n) => n > 0 || Ceil32(p) <= |mem|
    case OpReadWord(p) => p + 32 <= |mem| && FlatMemory.Harmless(mem, p)
    case OpWriteWord(p, _) => p + 32 <= |mem|
    case OpReadBytes(p, n) => FlatMemory.InRange(mem, p, n)
    case OpRead(p, n) => FlatMemory.InRange(mem, p, n)
    case OpWrite(p, val) => FlatMemory.InRange(mem, p, |val|)
  }

  /** The operation on plain bytes. */
  function FlatStep(op: MemOp, mem: seq<Byte>): FlatRes
    requires Allowed(op, mem)
  {
    match op
    case OpExtend(p, n) => FlatRes(Nothing, FlatMemory.Extend(mem, p, n))
    case OpReadWord(p) => FlatRes(AWord(FlatMemory.ReadWord(mem, p)), mem)
    case OpWriteWord(p, w) => FlatRes(Nothing, FlatMemory.WriteWord(mem, p, w))
    case OpReadBytes(p, n) => FlatRes(Bytes(FlatMemory.ReadBytes(mem, p, n)), mem)
    case OpRead(p, n) => FlatRes(Bytes(FlatMemory.ReadBytes(mem, p, n)), mem)
    case OpWrite(p, val) => FlatRes(Nothing, if val == [] then mem else FlatMemory.WriteBytes(mem, p, val))
  }

  predicate AllowedRun(ops: seq<MemOp>, mem: seq<Byte>) {
    ops == [] || (Allowed(ops[0], mem) && AllowedRun(ops[1..], FlatStep(ops[0], mem).mem))
  }

  function FlatRun(ops: seq<MemOp>, mem: seq<Byte>): (outs: seq<Output>)
    requires AllowedRun(ops, mem)
  {
    if ops == [] then [] else
    var r := FlatStep(ops[0], mem);
    [r.out] + FlatRun(ops[1..], r.mem)
  }

  lemma Covered(m: Memory, p: nat)
    requires Good(m)
    ensures (p + 31) / 32 <= |m.cache| <==> Ceil32(p) <= |m.bytes|
  {}

  method Perform(m: FastMem, op: MemOp) returns (out: Output)
    requires m.Valid() && Allowed(op, m.Flat())
    modifies m
    ensures m.Valid() && FlatRes(out, m.Flat()) == FlatStep(op, old(m.Flat()))
  {
    hide Fits, Coherent, Flushed, C.Flat;
    out := Nothing;
    match op
    case OpExtend(p, n) => Covered(m.State(), p); m.Extend(p, n);
    case OpReadWord(p) => var _, w := m.ReadWord(p); out := AWord(w);
    case OpWriteWord(p, w) => var _ := m.WriteWord(p, w);
    case OpReadBytes(p, n) => var _, bs := m.ReadBytes(p, n); out := Bytes(bs);
    case OpRead(p, n) => var _, bs := m.Read(p, n); out := Bytes(bs);
    case OpWrite(p, val) => var _ := m.Write(p, val);
  }

  /** Any run of operations gives the answers of a plain byte array. */
  method RunAll(m: FastMem, ops: seq<MemOp>) returns (outs: seq<Output>)
    requires m.Valid() && AllowedRun(ops, m.Flat())
    modifies m
    ensures m.Valid() && outs == FlatRun(ops, old(m.Flat()))
  {
    hide Good, C.Flat, Allowed, FlatStep;
    outs := [];
    for i := 0 to |ops|
      invariant m.Valid() && AllowedRun(ops[i..], m.Flat())
      invariant outs + FlatRun(ops[i..], m.Flat()) == FlatRun(ops, old(m.Flat()))
    {
      assert ops[i..][1..] == ops[i + 1..];
      var out := Perform(m, ops[i]);
      outs := outs + [out];
    }
    assert ops[|ops|..] == [];
  }

  /** Without alignment: the next aligned read of that word repeats the unaligned answer, which is right
      exactly when the two words are the same. */
  method UnalignedReadIsRemembered(m: FastMem, start: nat) returns (first: Word, second: Word)
    requires m.Valid() && start + 32 <= |m.bytes|
    modifies m
    ensures second == first == FlatMemory.ReadWord(old(m.Flat()), start)
    ensures second == FlatMemory.ReadWord(old(m.Flat()), Floor32(start)) <==> FlatMemory.Harmless(old(m.Flat()), start)
  {
    ReadWordAgain(m.State(), start);
    var _, w := m.ReadWord(start);
    var _, v := m.ReadWord(Floor32(start));
    first, second := w, v;
  }

  /** Extending by nothing makes the cache forget that the bytes are not there: the extension that follows
      does nothing, and 32 bytes that were asked for come back as none. */
  method ExtendByNothing() returns (ok: bool, bs: seq<Byte>)
    ensures ok && bs == []
    ensures FlatMemory.ReadBytes(FlatMemory.Extend(FlatMemory.Extend([], 64, 0), 32, 32), 32, 32) == Zeros(32)
  {
    var m := new FastMem();
    m.Extend(64, 0);
    m.Extend(32, 32);
    ghost var s := m.State();
    assert s.bytes == [] && s.pending == [false, false];
    assert Flush(s, 1, 2) == Flush(s, 2, 2) == Did(s, true);
    ok, bs := m.ReadBytes(32, 32);
  }
}
