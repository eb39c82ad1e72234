/** What each method of `FastMem` (`boa/vm/fast_mem.py`) does, as functions of its three buffers, and what
    that means on plain bytes. `ok` is false where Python raises. */
module WordCache {
  import opened Wrappers
  import opened Words
  import FlatMemory

  /** The buffers: cached words (None is `_DIRTY`), which of them are not yet written back, the bytes. */
  datatype Memory = Memory(cache: seq<Option<Word>>, pending: seq<bool>, bytes: seq<Byte>)

  const EMPTY := Memory([], [], [])

  datatype Did = Did(m: Memory, ok: bool)
  datatype DidRead = DidRead(m: Memory, ok: bool, bs: seq<Byte>)
  datatype DidWord = DidWord(m: Memory, ok: bool, w: Word)

  // ---- the methods ----------------------------------------------------------------------------

  /** The cache grows to cover the range; only then the bytes do, and not for size 0. */
  function Extend(m: Memory, start: nat, size: nat): Memory {
    var more := (start + size + 31) / 32 - |m.cache|;
    if more <= 0 then m
    else Memory(m.cache + seq(more, _ => None), m.pending + seq(more, _ => false), FlatMemory.Extend(m.bytes, start, size))
  }

  /** `bytes[start : start + 32] = val`; a slice past the end is clipped. */
  function Splice(bytes: seq<Byte>, start: nat, val: seq<Byte>): seq<Byte> {
    Slice(bytes, 0, start) + val + Slice(bytes, start + |val|, |bytes|)
  }

  /** The loop of `_writeback` from word `ix` on. */
  function Flush(m: Memory, ix: nat, last: nat): Did
    decreases last - ix
  {
    if ix >= last then Did(m, true)
    else if ix >= |m.pending| then Did(m, false)
    else if !m.pending[ix] then Flush(m, ix + 1, last)
    else if ix >= |m.cache| || m.cache[ix].None? || ix + 32 > |m.bytes| then Did(m, false)
    else Flush(FlushOne(m, ix), ix + 1, last)
  }

  function FlushOne(m: Memory, ix: nat): Memory
    requires ix < |m.pending| && ix < |m.cache| && m.cache[ix].Some?
  {
    Memory(m.cache, m.pending[ix := false], Splice(m.bytes, 32 * ix, Bytes32(m.cache[ix].value)))
  }

  function Writeback(m: Memory, start: nat, size: nat): Did {
    Flush(m, start / 32, Ceil32(start + size) / 32)
  }

  /** `read_bytes` and `read`. */
  function ReadBytes(m: Memory, start: nat, size: nat): DidRead {
    var d := Writeback(m, start, size);
    DidRead(d.m, d.ok, if d.ok then Slice(d.m.bytes, start, start + size) else [])
  }

  /** Whatever was read is remembered under the word in which it starts. */
  function FillWord(m: Memory, start: nat): DidWord {
    var r := ReadBytes(m, start, 32);
    if !r.ok || start / 32 >= |r.m.cache| then DidWord(r.m, false, 0)
    else
      assert |r.bs| <= 32;
      ShortBytesAreWord(r.bs);
      var w := FromBytes(r.bs);
      DidWord(r.m.(cache := r.m.cache[start / 32 := Some(w)]), true, w)
  }

  function ReadWord(m: Memory, start: nat): DidWord {
    if start % 32 != 0 then FillWord(m, start)
    else if start / 32 >= |m.cache| then DidWord(m, false, 0)
    else if m.cache[start / 32].Some? then DidWord(m, true, m.cache[start / 32].value)
    else FillWord(m, start)
  }

  function Dropped(cache: seq<Option<Word>>, first: nat, last: nat): (r: seq<Option<Word>>)
    ensures |r| == |cache|
  {
    seq(|cache|, i requires 0 <= i < |cache| => if first <= i < last then None else cache[i])
  }

  function Write(m: Memory, start: nat, val: seq<Byte>): Did {
    var first, last := start / 32, (start + |val| + 31) / 32;
    var d := Writeback(m, start, |val|);
    if !d.ok then d
    else
      var n := d.m.(cache := Dropped(d.m.cache, first, last));
      if (first < last && last > |n.cache|) || (val != [] && start + |val| > |n.bytes|) then Did(n, false)
      else Did(n.(bytes := if val == [] then n.bytes else FlatMemory.WriteBytes(n.bytes, start, val)), true)
  }

  function WriteWord(m: Memory, start: nat, w: Word): Did {
    var q := start / 32;
    if start % 32 != 0 then Write(m, start, Bytes32(w))
    else if q >= |m.cache| then Did(m, false)
    else if q >= |m.pending| then Did(m.(cache := m.cache[q := Some(w)]), false)
    else Did(m.(cache := m.cache[q := Some(w)], pending := m.pending[q := true]), true)
  }

  // ---- what the buffers stand for -------------------------------------------------------------

  /** The bytes a reader should see: a pending word hides the bytes under it. */
  function Flat(m: Memory): (r: seq<Byte>)
    ensures |r| == |m.bytes|
  {
    seq(|m.bytes|, j requires 0 <= j < |m.bytes| =>
      if j / 32 < |m.pending| && j / 32 < |m.cache| && m.pending[j / 32] && m.cache[j / 32].Some?
      then Bytes32(m.cache[j / 32].value)[j % 32] else m.bytes[j])
  }

  /** The three buffers fit together and no pending word is missing. */
  ghost predicate Fits(m: Memory) {
    && |m.cache| == |m.pending| && |m.bytes| == 32 * |m.cache|
    && forall i :: 0 <= i < |m.cache| && m.pending[i] ==> m.cache[i].Some?
  }

  function WordAt(bytes: seq<Byte>, i: nat): seq<Byte>
    requires 32 * i + 32 <= |bytes|
  {
    bytes[32 * i..32 * i + 32]
  }

  /** Cached words that are not pending agree with the bytes. */
  ghost predicate Coherent(m: Memory)
    requires Fits(m)
  {
    forall i :: 0 <= i < |m.cache| && m.cache[i].Some? && !m.pending[i] ==> WordAt(m.bytes, i) == Bytes32(m.cache[i].value)
  }

  ghost predicate Good(m: Memory) {
    Fits(m) && Coherent(m)
  }

  lemma EmptyGood()
    ensures Good(EMPTY) && Flat(EMPTY) == []
  {}

  // ---- extending ------------------------------------------------------------------------------

  /** With size 0 the cache can grow while the bytes do not. */
  lemma ExtendIs(m: Memory, start: nat, size: nat)
    requires Good(m)
    ensures Fits(Extend(m, start, size)) <==> (size > 0 || (start + 31) / 32 <= |m.cache|)
    ensures Fits(Extend(m, start, size)) ==>
              Good(Extend(m, start, size)) && Flat(Extend(m, start, size)) == FlatMemory.Extend(Flat(m), start, size)
  {
    var n := Extend(m, start, size);
    if n != m && size > 0 {
      assert |n.bytes| == 32 * |n.cache|;
      forall i | 0 <= i < |n.cache| && n.cache[i].Some? && !n.pending[i]
        ensures WordAt(n.bytes, i) == Bytes32(n.cache[i].value)
      {
        assert WordAt(n.bytes, i) == WordAt(m.bytes, i);
      }
    }
  }

  // ---- writing back ---------------------------------------------------------------------------

  lemma SpliceInside(bytes: seq<Byte>, start: nat, val: seq<Byte>)
    requires start + |val| <= |bytes|
    ensures Splice(bytes, start, val) == FlatMemory.WriteBytes(bytes, start, val)
  {
    assert Slice(bytes, start + |val|, |bytes|) == bytes[start + |val|..];
  }

  lemma WordElsewhere(bytes: seq<Byte>, ix: nat, val: seq<Byte>, i: nat)
    requires |val| == 32 && 32 * ix + 32 <= |bytes| && 32 * i + 32 <= |bytes| && i != ix
    ensures WordAt(FlatMemory.WriteBytes(bytes, 32 * ix, val), i) == WordAt(bytes, i)
  {}

  /** One pending word reaches the bytes: nobody can tell. */
  lemma FlushOneIs(m: Memory, ix: nat)
    requires Fits(m) && ix < |m.cache| && m.pending[ix]
    ensures var n := FlushOne(m, ix);
      && Fits(n) && Flat(n) == Flat(m) && |n.bytes| == |m.bytes| && (Coherent(m) ==> Coherent(n))
      && (forall i :: 0 <= i < |m.cache| && i != ix ==> WordAt(n.bytes, i) == WordAt(m.bytes, i))
  {
    var n, val := FlushOne(m, ix), Bytes32(m.cache[ix].value);
    SpliceInside(m.bytes, 32 * ix, val);
    assert WordAt(n.bytes, ix) == val;
    forall i | 0 <= i < |m.cache| && i != ix ensures WordAt(n.bytes, i) == WordAt(m.bytes, i) {
      WordElsewhere(m.bytes, ix, val, i);
    }
    forall j | 0 <= j < |m.bytes| ensures Flat(n)[j] == Flat(m)[j] {
      assert WordAt(n.bytes, j / 32)[j % 32] == n.bytes[j];
      assert WordAt(m.bytes, j / 32)[j % 32] == m.bytes[j];
    }
  }

  /** Nothing pending is left in the range, and nothing else has changed. */
  ghost predicate Flushed(m: Memory, n: Memory, first: nat, last: nat)
    requires Fits(m)
  {
    && Fits(n) && Flat(n) == Flat(m) && n.cache == m.cache && |n.bytes| == |m.bytes| && (Coherent(m) ==> Coherent(n))
    && (forall i :: first <= i < last && i < |n.pending| ==> !n.pending[i])
    && (forall i :: 0 <= i < |n.cache| && !(first <= i < last) ==>
          n.pending[i] == m.pending[i] && WordAt(n.bytes, i) == WordAt(m.bytes, i))
  }

  lemma {:induction false} FlushIs(m: Memory, ix: nat, last: nat)
    requires Fits(m) && (ix >= last || last <= |m.cache|)
    ensures var d := Flush(m, ix, last); d.ok && Flushed(m, d.m, ix, last)
    decreases last - ix
  {
    hide FlushOne, Flat, Coherent;
    if ix < last {
      if m.pending[ix] {
        FlushOneIs(m, ix);
        FlushFrame(m, ix);
        assert ix + 32 <= |m.bytes|;
        FlushIs(FlushOne(m, ix), ix + 1, last);
      } else {
        FlushIs(m, ix + 1, last);
      }
    }
  }

  lemma FlushFrame(m: Memory, ix: nat)
    requires Fits(m) && ix < |m.cache| && m.pending[ix]
    ensures FlushOne(m, ix).cache == m.cache && FlushOne(m, ix).pending == m.pending[ix := false]
  {}

  lemma {:induction false} FlushRaises(m: Memory, ix: nat, last: nat)
    requires |m.pending| == |m.cache| && ix < last && last > |m.cache|
    ensures !Flush(m, ix, last).ok
    decreases last - ix
  {
    if ix < |m.pending| {
      if !m.pending[ix] { FlushRaises(m, ix + 1, last); }
      else if m.cache[ix].Some? && ix + 32 <= |m.bytes| { FlushRaises(FlushOne(m, ix), ix + 1, last); }
    }
  }

  /** Writing back succeeds exactly on ranges that lie in memory. */
  lemma WritebackIs(m: Memory, start: nat, size: nat)
    requires Fits(m)
    ensures var d := Writeback(m, start, size);
      && (d.ok <==> FlatMemory.InRange(m.bytes, start, size))
      && (d.ok ==> Flushed(m, d.m, start / 32, Ceil32(start + size) / 32))
  {
    var first, last := start / 32, Ceil32(start + size) / 32;
    if first >= last || last <= |m.cache| {
      FlushIs(m, first, last);
    } else {
      FlushRaises(m, first, last);
    }
  }

  // ---- reading --------------------------------------------------------------------------------

  /** Where nothing is pending, the bytes themselves are what a reader should see. */
  lemma CleanRange(m: Memory, start: nat, size: nat)
    requires Fits(m) && FlatMemory.InRange(m.bytes, start, size)
    requires forall i :: start / 32 <= i < Ceil32(start + size) / 32 && i < |m.pending| ==> !m.pending[i]
    ensures FlatMemory.ReadBytes(m.bytes, start, size) == FlatMemory.ReadBytes(Flat(m), start, size)
  {
    if size > 0 {
      forall j | start <= j < start + size ensures Flat(m)[j] == m.bytes[j] {
        assert start / 32 <= j / 32 < Ceil32(start + size) / 32;
      }
      assert m.bytes[start..start + size] == Flat(m)[start..start + size];
    }
  }

  /** Bytes are read exactly when they lie in memory, and then they are those of flat memory. */
  lemma ReadBytesIs(m: Memory, start: nat, size: nat)
    requires Fits(m)
    ensures var r := ReadBytes(m, start, size);
      && (r.ok <==> FlatMemory.InRange(m.bytes, start, size))
      && (r.ok ==> |r.bs| == size && r.bs == FlatMemory.ReadBytes(Flat(m), start, size)
                   && Flushed(m, r.m, start / 32, Ceil32(start + size) / 32))
  {
    WritebackIs(m, start, size);
    var d := Writeback(m, start, size);
    if d.ok { CleanRange(d.m, start, size); }
  }

  lemma CachedWord(m: Memory, q: nat)
    requires Good(m) && q < |m.cache| && m.cache[q].Some?
    ensures FlatMemory.ReadWord(Flat(m), 32 * q) == m.cache[q].value
  {
    var flat, w := Flat(m), m.cache[q].value;
    forall k | 0 <= k < 32 ensures flat[32 * q..32 * q + 32][k] == Bytes32(w)[k] {
      if !m.pending[q] { assert WordAt(m.bytes, q)[k] == m.bytes[32 * q + k]; }
    }
    assert flat[32 * q..32 * q + 32] == Bytes32(w);
    WordRoundTrip(w);
  }

  /** Filling a cache entry that is not pending: the bytes a reader sees stay, and the cache stays
      coherent exactly when the entry is the word stored there. */
  lemma CachedClean(m: Memory, q: nat, r: Word)
    requires Fits(m) && q < |m.cache| && !m.pending[q]
    ensures var n := m.(cache := m.cache[q := Some(r)]);
      && Fits(n) && Flat(n) == Flat(m)
      && (Coherent(m) ==> (Coherent(n) <==> r == FlatMemory.ReadWord(Flat(m), 32 * q)))
  {
    var flat, n := Flat(m), m.(cache := m.cache[q := Some(r)]);
    assert flat[32 * q..32 * q + 32] == WordAt(m.bytes, q);
    BytesRoundTrip(WordAt(m.bytes, q));
    WordRoundTrip(r);
    assert n.cache[q] == Some(r);
    if r == FlatMemory.ReadWord(flat, 32 * q) {
      assert WordAt(m.bytes, q) == Bytes32(r);
    }
  }

  lemma FillWordIs(m: Memory, start: nat)
    requires Fits(m) && start + 32 <= |m.bytes|
    ensures var r := FillWord(m, start);
      && r.ok && Fits(r.m) && Flat(r.m) == Flat(m) && r.m.cache == m.cache[start / 32 := Some(r.w)]
      && r.w == FlatMemory.ReadWord(Flat(m), start)
      && (Coherent(m) ==> (Coherent(r.m) <==> r.w == FlatMemory.ReadWord(Flat(m), Floor32(start))))
  {
    hide Flat, Coherent, ReadBytes;
    ReadBytesIs(m, start, 32);
    var d, q := ReadBytes(m, start, 32), start / 32;
    assert q < Ceil32(start + 32) / 32;
    CachedClean(d.m, q, FillWord(m, start).w);
  }

  /** The word of flat memory, whatever the alignment; the cache stays coherent exactly when the read was
      harmless. */
  lemma ReadWordIs(m: Memory, start: nat)
    requires Good(m) && start + 32 <= |m.bytes|
    ensures var r := ReadWord(m, start);
      && r.ok && r.w == FlatMemory.ReadWord(Flat(m), start) && Fits(r.m) && Flat(r.m) == Flat(m)
      && r.m.cache[start / 32] == Some(r.w)
      && (Coherent(r.m) <==> FlatMemory.Harmless(Flat(m), start))
  {
    hide Coherent, Flat;
    if start % 32 == 0 && m.cache[start / 32].Some? {
      CachedWord(m, start / 32);
    } else {
      FillWordIs(m, start);
    }
  }

  /** A word that was read is what the next aligned read of that word answers, right or wrong. */
  lemma ReadWordAgain(m: Memory, start: nat)
    requires Fits(m) && start + 32 <= |m.bytes|
    ensures var r := ReadWord(m, start); r.ok && ReadWord(r.m, Floor32(start)) == DidWord(r.m, true, r.w)
  {
    FillWordIs(m, start);
  }

  // ---- writing --------------------------------------------------------------------------------

  /** Dropping the entries of a range in which nothing is pending, and overwriting bytes within it. */
  lemma Overwritten(m: Memory, start: nat, val: seq<Byte>)
    requires Good(m) && start + |val| <= |m.bytes|
    requires forall k :: start / 32 <= k < (start + |val| + 31) / 32 && k < |m.cache| ==> !m.pending[k]
    ensures var n := Memory(Dropped(m.cache, start / 32, (start + |val| + 31) / 32), m.pending, FlatMemory.WriteBytes(m.bytes, start, val));
      Good(n) && Flat(n) == FlatMemory.WriteBytes(Flat(m), start, val)
  {
    var first, last := start / 32, (start + |val| + 31) / 32;
    var n := Memory(Dropped(m.cache, first, last), m.pending, FlatMemory.WriteBytes(m.bytes, start, val));
    forall i | 0 <= i < |n.cache| && n.cache[i].Some? && !n.pending[i] ensures WordAt(n.bytes, i) == Bytes32(n.cache[i].value) {
      assert !(first <= i < last);
      assert WordAt(n.bytes, i) == WordAt(m.bytes, i);
    }
    forall j | 0 <= j < |m.bytes| ensures Flat(n)[j] == FlatMemory.WriteBytes(Flat(m), start, val)[j] {
      if start <= j < start + |val| { assert !m.pending[j / 32]; }
    }
  }

  /** Writing succeeds exactly on ranges that lie in memory, and then it is a flat write. */
  lemma WriteIs(m: Memory, start: nat, val: seq<Byte>)
    requires Good(m)
    ensures var d := Write(m, start, val);
      && (d.ok <==> FlatMemory.InRange(m.bytes, start, |val|))
      && (d.ok ==> Good(d.m) && |d.m.bytes| == |m.bytes|
                   && Flat(d.m) == if val == [] then Flat(m) else FlatMemory.WriteBytes(Flat(m), start, val))
  {
    hide Flat, Coherent, Dropped, Writeback;
    WritebackIs(m, start, |val|);
    var b := Writeback(m, start, |val|);
    if b.ok {
      if start + |val| <= |m.bytes| {
        Overwritten(b.m, start, val);
        if val == [] { assert FlatMemory.WriteBytes(b.m.bytes, start, []) == b.m.bytes; assert FlatMemory.WriteBytes(Flat(m), start, []) == Flat(m); }
      } else {
        DroppedNone(b.m.cache, start / 32);
      }
    }
  }

  lemma DroppedNone(cache: seq<Option<Word>>, first: nat)
    ensures Dropped(cache, first, first) == cache
  {}

  /** An aligned word only reaches the cache. */
  lemma CacheWordIs(m: Memory, q: nat, w: Word)
    requires Good(m) && q < |m.cache|
    ensures var n := m.(cache := m.cache[q := Some(w)], pending := m.pending[q := true]);
      Good(n) && Flat(n) == FlatMemory.WriteWord(Flat(m), 32 * q, w)
  {
    var n := m.(cache := m.cache[q := Some(w)], pending := m.pending[q := true]);
    forall i | 0 <= i < |n.cache| && n.cache[i].Some? && !n.pending[i] ensures WordAt(n.bytes, i) == Bytes32(n.cache[i].value) {
      assert i != q && m.cache[i] == n.cache[i];
    }
    forall j | 0 <= j < |m.bytes| ensures Flat(n)[j] == FlatMemory.WriteWord(Flat(m), 32 * q, w)[j] {}
  }

  lemma WriteWordIs(m: Memory, start: nat, w: Word)
    requires Good(m) && start + 32 <= |m.bytes|
    ensures var d := WriteWord(m, start, w);
      d.ok && Good(d.m) && |d.m.bytes| == |m.bytes| && Flat(d.m) == FlatMemory.WriteWord(Flat(m), start, w)
  {
    hide Coherent, Flat;
    if start % 32 == 0 {
      CacheWordIs(m, start / 32, w);
    } else {
      WriteIs(m, start, Bytes32(w));
    }
  }
}
