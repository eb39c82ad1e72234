/** EVM memory as one flat byte sequence: what `FastMem` must be indistinguishable from. */
module FlatMemory {
  import opened Words

  /** Grow to the next multiple of 32 that covers `[start, start + size)`; a no-op for size 0. */
  function Extend(mem: seq<Byte>, start: nat, size: nat): (r: seq<Byte>)
    ensures mem <= r
    ensures size > 0 ==> start + size <= |r|
    ensures |mem| % 32 == 0 ==> |r| % 32 == 0
  {
    var n := Ceil32(start + size);
    if size == 0 || n <= |mem| then mem else mem + Zeros(n - |mem|)
  }

  /** A stretch of bytes that lies in memory; a stretch of no bytes may also start at any word. */
  predicate InRange(mem: seq<Byte>, start: nat, size: nat) {
    start + size <= |mem| || (size == 0 && start % 32 == 0)
  }

  function ReadBytes(mem: seq<Byte>, start: nat, size: nat): seq<Byte> {
    Slice(mem, start, start + size)
  }

  function ReadWord(mem: seq<Byte>, start: nat): Word
    requires start + 32 <= |mem|
  {
    BytesRoundTrip(mem[start..start + 32]);
    FromBytes(mem[start..start + 32])
  }

  /** The word read there is the aligned word around it: so for an aligned read, and by chance for others. */
  predicate Harmless(mem: seq<Byte>, start: nat)
    requires start + 32 <= |mem|
  {
    start % 32 == 0 || ReadWord(mem, start) == ReadWord(mem, Floor32(start))
  }

  function WriteBytes(mem: seq<Byte>, start: nat, val: seq<Byte>): (r: seq<Byte>)
    requires start + |val| <= |mem|
    ensures |r| == |mem|
  {
    mem[..start] + val + mem[start + |val|..]
  }

  function WriteWord(mem: seq<Byte>, start: nat, w: Word): (r: seq<Byte>)
    requires start + 32 <= |mem|
    ensures |r| == |mem|
  {
    WriteBytes(mem, start, Bytes32(w))
  }
}
