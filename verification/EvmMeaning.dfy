/** What the operations of the source semantics are on the EVM, byte by byte and without the functions that the
    emitted code shares with it: beyond its end, memory and call data read as zero. */
module EvmMeaning {
  import opened Words
  import opened Machine
  import opened SourceIR
  import FlatMemory
  import OperationProof

  /** The big-endian digits of a number. */
  lemma {:induction false} DigitAt(n: nat, len: nat, i: nat)
    requires i < len
    ensures ToBytes(n, len)[i] == n / Pow2(8 * (len - 1 - i)) % 256
    decreases len
  {
    if i == len - 1 {
      assert Pow2(0) == 1;
    } else {
      DigitAt(n / 256, len - 1, i);
      var k := len - 2 - i;
      Pow2Add(8, 8 * k);
      assert Pow2(8) == 256;
      DivTwice(n, 256, Pow2(8 * k));
    }
  }

  lemma DivTwice(n: nat, a: nat, b: nat)
    requires a > 0 && b > 0
    ensures a * b > 0 && n / a / b == n / (a * b)
  {
    var q, r := n / a, n % a;
    var p, s := q / b, q % b;
    assert n == a * (b * p + s) + r == (a * b) * p + (a * s + r) by {
      assert a * (b * p) == (a * b) * p;
    }
    MulMonotone(a, s, b - 1);
    MulMonotone(b, 1, a);
    DivUnique(n, a * b, p);
  }

  /** The two's complement reading of a word: the only number of that range with the word as its remainder. */
  lemma SignedIs(w: Word)
    ensures -(TWO256 / 2) <= AsSigned(w) < TWO256 / 2 && AsSigned(w) % TWO256 == w
  {
    if w >= TWO256 / 2 { DivUnique(w - TWO256, TWO256, -1); }
  }

  // ---- memory ---------------------------------------------------------------------------------

  /** Where memory ends after an access, in words that cover it. */
  function EndAfter(len: nat, start: nat, size: nat): nat {
    if size == 0 || Ceil32(start + size) <= len then len else Ceil32(start + size)
  }

  lemma ExtendedBytes(mem: seq<Byte>, start: nat, size: nat)
    ensures var m := FlatMemory.Extend(mem, start, size);
      |m| == EndAfter(|mem|, start, size) && forall i :: 0 <= i < |m| ==> m[i] == if i < |mem| then mem[i] else 0
  {}

  /** `mload` is the 32 bytes from its address on, most significant first; memory only grows. */
  lemma LoadBytes(h: Host, p: Word, w: World)
    ensures var r := ApplyOp(h, MLoad, [p], w);
      && r.ctl.Val? && r.world.storage == w.storage && |r.world.mem| == EndAfter(|w.mem|, p, 32)
      && (forall i :: 0 <= i < 32 ==> Bytes32(r.ctl.w)[i] == if p + i < |w.mem| then w.mem[p + i] else 0)
      && (forall i :: 0 <= i < |r.world.mem| ==> r.world.mem[i] == if i < |w.mem| then w.mem[i] else 0)
  {
    ExtendedBytes(w.mem, p, 32);
    var m := FlatMemory.Extend(w.mem, p, 32);
    BytesRoundTrip(m[p..p + 32]);
  }

  /** `mstore` puts the bytes of the word there and leaves the rest. */
  lemma StoreBytes(h: Host, p: Word, v: Word, w: World)
    ensures var r := ApplyOp(h, MStore, [p, v], w);
      && r.ctl == Done && r.world.storage == w.storage && |r.world.mem| == EndAfter(|w.mem|, p, 32)
      && (forall i :: 0 <= i < |r.world.mem| ==>
            r.world.mem[i] == if p <= i < p + 32 then Bytes32(v)[i - p] else if i < |w.mem| then w.mem[i] else 0)
  {
    ExtendedBytes(w.mem, p, 32);
  }

  /** What comes back is what was stored, also after other stores that do not overlap. */
  lemma LoadAfterStore(h: Host, p: Word, v: Word, q: Word, u: Word, w: World)
    requires q + 32 <= p || p + 32 <= q
    ensures var w1 := ApplyOp(h, MStore, [p, v], w).world;
      ApplyOp(h, MLoad, [p], ApplyOp(h, MStore, [q, u], w1).world).ctl == Val(v)
  {
    hide ApplyOp;
    var w1 := ApplyOp(h, MStore, [p, v], w).world;
    var w2 := ApplyOp(h, MStore, [q, u], w1).world;
    StoreBytes(h, p, v, w);
    StoreBytes(h, q, u, w1);
    LoadBytes(h, p, w2);
    var r := ApplyOp(h, MLoad, [p], w2);
    assert Bytes32(r.ctl.w) == Bytes32(v);
    WordRoundTrip(v);
    WordRoundTrip(r.ctl.w);
  }

  /** `return` and `revert` hand out exactly `size` bytes of memory, zeros past its end. */
  lemma OutputBytes(h: Host, op: Op, p: Word, size: Word, w: World)
    requires op.ReturnOp? || op.RevertOp?
    ensures var r := ApplyOp(h, op, [p, size], w);
      && (if op.ReturnOp? then r.ctl.Halt? else r.ctl.Revert?) && r.world.storage == w.storage
      && |r.ctl.output| == size
      && (forall i :: 0 <= i < size ==> r.ctl.output[i] == if p + i < |w.mem| then w.mem[p + i] else 0)
  {
    ExtendedBytes(w.mem, p, size);
  }

  // ---- call data ------------------------------------------------------------------------------

  lemma CutBytes(data: seq<Byte>, p: nat, size: nat)
    ensures forall i :: 0 <= i < size ==> CalldataBytes(data, p, size)[i] == if p + i < |data| then data[p + i] else 0
  {}

  /** `calldataload`: the 32 bytes from `p` on, zeros on the right past the end of the data. */
  lemma CalldataLoadBytes(h: Host, p: Word, w: World)
    ensures var r := ApplyOp(h, CalldataLoad, [p], w);
      && r.ctl.Val? && r.world == w
      && forall i :: 0 <= i < 32 ==> Bytes32(r.ctl.w)[i] == if p + i < |h.data| then h.data[p + i] else 0
  {
    CutBytes(h.data, p, 32);
    BytesRoundTrip(CalldataWord(h.data, p));
  }

  /** So the selector is what `shr 224` leaves of the first word, however short the data is. */
  lemma SelectorIs(h: Host, w: World)
    requires |h.data| >= 4
    ensures var first := ApplyOp(h, CalldataLoad, [0], w);
      first.ctl.Val? &&
      var r := ApplyOp(h, Shr, [224, first.ctl.w], w); r.ctl.Val? && r.ctl.w == FromBytes(h.data[..4])
  {
    hide ApplyOp, ToBytes, FromBytes, Pow2;
    CalldataLoadBytes(h, 0, w);
    var x := ApplyOp(h, CalldataLoad, [0], w).ctl.w;
    assert Bytes32(x)[..4] == h.data[..4];
    Pow2At256();
    Prefix(x, 32, 4);
    ShrIs(h, 224, x, w);
  }

  /** The first bytes of a number are its quotient. */
  lemma {:induction false} Prefix(n: nat, len: nat, k: nat)
    requires k <= len && n < Pow2(8 * len)
    ensures FromBytes(ToBytes(n, len)[..k]) == n / Pow2(8 * (len - k))
    decreases len
  {
    if k == len {
      FromToBytes(n, len);
      assert ToBytes(n, len)[..k] == ToBytes(n, len) && Pow2(0) == 1;
    } else {
      Pow2Add(8 * (len - 1), 8);
      assert Pow2(8) == 256;
      Prefix(n / 256, len - 1, k);
      assert ToBytes(n, len)[..k] == ToBytes(n / 256, len - 1)[..k];
      Pow2Add(8, 8 * (len - 1 - k));
      DivTwice(n, 256, Pow2(8 * (len - 1 - k)));
    }
  }

  /** `calldatacopy`: each byte of the range from the data, zero past its end; every other byte stays. */
  lemma CalldataCopyBytes(h: Host, dst: Word, src: Word, size: Word, w: World)
    ensures var r := ApplyOp(h, CalldataCopy, [dst, src, size], w);
      && r.ctl == Done && r.world.storage == w.storage && |r.world.mem| == EndAfter(|w.mem|, dst, size)
      && (size > 0 ==> dst + size <= |r.world.mem|)
      && (forall i :: dst <= i < dst + size ==>
            r.world.mem[i] == if src + (i - dst) < |h.data| then h.data[src + (i - dst)] else 0)
      && (forall i :: 0 <= i < |r.world.mem| && !(dst <= i < dst + size) ==>
            r.world.mem[i] == if i < |w.mem| then w.mem[i] else 0)
  {
    CutBytes(h.data, src, size);
    ExtendedBytes(w.mem, dst, size);
    CopyPlaces(w, dst, CalldataBytes(h.data, src, size));
  }

  lemma CopyPlaces(w: World, dst: nat, val: seq<Byte>)
    ensures var m := CopyMem(w, dst, val);
      && m.storage == w.storage && |m.mem| == EndAfter(|w.mem|, dst, |val|) && (val != [] ==> dst + |val| <= |m.mem|)
      && (forall i :: dst <= i < dst + |val| ==> m.mem[i] == val[i - dst])
      && (forall i :: 0 <= i < |m.mem| && !(dst <= i < dst + |val|) ==> m.mem[i] == if i < |w.mem| then w.mem[i] else 0)
  {
    ExtendedBytes(w.mem, dst, |val|);
  }

  // ---- storage and words ----------------------------------------------------------------------

  /** `sload` gives the last word stored in that slot, 0 if there is none; other slots keep theirs. */
  lemma StorageKeeps(h: Host, s: Word, v: Word, t: Word, w: World)
    requires !h.isStatic
    ensures var r := ApplyOp(h, SStore, [s, v], w);
      && r.ctl == Done && r.world.mem == w.mem
      && ApplyOp(h, SLoad, [t], r.world) ==
         OpRes(if t == s then Val(v) else ApplyOp(h, SLoad, [t], w).ctl, r.world)
    ensures t !in w.storage ==> ApplyOp(h, SLoad, [t], w).ctl == Val(0)
    ensures t in w.storage ==> ApplyOp(h, SLoad, [t], w).ctl == Val(w.storage[t])
  {}

  /** In a static call nothing is stored. */
  lemma StaticRefuses(h: Host, s: Word, v: Word, w: World)
    requires h.isStatic
    ensures ApplyOp(h, SStore, [s, v], w) == OpRes(Fault(StaticWrite), w)
  {}

  /** Shifts take the number of bits first: times, or divided by, that power of two, rounding down. */
  lemma ShlIs(h: Host, bits: Word, v: Word, w: World)
    ensures var r := ApplyOp(h, Shl, [bits, v], w); r.ctl.Val? && r.ctl.w == (v * Pow2(bits)) % TWO256 && r.world == w
  {
    hide EvmShl, Pow2;
    OperationProof.ShlAgrees(bits, v);
  }

  lemma ShrIs(h: Host, bits: Word, v: Word, w: World)
    ensures var r := ApplyOp(h, Shr, [bits, v], w); r.ctl.Val? && r.ctl.w == v / Pow2(bits) && r.world == w
  {
    hide EvmShr, Pow2;
    OperationProof.ShrAgrees(bits, v);
  }

  lemma SarIs(h: Host, bits: Word, v: Word, w: World)
    ensures var r := ApplyOp(h, Sar, [bits, v], w); r.ctl.Val? && r.ctl.w == (AsSigned(v) / Pow2(bits)) % TWO256 && r.world == w
  {
    hide EvmSar, Pow2;
    OperationProof.SarAgrees(bits, v);
  }

  /** The caller is an address, right-aligned in its word; hashes take the words' 32 bytes in order. */
  lemma BytesOperands(h: Host, x: Word, y: Word, w: World)
    ensures var r := ApplyOp(h, Caller, [], w); r.ctl.Val? && Bytes32(r.ctl.w) == Zeros(12) + h.sender
    ensures var r := ApplyOp(h, Sha3_64, [x, y], w); r.ctl.Val? && Bytes32(r.ctl.w) == h.keccak(Bytes32(x) + Bytes32(y))
    ensures var r := ApplyOp(h, Sha3_32, [x], w); r.ctl.Val? && Bytes32(r.ctl.w) == h.keccak(Bytes32(x))
  {
    RJustIsWordBytes(h.sender);
    BytesRoundTrip(h.keccak(Bytes32(x) + Bytes32(y)));
    BytesRoundTrip(h.keccak(Bytes32(x)));
  }

  /** Tests are on zero, `select` takes its second operand when the first is not zero, and arithmetic its
      operands in order, as signed numbers where the operation is signed. */
  lemma ChoicesAre(h: Host, f: string, x: Word, y: Word, w: World)
    ensures ApplyOp(h, Select, [0, x, y], w).ctl == Val(y)
    ensures forall t: Word :: t > 0 ==> ApplyOp(h, Select, [t, x, y], w).ctl == Val(x)
    ensures ApplyOp(h, IsZero, [0], w).ctl == Val(1) && (x > 0 ==> ApplyOp(h, IsZero, [x], w).ctl == Val(0))
    ensures ApplyOp(h, Assert, [0], w).ctl == Revert([]) && (x > 0 ==> ApplyOp(h, Assert, [x], w).ctl == Done)
    ensures var r := ApplyOp(h, Arith(f, false), [x, y], w); r.ctl.Val? && r.ctl.w == h.arith(f, x, y) % TWO256
    ensures var r := ApplyOp(h, Arith(f, true), [x, y], w);
      r.ctl.Val? && r.ctl.w == h.arith(f, AsSigned(x), AsSigned(y)) % TWO256
    ensures ApplyOp(h, CalldataSize, [], w).ctl == Val(|h.data|) && ApplyOp(h, CallValue, [], w).ctl == Val(h.value)
    ensures ApplyOp(h, Stop, [], w).ctl == Halt([])
  {}

  // ---- calls ----------------------------------------------------------------------------------

  /** How a call ends: a subroutine that halts, reverts or fails ends its caller too, in the same way; one that
      returns, or runs to its end, lets a `goto` go on and an `exit_to` return. */
  lemma CallEnds(h: Host, fs: seq<Func>, fuel: nat, l: string, args: seq<IR>, env: Env, w: World)
    requires fuel > 0 && Find(fs, l).Found?
    requires var a := EvalArgs(h, fs, fuel, args, env, w);
      a.stop == Done && |ValueParams(Find(fs, l).f.params)| == |a.vals|
    ensures var a, f := EvalArgs(h, fs, fuel, args, env, w), Find(fs, l).f;
      var body := Eval(h, fs, fuel - 1, f.body, Bind(ValueParams(f.params), a.vals), a.world);
      var r, t := Eval(h, fs, fuel, Goto(l, args), env, w), Eval(h, fs, fuel, ExitTo(l, args), env, w);
      && r.env == t.env == a.env && r.world == t.world == body.world
      && match body.ctl
         case Val(_) => r.ctl == Done && t.ctl == Ret
         case Done => r.ctl == Done && t.ctl == Ret
         case Ret => r.ctl == Done && t.ctl == Ret
         case Brk => r.ctl == t.ctl == Fault(StrayJump)
         case Cnt => r.ctl == t.ctl == Fault(StrayJump)
         case Halt(out) => r.ctl == t.ctl == Halt(out)
         case Revert(out) => r.ctl == t.ctl == Revert(out)
         case Fault(kind) => r.ctl == t.ctl == Fault(kind)
         case Timeout => r.ctl == t.ctl == Timeout
  {
    hide EvalArgs, EvalSeq, EvalLoop, ApplyOp;
  }

  /** Parameters get the operands in order, the return address aside; the first of a repeated name wins. */
  lemma {:induction false} BoundInOrder(params: seq<string>, vals: seq<Word>, i: nat)
    requires |params| == |vals| && i < |params| && params[i] !in params[..i]
    ensures params[i] in Bind(params, vals) && Bind(params, vals)[params[i]] == vals[i]
  {
    if i > 0 {
      assert params[1..][..i - 1] == params[1..i];
      assert forall x :: x in params[1..i] ==> x in params[..i];
      BoundInOrder(params[1..], vals[1..], i - 1);
      assert params[0] in params[..i];
    }
  }
}
