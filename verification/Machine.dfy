/** The part of the EVM that source and compiled code share: stack items, the mutable world,
    outcomes, and the calls into code outside the repository, which are parameters (`Host`). */
module Machine {
  import opened Words
  import FlatMemory

  /** A Python value that can sit on the VM stack or in a local: `int` or `bytes`. */
  datatype Raw = I(n: int) | B(bs: seq<Byte>)

  /** `boa.vm.utils.to_int`. */
  function ToInt(r: Raw): int {
    match r
    case I(n) => n
    case B(bs) => FromBytes(bs)
  }

  /** A raw value stands for a word when it is an in-range int or at most 32 bytes. */
  predicate IsItem(r: Raw) {
    match r
    case I(n) => 0 <= n < TWO256
    case B(bs) => |bs| <= 32
  }

  type StackItem = r: Raw | IsItem(r) witness I(0)

  function ItemWord(r: StackItem): Word {
    match r
    case I(n) => n
    case B(bs) => ShortBytesAreWord(bs); FromBytes(bs)
  }

  /** Memory and storage as the EVM has them. `exact` records that every step so far met the guard under
      which the emitted Python does what the EVM does; it changes no meaning. */
  datatype World = World(mem: seq<Byte>, storage: map<int, Word>, exact: bool)
  {
    function Under(guard: bool): World {
      this.(exact := exact && guard)
    }

    function Load(slot: int): Word {
      if slot in storage then storage[slot] else 0
    }
  }

  datatype FaultKind =
    | Unbound        // a name or local that has no value
    | NoValue        // a statement where a value is needed
    | BadCall        // unknown label or wrong number of arguments
    | StrayJump      // break or continue that leaves a function
    | TooManyRounds  // `assert rounds <= rounds_bound`
    | OutsideMemory  // FastMem raises
    | StaticWrite    // WriteProtection
    | TypeError      // a Python operation applied to the wrong kind of value
    | StackUnderflow

  datatype Ctl =
    | Val(w: Word)
    | Done
    | Brk
    | Cnt
    | Ret
    | Halt(output: seq<Byte>)
    | Revert(output: seq<Byte>)
    | Fault(kind: FaultKind)
    | Timeout        // the bound on the depth of calls is used up

  /** What a call hands to its caller. A subroutine returns no value. */
  function FromCall(c: Ctl): Ctl {
    match c
    case Val(_) => Done
    case Ret => Done
    case Brk => Fault(StrayJump)
    case Cnt => Fault(StrayJump)
    case _ => c
  }

  /** What an opcode does to memory: read a range, or write one, after extending memory to it. */
  datatype Effect = Access(start: nat, size: nat) | Store(start: nat, val: seq<Byte>)

  function AffectOne(w: World, e: Effect): (r: World)
    ensures r.storage == w.storage && (r.exact ==> w.exact)
  {
    match e
    case Access(p, n) =>
      var m := FlatMemory.Extend(w.mem, p, n);
      w.(mem := m).Under(FlatMemory.InRange(m, p, n))
    case Store(p, val) =>
      var m := FlatMemory.Extend(w.mem, p, |val|);
      if val == [] then w.Under(FlatMemory.InRange(m, p, 0)) else w.(mem := FlatMemory.WriteBytes(m, p, val))
  }

  function Affect(w: World, effects: seq<Effect>): (r: World)
    ensures r.storage == w.storage && (r.exact ==> w.exact)
    decreases |effects|
  {
    if effects == [] then w else Affect(AffectOne(w, effects[0]), effects[1..])
  }

  datatype OpcodeResult =
    | OpOk(effects: seq<Effect>, storage: map<int, Word>, result: StackItem)
    | OpHalt(effects: seq<Effect>, storage: map<int, Word>, output: seq<Byte>)
    | OpRevert(effects: seq<Effect>, storage: map<int, Word>, output: seq<Byte>)

  type Sender = s: seq<Byte> | |s| == 20 witness Zeros(20)
  type Digest = s: seq<Byte> | |s| == 32 witness Zeros(32)
  type Calldata = s: seq<Byte> | |s| < TWO256

  datatype Host = Host(
    arith: (string, int, int) -> int,                    // vyper.ir.optimizer.arith
    keccak: seq<Byte> -> Digest,
    opcode: (nat, seq<int>, seq<Byte>, map<int, Word>) -> OpcodeResult,  // VM.opcodes[...], given memory and storage
    sender: Sender,
    value: Word,
    data: Calldata,
    isStatic: bool)

  /** Operations that are not binders or control structure. */
  datatype Op =
    | Arith(name: string, signed: bool)
    | Shl | Shr | Sar
    | Select | IsZero | CeilTo32
    | Caller | CallValue | CalldataSize | CalldataLoad | CalldataCopy
    | MLoad | MStore | SLoad | SStore
    | Sha3_64 | Sha3_32
    | Assert | RevertOp | ReturnOp | Stop
    | Break | Continue | Pass | CleanupRepeat
    | Opcode(code: nat, consumes: nat, produces: bool)

  function Arity(op: Op): nat {
    match op
    case Arith(_, _) => 2
    case Shl => 2
    case Shr => 2
    case Sar => 2
    case Select => 3
    case CalldataCopy => 3
    case MStore => 2
    case SStore => 2
    case Sha3_64 => 2
    case RevertOp => 2
    case ReturnOp => 2
    case IsZero => 1
    case CeilTo32 => 1
    case CalldataLoad => 1
    case MLoad => 1
    case SLoad => 1
    case Sha3_32 => 1
    case Assert => 1
    case Opcode(_, n, _) => n
    case _ => 0
  }

  predicate Produces(op: Op) {
    match op
    case MStore => false
    case CalldataCopy => false
    case SStore => false
    case Assert => false
    case RevertOp => false
    case ReturnOp => false
    case Stop => false
    case Break => false
    case Continue => false
    case Pass => false
    case CleanupRepeat => false
    case Opcode(_, _, produces) => produces
    case _ => true
  }

  /** `bytes(data[ptr : ptr + size])` padded on the right to `size` bytes. */
  function CalldataBytes(data: seq<Byte>, ptr: nat, size: nat): (s: seq<Byte>)
    ensures |s| == size
  {
    var part := Slice(data, ptr, ptr + size);
    assert |part| <= size;
    part + Zeros(size - |part|)
  }

  function CalldataWord(data: seq<Byte>, ptr: nat): (s: seq<Byte>)
    ensures |s| == 32
  {
    CalldataBytes(data, ptr, 32)
  }
}
