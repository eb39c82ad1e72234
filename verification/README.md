# Titanoboa: models and proofs

Titanoboa runs Vyper contracts inside Python. Several of its internals are fast or derived forms of
something simple: the IR-to-Python compiler replaces the EVM for one contract, the forked account
database stands for a remote chain, `FastMem` for byte memory, a disk cache for a function, a handful
of decoders for their encodings. This project models those internals in Dafny and proves that each
agrees with its simple form, or states exactly when it does.

`dafny verify dfyconfig.toml` checks everything. One module per file.

| files | what they model |
|---|---|
| `Words`, `FlatMemory`, `Machine` | bytes, 256-bit words, flat EVM memory, stack items, outcomes and the host (`boa/vm/utils.py` and what the executor shares with the EVM) |
| `WordCache`, `FastMem` | `boa/vm/fast_mem.py`: what each method does to the three buffers, and plain bytes behind them |
| `SourceIR`, `EvmMeaning` | Vyper IR with a direct big-step semantics, the EVM's: lexical scopes, words that wrap, operands right to left, flat memory; and what its operations are byte by byte |
| `PythonTarget` | the emitted Python as a syntax tree over flat local variables, and its execution on `FastMem` |
| `Compiler`, `Scopes`, `OperationProof`, `CompilerProof`, `CompilerTheorem` | `analyze` and `compile` as functions, and semantic preservation |
| `Acceptance` | exactly which programs `analyze` accepts |
| `Departures`, `GuardedPrograms` | where the emitted code and the EVM part, operation by operation and in small programs; programs whose text rules that out |
| `CompileContext` | the same compiler step by step on its mutable context, tied to those functions |
| `Rename`, `Naming` | rendering `(name, slot)` pairs as strings, and preservation for the rendered program |
| `Journals`, `CachingRpc`, `ForkModel`, `AccountFork`, `ForkRun`, `ForkHistory` | `boa/vm/fork.py` against one mutable copy of the remote state with snapshots, and against the node's replies and the writes of a run |
| `DiskCache` | `boa/util/disk_cache.py` as a transition system over inodes and names |
| `Anchors`, `FixtureStack` | anchors and the pytest plugin's stack of fixtures |
| `VyperLayout`, `VyperDecoder` | Vyper's memory layout and `decode_vyper_object` |
| `AbiTuple` | the ABI tuple encoding and the tuple decoder of `boa/util/abi.py` |
| `HashMapView` | hash tracing and the reconstruction of HashMaps |
| `LruDict`, `Fingerprint`, `Dealer`, `GasProfile` | `lrudict`, module fingerprints, `deal`, gas attribution |

Where the code does not do what one would first expect, the code is kept and the exact condition is
proved:

- The emitted code is the EVM's as long as each step meets a guard that the source semantics records in
  `exact` (`CompilerCorrect`); for each guard the operation agrees, or leaves the memory right, exactly
  when the guard holds:
  - `return` and `revert` do not extend memory: outside it `_writeback` raises (`OutputIff`), so
    `return 0 32` on a new memory fails where the EVM returns 32 zero bytes.
  - an unaligned `mload` is remembered as the aligned word (`WordReadIff`): after `mstore 0 1; mload 1`,
    `mload 0` gives 256.
  - `calldatacopy` of no bytes extends the word cache alone (`CopyIff`): after `calldatacopy 32 0 0;
    mstore 0 1`, `return 0 32` fails.
  - `repeat` counts with Python integers and asserts its bound: a loop that stores its index runs as on
    the EVM exactly when it keeps to its bound and `start + rounds` does not pass 2^256 (`LoopIff`).
    A negative start is an accepted literal, so `range(-1, 1)` fails (`NegativeStart`).
  - `ceil32` leaves the words above 2^256 - 32 (`RoundUpIff`).
- `__user_x_1` renders both `x` in slot 1 and `x_1` in slot 0. Rendering is injective exactly when no
  name of the program is another one with `_<slot>` after it (`RenderInjectiveIff`); without that, a
  well-formed program stores 9 where it should store 7 (`ClashChangesTheResult`).
- `variables` gives back the frame it found exactly when no name occurs twice in its list.
- `FastMem.read_word` caches the answer of an unaligned read under the aligned word: the cache stays
  coherent exactly when the two words are equal, and otherwise the next aligned read is wrong.
  `extend` with size 0 can grow the cache alone; a later extension then does nothing and a read of
  32 bytes gives none (`ExtendByNothing`).
- Prefetching is invisible to balances, nonces, code and storage, but an empty account listed in the
  trace exists afterwards (`ExistsAfterPrefetch`).
- `StorageVar.get` drops zero values only of integers and booleans: a zero address or `bytesM` is a
  non-empty Python string (`ZeroHiddenIff`), although the comment speaks of nonzero values.
- `deal` is not atomic: a supply that leaves the words is refused after the balance has been written.
- `lrudict` of capacity 0 raises on its first insertion.
- A child's gas is moved from the instruction after the call, one byte past the pc the meter charges,
  and `by_pc` raises exactly when that instruction books no gas in the run, as after a call followed by
  STOP (`RunByPc`, `CallThenStop`).
- `by_line` charges an unmapped pc to the line of the last mapped pc that was new when it was met: a loop
  that comes back to a line does not move there (`AttributedTo`).

## Model

| member | source | states |
|---|---|---|
| CompilerTheorem.CompilerCorrect | boa/contracts/vyper/ir_executor.py:186-278 | for every well-formed program, host, coherent initial memory, storage and call depth, the emitted Python on `FastMem` ends with the EVM's outcome (return and revert data included), memory and storage, as long as each step meets its guard |
| CompilerTheorem.AcyclicCorrect | boa/contracts/vyper/ir_executor.py:909-994 | with an acyclic call graph and enough depth neither run is cut short and both agree: no bound on calls remains |
| CompilerTheorem.AcyclicTerminates | boa/contracts/vyper/ir_executor.py:909-994 | a call depth above every rank of an acyclic call graph is never used up |
| CompilerTheorem.ExpressionCorrect | boa/contracts/vyper/ir_executor.py:206-246 | an expression compiled into a local leaves its word there in the requested type; every visible name and every shadowed binding keeps its value |
| GuardedPrograms.GuardedCorrect | boa/contracts/vyper/ir_executor.py:186-278 | with aligned literal reads, literal loop ranges within words and bounds, and no data returned, the run is the EVM's whatever happens in it |
| GuardedPrograms.GuardedExact | boa/contracts/vyper/ir_executor.py:186-246 | such programs never fail a guard, subroutines included |
| Departures.OutputIff | boa/contracts/vyper/ir_executor.py:860-888 | for any operands, `return` and `revert` give the EVM's bytes iff those lie in memory, and raise otherwise |
| Departures.WordReadIff | boa/contracts/vyper/ir_executor.py:575-583 | `mload` gives the flat word at any address; the cache stays right, and the next aligned read with it, iff the read is aligned or both words are equal |
| Departures.CopyIff | boa/contracts/vyper/ir_executor.py:558-572 | `calldatacopy` leaves the buffers coherent iff it copies something or ends within memory |
| Departures.RoundUpIff | boa/contracts/vyper/ir_executor.py:739-747 | the local gets the EVM's word iff the number is at most 2^256 - 32, and 2^256 otherwise |
| Departures.LoopIff | boa/contracts/vyper/ir_executor.py:788-817 | a compiled loop that stores its index runs as on the EVM iff the rounds keep to the bound and there are none or `start + rounds` is at most 2^256 |
| Departures.NegativeStart | boa/contracts/vyper/ir_executor.py:286-289 | `repeat` from -1 for 2 rounds ends with 0 stored on the EVM and with an error in Python |
| Departures.ReturnIff | boa/contracts/vyper/ir_executor.py:876-888 | the whole program `return ptr size` from any memory: same run iff the range is in memory |
| Departures.ReturnFromFreshMemory | boa/contracts/vyper/ir_executor.py:274-278 | `return 0 32` on a new memory: 32 zero bytes on the EVM, an error in Python |
| Departures.UnalignedIff | boa/contracts/vyper/ir_executor.py:575-597 | `mstore 0 v; mload 1; sstore 0 (mload 0)` runs as on the EVM iff `v` is 0, and which word each side stores |
| Departures.UnalignedReadStores256 | boa/contracts/vyper/ir_executor.py:575-597 | with `v` 1 the EVM stores 1 and the emitted code 256 |
| Departures.ZeroCopyFails | boa/contracts/vyper/ir_executor.py:558-572 | `calldatacopy 32 0 0; mstore 0 1; return 0 32` returns 1 on the EVM and raises in Python |
| OperationProof.CeilAgreesIff | boa/contracts/vyper/ir_executor.py:739-747 | Python's `ceil32` is the EVM expression, and a word, iff the number is at most 2^256 - 32 |
| CompilerTheorem.FuncsLinked | boa/contracts/vyper/ir_executor.py:1062-1067 | every label becomes the subroutine of that label, compiled from its own body under its own parameters |
| CompilerTheorem.LabelsOf | boa/contracts/vyper/ir_executor.py:1037-1057 | analysis meets the labels of the program in order, each in a fresh frame holding exactly its parameters |
| CompilerProof.CompileSim | boa/contracts/vyper/ir_executor.py:186-246 | the simulation for every construct: outcome, memory and storage, stack, visible names and untouched locals, under any frame, output and requested type, while the guards are met |
| CompilerProof.WithSim | boa/contracts/vyper/ir_executor.py:1092-1117 | `with` binds a new slot for its body, then the outer binding is back |
| CompilerProof.SetSim | boa/contracts/vyper/ir_executor.py:1120-1126 | `set` changes the innermost binding and no shadowed one |
| CompilerProof.BlockSim | boa/contracts/vyper/ir_executor.py:770-785 | `seq` runs in order, stops at the first jump and delivers only its last value |
| CompilerProof.IfElseSim | boa/contracts/vyper/ir_executor.py:820-840 | only the chosen branch runs and delivers the value |
| CompilerProof.RepeatSim | boa/contracts/vyper/ir_executor.py:788-817 | start before rounds, the bound checked, then the loop with break and continue, while the guards are met |
| CompilerProof.LoopSim | boa/contracts/vyper/ir_executor.py:803-804 | any number of rounds from any index: the Python loop does what the IR loop does as long as the rounds made have word indices, also when `break` comes before the wrap |
| CompilerProof.OperandsSim | boa/contracts/vyper/ir_executor.py:186-195 | operands right to left, each into its own temporary, which the later ones do not disturb |
| CompilerProof.GotoSim | boa/contracts/vyper/ir_executor.py:909-994 | calls and tail calls pass the operand words and end as the subroutine ends |
| CompilerProof.InvokeSim | boa/contracts/vyper/ir_executor.py:1062-1067 | a subroutine runs on locals of its own with its parameters bound to the words |
| CompilerProof.LeaveScope | boa/contracts/vyper/ir_executor.py:1098-1110 | after the body of a binder the relation between names and locals holds again for the outer scope |
| OperationProof.ApplySim | boa/contracts/vyper/ir_executor.py:206-246 | one operation with its delivery: same outcome and world, the word in the output local, nothing else changed but template names |
| OperationProof.EmitSim | boa/contracts/vyper/ir_executor.py:378-412 | each template computes its operation from the locals that hold the operands, on `FastMem` for flat memory |
| OperationProof.MLoadExec | boa/contracts/vyper/ir_executor.py:575-583 | extending and reading through the cache is the flat read |
| OperationProof.MStoreExec | boa/contracts/vyper/ir_executor.py:586-597 | extending and writing through the cache is the flat write, aligned or not |
| OperationProof.TouchSim | boa/vm/fast_mem.py:51-76 | whatever ranges an opcode reads and writes, `FastMem` stays coherent and holds the flat memory |
| OperationProof.ConvertYields | boa/contracts/vyper/ir_executor.py:239-244 | the inserted `to_int`, `to_bytes` or parentheses keep the word and give the requested type |
| OperationProof.ShlAgrees | boa/contracts/vyper/ir_executor.py:484-491 | shift left modulo 2^256 is the EVM's for every number of bits |
| OperationProof.ShrAgrees | boa/contracts/vyper/ir_executor.py:463-470 | shift right is the EVM's for every number of bits |
| OperationProof.SarAgrees | boa/contracts/vyper/ir_executor.py:473-481 | the signed shift, wrapped back, is the EVM's for every number of bits |
| OperationProof.EmitSelect | boa/contracts/vyper/ir_executor.py:494-507 | the conditional expression picks the right operand whatever types the two operands have |
| OperationProof.OpcodeExec | boa/contracts/vyper/ir_executor.py:378-412 | operands pushed in reverse reach the opcode in order and the stack below is untouched |
| OperationProof.Sha64Exec | boa/contracts/vyper/ir_executor.py:677-705 | the preimage is the two words in order, 32 bytes each |
| EvmMeaning.CalldataLoadBytes | boa/contracts/vyper/ir_executor.py:543-556 | byte by byte: the 32 bytes of call data from the address on, zeros on the right past its end |
| EvmMeaning.SelectorIs | boa/contracts/vyper/ir_executor.py:543-556 | `shr 224` of the first word is the first four bytes, however short the data |
| EvmMeaning.CalldataCopyBytes | boa/contracts/vyper/ir_executor.py:558-572 | byte by byte: the range from the data, zero past its end, and every other byte of memory as before |
| EvmMeaning.LoadBytes | boa/contracts/vyper/ir_executor.py:575-583 | byte by byte: the word at any address, zeros past the end of memory, which only grows |
| EvmMeaning.StoreBytes | boa/contracts/vyper/ir_executor.py:586-597 | byte by byte: the word there, everything else as before |
| EvmMeaning.LoadAfterStore | boa/contracts/vyper/ir_executor.py:575-597 | what was stored is loaded, other stores that do not overlap notwithstanding |
| EvmMeaning.OutputBytes | boa/contracts/vyper/ir_executor.py:860-888 | `return` and `revert` hand out exactly the bytes of memory asked for, zeros past its end |
| EvmMeaning.StorageKeeps | boa/contracts/vyper/ir_executor.py:651-675 | a slot holds the last word stored in it, other slots theirs, unwritten ones 0 |
| EvmMeaning.ShlIs | boa/contracts/vyper/ir_executor.py:484-491 | shift left multiplies by the power of two modulo 2^256 |
| EvmMeaning.ShrIs | boa/contracts/vyper/ir_executor.py:463-470 | shift right divides by the power of two, rounding down |
| EvmMeaning.SarIs | boa/contracts/vyper/ir_executor.py:473-481 | signed shift divides the signed number, rounding down, modulo 2^256 |
| EvmMeaning.BytesOperands | boa/contracts/vyper/ir_executor.py:513-705 | the caller is right-aligned in its word; hashes take the words' bytes in order |
| EvmMeaning.CallEnds | boa/contracts/vyper/ir_executor.py:909-994 | a subroutine that halts, reverts or fails ends its caller in the same way; one that returns lets a `goto` go on and an `exit_to` return |
| EvmMeaning.BoundInOrder | boa/contracts/vyper/ir_executor.py:1037-1057 | parameters get the operands in order |
| EvmMeaning.SignedIs | boa/contracts/vyper/ir_executor.py:449-460 | the signed reading of a word is the number of the signed range with that remainder |
| EvmMeaning.DigitAt | boa/vm/utils.py:15-18 | byte `i` of a number's bytes is its digit, most significant first |
| Words.RJustIsWordBytes | boa/vm/utils.py:9-18 | `to_bytes` and `to_bytes` of `to_int` agree on every byte string of at most 32 bytes |
| Words.WordRoundTrip | boa/vm/utils.py:9-18 | `to_int` inverts `to_bytes` on words |
| Words.BytesRoundTrip | boa/vm/utils.py:9-18 | `to_bytes` inverts `to_int` on 32 bytes |
| Words.Ceil32 | boa/vm/utils.py:1-6 | the least multiple of 32 not below the number |
| Scopes.VariablesRestoreIffDistinct | boa/contracts/vyper/ir_executor.py:136-154 | leaving restores slots and counter exactly iff no name occurs twice |
| Scopes.LeaveNeverRaises | boa/contracts/vyper/ir_executor.py:149-154 | leaving what was entered never raises, duplicates included |
| Scopes.UseResolvesToInnermost | boa/contracts/vyper/ir_executor.py:129-154 | under any nest of bindings the i-th live binding has slot i, below the counter, and a use resolves to the innermost one |
| Scopes.ShadowedAt | boa/contracts/vyper/ir_executor.py:142-145 | what is saved for a name is its outer meaning, unless it occurs twice |
| CompileContext.CompileContext.EnterVariables | boa/contracts/vyper/ir_executor.py:140-145 | the entry loop gives each name the next slot and saves what it shadows |
| CompileContext.CompileContext.ExitVariables | boa/contracts/vyper/ir_executor.py:149-154 | the exit loop puts back what was saved, or reports where `del` raises |
| CompileContext.CompileContext.Analyze | boa/contracts/vyper/ir_executor.py:201-203 | stepwise analysis resolves every name as the specification does, appends the labels in order, gives back the frames, and fails exactly on unknown names, bad integers and repeated labels |
| CompileContext.CompileContext.AnalyzeLabel | boa/contracts/vyper/ir_executor.py:1037-1057 | a label is registered before its body is analysed and refused if its name is taken |
| CompileContext.CompileContext.AnalyzeInNewFrame | boa/contracts/vyper/ir_executor.py:129-134 | a body analysed in a fresh frame sees only its parameters, and the frames are as before |
| CompileContext.CompileContext.Compile | boa/contracts/vyper/ir_executor.py:206-246 | the builder gains exactly the specified statements and the counter moves past the temporaries used |
| CompileContext.CompileContext.CompileArgs | boa/contracts/vyper/ir_executor.py:186-195 | the reversed loop emits the operands last to first |
| CompileContext.ExecutorFromIR | boa/contracts/vyper/ir_executor.py:1140-1150 | end to end: a program comes out iff its integers are in range, its names are bound and no label occurs twice, and on well-formed IR it runs as the IR does while the guards are met |
| Acceptance.AnalyzesIff | boa/contracts/vyper/ir_executor.py:199-203 | `analyze` succeeds iff all integers are in range, no name is free and every subroutine uses its own parameters only |
| Acceptance.LabelNames | boa/contracts/vyper/ir_executor.py:1037-1057 | the analysed labels have the names of the source's, in order |
| Rename.RenameExec | boa/contracts/vyper/ir_executor.py:337-343 | execution does not depend on how locals are named, as long as names in use stay distinct |
| Naming.DecIs | boa/contracts/vyper/ir_executor.py:337-343 | slots are rendered as decimal numerals without leading zeros |
| Naming.CollisionIff | boa/contracts/vyper/ir_executor.py:337-343 | two variables get the same string iff one sits in slot 0 and is the other's name with its slot appended |
| Naming.RenderInjectiveIff | boa/contracts/vyper/ir_executor.py:337-343 | rendering the locals of a program is injective iff no name is another with a slot suffix |
| Naming.TextCorrect | boa/contracts/vyper/ir_executor.py:337-343 | with such names the program over strings, on `FastMem`, runs as the IR does while the guards are met |
| Naming.ClashChangesTheResult | boa/contracts/vyper/ir_executor.py:337-343 | a well-formed program with names `x_1` and `x` for which the rendered code stores 9 instead of 7 |
| CachingRpc.CachingRPC.Fetch | boa/vm/fork.py:112-127 | the remote's answer or error, and every cache entry still agrees with the remote |
| CachingRpc.CachingRPC.FetchMulti | boa/vm/fork.py:133-160 | for any mix of hits, misses and duplicates: the uncached batch, in payload order, errors included, with cache agreement kept |
| CachingRpc.AnswersChar | boa/vm/fork.py:133-160 | an uncached batch succeeds iff every request does, and gives each answer in its place |
| Journals.CommitUpto | boa/vm/fork.py:310-312 | committing changes neither what is read now nor what an outer checkpoint restores |
| Journals.DiscardUpto | boa/vm/fork.py:306-308 | discarding leaves every view below the checkpoint as it was |
| Journals.PutAllUpto | boa/vm/fork.py:343-347 | writing changes what is read at the top and nothing below any checkpoint |
| ForkModel.SlotWrite | boa/vm/fork.py:343-347 | writing both journals keeps them reading, at every checkpoint depth, as the snapshot taken there |
| ForkModel.Discarding | boa/vm/fork.py:306-308 | discarding all journals together restores the world recorded at the checkpoint |
| ForkModel.Committing | boa/vm/fork.py:310-312 | committing all journals together keeps the current world and all outer snapshots |
| ForkModel.Opening | boa/vm/fork.py:314-317 | a new checkpoint in all journals is a snapshot of the current world |
| AccountFork.AccountDBFork.constructor | boa/vm/fork.py:180-201 | a new fork reads as the remote state at the pinned block |
| AccountFork.AccountDBFork.Record | boa/vm/fork.py:314-317 | takes a snapshot under a fresh name, in every journal |
| AccountFork.AccountDBFork.Discard | boa/vm/fork.py:306-308 | restores the snapshot, or changes nothing if there is no such checkpoint |
| AccountFork.AccountDBFork.Commit | boa/vm/fork.py:310-312 | forgets the snapshot and keeps the current state, or changes nothing |
| AccountFork.AccountDBFork.GetStorage | boa/vm/fork.py:330-341 | the latest surviving local write, zeros included, else the remote value; what is fetched on the way is invisible |
| AccountFork.AccountDBFork.SetStorage | boa/vm/fork.py:343-347 | one slot changes, in both journals |
| AccountFork.AccountDBFork.GetAccount | boa/vm/fork.py:218-229 | the current account, whether cached, journalled or fetched, and the cache stays coherent |
| AccountFork.AccountDBFork.GetAccountRpc | boa/vm/fork.py:231-244 | the remote account, of which ForkHistory.ReadUntouched says which reply is which field |
| AccountFork.AccountDBFork.GetCodeOf | boa/vm/fork.py:295-304 | the code whose hash the account carries, also when it has to be fetched; nothing else changes |
| AccountFork.AccountDBFork.AccountExists | boa/vm/fork.py:349-352 | true iff the account was written locally or has balance or nonce |
| AccountFork.AccountDBFork.AdoptEntry | boa/vm/fork.py:273-290 | a trace entry is taken over only where nothing was known, and invisibly if it agrees with the remote |
| AccountFork.AccountDBFork.TryPrefetch | boa/vm/fork.py:247-293 | an agreeing trace changes no world and no snapshot; any trace keeps what was known; a malformed address restores every journal exactly; a refused call does nothing |
| AccountFork.DiscardRestores | boa/vm/fork.py:263-271 | discarding the newest checkpoint gives back the very journals it was opened on |
| ForkRun.RunAll | boa/vm/fork.py:165-352 | every run of reads, writes, checkpoints, errors and honest prefetches answers as one mutable copy of the remote state with snapshots |
| ForkHistory.UnwrittenIsReply | boa/vm/fork.py:231-244 | whatever a run does, a balance, nonce, code or slot that it does not write is read as the node's reply to the request for it |
| ForkHistory.ReadUntouched | boa/vm/fork.py:218-244 | after any run that leaves an account alone, its balance is the reply to `eth_getBalance`, its nonce that to `eth_getTransactionCount`, its code and slots those to `eth_getCode` and `eth_getStorageAt` |
| ForkHistory.LastWriteIsRead | boa/vm/fork.py:306-347 | a read gives the last value written to that field, whatever was committed, prefetched or written elsewhere since, and whatever later checkpoints were discarded |
| AccountFork.AgreesMeans | boa/vm/fork.py:275-281 | an entry that says what the node answers is taken over as the remote account, field by field |
| ForkRun.RollbackUndoes | boa/vm/fork.py:306-317 | discarding a checkpoint undoes every operation since, whatever was nested in between |
| ForkRun.ExistsAfterPrefetch | boa/vm/fork.py:349-352 | after an honest prefetch exactly the accounts that existed, and the listed ones not known before, exist |
| FastMem.FastMem.Extend | boa/vm/fast_mem.py:24-30 | grows as flat memory does; coherent iff the size is positive or the cache does not grow |
| FastMem.FastMem.ReadWord | boa/vm/fast_mem.py:32-39 | returns the word of flat memory; the cache stays coherent iff the read is aligned or both words are equal |
| FastMem.FastMem.Writeback | boa/vm/fast_mem.py:41-49 | the loop computes the flushed buffers; raises iff the range leaves memory, else nothing pending is left in it and a reader sees no change |
| FastMem.FastMem.ReadBytes | boa/vm/fast_mem.py:51-53 | raises iff the range leaves memory, else the bytes of flat memory, pending words included |
| FastMem.FastMem.Read | boa/vm/fast_mem.py:55-57 | raises iff the range leaves memory, else the bytes of flat memory, pending words included |
| FastMem.FastMem.WriteWord | boa/vm/fast_mem.py:59-64 | flat memory with the word written, aligned or not |
| FastMem.FastMem.Write | boa/vm/fast_mem.py:66-76 | raises iff the range leaves memory, else flat memory with the bytes written, partly overlapping words included |
| WordCache.CachedClean | boa/vm/fast_mem.py:37-38 | filling a clean cache entry hides nothing, and is coherent iff the entry is the word stored there |
| WordCache.Overwritten | boa/vm/fast_mem.py:70-76 | writing under dropped cache entries is a flat write and leaves the other entries right |
| WordCache.CachedWord | boa/vm/fast_mem.py:33-35 | a cached word is the word a flat read returns |
| WordCache.ReadWordIs | boa/vm/fast_mem.py:32-39 | for any buffers: the flat word, and coherence afterwards iff the read was harmless |
| WordCache.WriteIs | boa/vm/fast_mem.py:66-76 | for any buffers: a flat write, or an error iff the range leaves memory |
| WordCache.WritebackIs | boa/vm/fast_mem.py:41-49 | for any buffers: the loop succeeds iff the range lies in memory, and then only flushes |
| FastMem.RunAll | boa/vm/fast_mem.py:24-76 | every in-range interleaving answers as plain bytes, if unaligned word reads meet equal words and empty extensions stay within memory |
| FastMem.UnalignedReadIsRemembered | boa/vm/fast_mem.py:37-39 | after an unaligned read the aligned read of that word repeats the answer, which is right iff both words are equal |
| FastMem.ExtendByNothing | boa/vm/fast_mem.py:24-30 | `extend(64, 0)`, `extend(32, 32)`, and then 32 bytes are read as none |
| DiskCache.StepKeepsInv | boa/util/disk_cache.py:31-84 | every system call of every job, invalidation and collection keeps the invariant |
| DiskCache.SealedStays | boa/util/disk_cache.py:62-84 | a file no writer and no temporary name can reach keeps its bytes whatever anyone does |
| DiskCache.Renamed | boa/util/disk_cache.py:81-83 | the rename publishes a complete value of that key that nobody else can reach |
| DiskCache.FileKept | boa/util/disk_cache.py:76-80 | a file only its own job can reach is not changed by others |
| DiskCache.CacheIsSafe | boa/util/disk_cache.py:31-84 | after any interleaving a final name is absent or holds a complete value of its key, and only values of the key were returned |
| DiskCache.FinalNeverModified | boa/util/disk_cache.py:78-83 | a file that has its final name is never modified again |
| DiskCache.LookupsAgree | boa/util/disk_cache.py:62-84 | with a deterministic function every lookup that returns gives its value |
| DiskCache.MissStores | boa/util/disk_cache.py:75-84 | an undisturbed miss stores what it returns |
| DiskCache.HitReturns | boa/util/disk_cache.py:69-71 | an undisturbed hit returns the stored value and computes nothing |
| DiskCache.UnlinkRemoves | boa/util/disk_cache.py:56-59 | an unlinked name is gone; every other name, all files, jobs and values are as before |
| DiskCache.CollectRemoves | boa/util/disk_cache.py:34-44 | a collection removes exactly the listed names that are too old |
| DiskCache.InvalidatedIsRecomputed | boa/util/disk_cache.py:56-84 | after `invalidate` an undisturbed lookup calls the function again and returns and stores the new value |
| DiskCache.UnreadableIsReplaced | boa/util/disk_cache.py:69-84 | a file that cannot be read is a miss, and is replaced |
| DiskCache.CrashLeaves | boa/util/disk_cache.py:62-84 | a job that dies anywhere leaves names, files, values and the other jobs alone |
| Anchors.Evm.RestorePatch | boa/vm/py_evm.py:96-100 | every patchable attribute is set back |
| Anchors.Evm.Revert | boa/vm/py_evm.py:486-487 | the state of the snapshot, which is gone with all later ones; nothing if it is not live |
| Anchors.Evm.Exit | boa/environment.py:176-182 | patched values and state are those found on entry |
| Anchors.Evm.ExecuteCode | boa/environment.py:318-345 | simulated code, raising or not, leaves state, patched values and snapshots as they were |
| FixtureStack.Plugin.FixtureSetup | boa/test/plugin.py:58-75 | a fresh task is entered on top |
| FixtureStack.Plugin.WorkTaskList | boa/test/plugin.py:78-82 | the drain ends, leaves no finished task on top, and closes exactly the fixtures the specification closes |
| FixtureStack.Plugin.Finalize | boa/test/plugin.py:71-73 | state, patched values and open fixtures are those of the specification |
| FixtureStack.Session | boa/test/plugin.py:53-82 | any session of set-ups, finalizers in any order and code in between follows the specification; each task is entered once and left once unless still open; if every fixture has its finalizer among the events, nothing is open in the end and state and patched values are those at the start, but for code that ran outside every fixture |
| FixtureStack.WholeSession | boa/test/plugin.py:53-82 | the same from a new plugin, with a hypothesis on the events alone: a finalizer for each set-up, anywhere among them |
| FixtureStack.FiredAre | boa/test/plugin.py:71-76 | the finalizers that count are those among the events, on top or not |
| FixtureStack.EmptyIffAllFired | boa/test/plugin.py:78-82 | nothing is left open iff every fixture has its finalizer among the events |
| FixtureStack.FixtureUndone | boa/test/plugin.py:66-82 | closing a fixture gives back the state, patched values and outer fixtures from before its set-up, whatever ran in between |
| FixtureStack.AllFiredRestores | boa/test/plugin.py:53-82 | for every session with a finalizer for each fixture, in any order and however often the stack is empty in between: nothing is open and everything is as code outside every fixture left it, hence as at the start if there was none |
| FixtureStack.EachLeftOnce | boa/test/plugin.py:78-82 | in a balanced record with each name entered once, each context is left exactly once, or not at all while still open |
| FixtureStack.TopReverts | boa/test/plugin.py:80-82 | leaving the top context restores its state and keeps the snapshots of all others live |
| VyperLayout.EncodeLays | boa/contracts/vyper/decoder_utils.py:65-115 | every well-typed value has a layout of exactly the type's size |
| VyperDecoder.RoundTrip | boa/contracts/vyper/decoder_utils.py:65-115 | decoding any layout of a value, with arbitrary padding, gives the value |
| VyperDecoder.EncodeDecode | boa/contracts/vyper/decoder_utils.py:65-115 | every well-typed value of every type survives, whatever follows it in memory |
| VyperDecoder.DecodeIsLocal | boa/contracts/vyper/decoder_utils.py:65-115 | bytes past the type's size are never read |
| VyperDecoder.DecodeTyped | boa/contracts/vyper/decoder_utils.py:55-62 | whatever the bytes, the result is a value of the type: no container exceeds its bound |
| VyperDecoder.ScalarMeans | boa/contracts/vyper/decoder_utils.py:65-83 | of arbitrary bytes, which make up the value: the first `m`, bytes 12 to 31, the last one, all 32 read as a signed or unsigned number, or those after the length word, up to the bound |
| VyperDecoder.ArrayMeans | boa/contracts/vyper/decoder_utils.py:84-99 | an array has as many elements as its type says, or its length word up to the bound, each decoded from its own stretch |
| VyperDecoder.MembersMean | boa/contracts/vyper/decoder_utils.py:100-115 | each member of a struct or tuple is decoded from its own bytes, after those before it |
| VyperDecoder.FlattenAt | boa/contracts/vyper/decoder_utils.py:28-43 | byte `j` of slot `i` is where a reader expects it |
| VyperDecoder.DecodeStorage | boa/contracts/vyper/decoder_utils.py:28-43 | decoding through storage slots is decoding the flattened slots |
| VyperDecoder.ByteAddressableStorage.GetItem | boa/contracts/vyper/decoder_utils.py:28-43 | the slice of the flattened slots, from the slots in question only |
| VyperDecoder.DecodeAgrees | boa/contracts/vyper/decoder_utils.py:65-115 | sources that agree on the first `memory_bytes_required` bytes decode alike |
| VyperDecoder.DecodeElements | boa/contracts/vyper/decoder_utils.py:84-99 | the array loops produce the elements in order from consecutive stretches |
| VyperDecoder.DecodeMembers | boa/contracts/vyper/decoder_utils.py:100-115 | the struct and tuple loops produce the members in order from consecutive stretches |
| VyperDecoder.DecodeObject | boa/contracts/vyper/decoder_utils.py:65-115 | the procedure computes the function the theorems are about |
| AbiTuple.RoundTrip | boa/util/abi.py:73-116 | decoding inverts the encoding for arbitrarily nested static and dynamic tuples; extra bytes after a static tuple are ignored, after a dynamic one if its element decoders ignore them |
| AbiTuple.RegionIs | boa/util/abi.py:100-111 | what an element decoder is handed is exactly the element's encoding (and what follows the last dynamic one) |
| AbiTuple.EndIs | boa/util/abi.py:106-107 | the next pointer, or the end of the value, is where the element's data ends |
| AbiTuple.StaticWidth | boa/util/abi.py:79-87 | a static node encodes to its width |
| AbiTuple.DynamicIff | boa/util/abi.py:73-78 | a tuple is dynamic iff some element in it, at any depth, is |
| AbiTuple.StaticIsLeaves | boa/util/abi.py:79-97 | static data, however nested, is the encodings of its leaves one after another |
| AbiTuple.ElementIsAt | boa/util/abi.py:84-111 | a static element is in its own place in the heads, a dynamic one behind them where the number in its place says |
| AbiTuple.FailsIff | boa/util/abi.py:73-116 | decoding fails iff at some depth a tuple is handed less than its heads or an element's own decoder refuses the bytes it is handed |
| AbiTuple.NextPointer | boa/util/abi.py:100-111 | slicing between consecutive pointers of the list is slicing up to the next dynamic element |
| AbiTuple.ReplacePointers | boa/util/abi.py:98-111 | popping the data in order puts each dynamic element's region in its own place |
| AbiTuple.VisitTupleNode | boa/util/abi.py:73-116 | the procedure with its lists computes the function the theorems are about |
| HashMapView.Traces.TraceSha3 | boa/vm/py_evm.py:197-211 | only 64-byte preimages are kept, and every image leads to its true preimage |
| HashMapView.Traces.TraceSstore | boa/vm/py_evm.py:221-231 | the slot is recorded for its account and can be unwrapped |
| HashMapView.UnwrapStorageKey | boa/contracts/vyper/vyper_contract.py:379-393 | the procedure ends and appends the path of the key |
| HashMapView.UnwrapInverts | boa/contracts/vyper/vyper_contract.py:379-393 | unwrapping a slot derived at any depth gives the root and the keys in order |
| HashMapView.UnwrapIsDerived | boa/contracts/vyper/vyper_contract.py:379-393 | whatever unwraps to a root was derived from it by those keys |
| HashMapView.SetPathLookup | boa/contracts/vyper/vyper_contract.py:396-401 | one path is set and every other path of that length keeps its value |
| HashMapView.DecodeKeysInjective | boa/contracts/vyper/vyper_contract.py:436-441 | different clamped keys, hashes among them, decode to different paths |
| HashMapView.SamePathSameSlot | boa/contracts/vyper/vyper_contract.py:425-452 | no two touched slots of a map share a path |
| HashMapView.ZeroHiddenIff | boa/contracts/vyper/vyper_contract.py:445-446 | a zero word is dropped iff the value type is not an address or a non-empty bytesM |
| HashMapView.TruthyIff | boa/contracts/vyper/vyper_contract.py:442-446 | for every word, clamped or not: the value is kept iff it is an address, a non-empty bytesM, an integer other than 0 or a boolean whose last byte is set |
| HashMapView.TruthyClamped | boa/contracts/vyper/vyper_contract.py:442-446 | on clamped words everything is kept but the integer 0 and `False` |
| HashMapView.StoredIsRead | boa/contracts/vyper/vyper_contract.py:411-417 | a value stored in one slot is read back as itself |
| HashMapView.KeyIs | boa/contracts/vyper/vyper_contract.py:436-440 | each key of a path is decoded as the key type of its own level |
| HashMapView.StorageVar.Get | boa/contracts/vyper/vyper_contract.py:425-454 | exactly the touched keys whose stored word is kept, at their paths with their values; keys of other variables are left out |
| LruDict.LruDict.SetDefaultLambda | boa/util/lrudict.py:18-23 | always the function's value; the keys are the n most recently requested, in order |
| LruDict.LruDict.GetItem | boa/util/lrudict.py:6-10 | a hit moves its key to the end, a miss changes nothing |
| LruDict.LruDict.SetItem | boa/util/lrudict.py:12-15 | a new key evicts the first if full, a known key keeps its place; raises iff the capacity is 0 |
| LruDict.RunAll | boa/util/lrudict.py:6-23 | every run gives the function's values and ends with exactly the n most recent distinct keys |
| LruDict.KeptIff | boa/util/lrudict.py:6-23 | a key is kept iff fewer than n other keys were requested after it |
| LruDict.RecentNext | boa/util/lrudict.py:6-23 | how the n most recent keys change with one more request |
| Fingerprint.GetModuleFingerprint | boa/interpret.py:116-133 | the memoised fingerprint is the plain recursive one on every acyclic graph with sharing; an empty memo passed in stays empty |
| Fingerprint.FingerprintIff | boa/interpret.py:112-133 | equal fingerprints iff equal sources at every place of the dependency trees |
| Dealer.Env.UpdateStorageSlot | boa/dealer.py:49-88 | the search loop computes the function the theorems are about |
| Dealer.SuccessChangesOneSlot | boa/dealer.py:74-83 | on success one traced slot that held the result has changed and the view returns the new value |
| Dealer.NotFoundIff | boa/dealer.py:59-88 | nothing is found iff no traced slot is suitable or makes the view revert; the storage is then unchanged |
| Dealer.FailureResidue | boa/dealer.py:74-81 | any other failure leaves nothing, or the new value in a suitable slot where the view does not return it |
| Dealer.OneSlotUpdates | boa/dealer.py:49-88 | a view of one slot is always found, whatever else it loads and holds the same value |
| Dealer.DealMovesSupply | boa/dealer.py:91-107 | the supply moves by exactly the balance change; the new balance alone stays iff only the new supply is no word |
| Dealer.DealLeavesSupply | boa/dealer.py:91-107 | without adjusting, the balance slot alone changes, the supply is as before and the old balance comes back |
| Dealer.ChooseFirst | boa/dealer.py:59-75 | the slot is the first of the trace that is suitable or makes the view revert |
| Dealer.Env.Deal | boa/dealer.py:91-107 | the procedure computes the function the theorem is about |
| GasProfile.ProfilingGasMeter.ConsumeGas | boa/vm/gas_meters.py:46-49 | the ledger gains the amount at the pc and still sums to the gas consumed; out of gas changes nothing |
| GasProfile.ProfilingGasMeter.ReturnGas | boa/vm/gas_meters.py:51-54 | the ledger loses the amount and still sums to gas consumed minus returned |
| GasProfile.ProfilingGasMeter.RefundGas | boa/vm/gas_meters.py:56-59 | the refund ledger still sums to the gas refunded |
| GasProfile.Computation.AddChildComputation | boa/vm/py_evm.py:276-279 | a child is booked one past the pc the meter charges for the calling instruction |
| GasProfile.BookChild | boa/profiling.py:107-115 | moving gas to a child keeps own plus child gas, per pc and in total |
| GasProfile.ByPc | boa/profiling.py:125-141 | every pc's own and child gas, adding up to the two ledgers; raises iff some child's pc has no entry |
| GasProfile.RunByPc | boa/profiling.py:125-141 | for every run of the meter and the code stream: the profile raises iff some instruction after one that made a child books no gas in the run |
| GasProfile.CallThenStop | boa/profiling.py:131-136 | a call, gas coming back and a STOP right after it: the profile raises |
| GasProfile.Execute | boa/vm/py_evm.py:170-180 | the ledgers' pcs are the instructions that book gas, and children sit after the instruction that made them |
| GasProfile.ByLine | boa/profiling.py:144-170 | the lines add up to the distinct pcs from the first mapped one on, each charged once, and each line has exactly what the pcs that go to it cost |
| GasProfile.AttributedTo | boa/profiling.py:149-161 | a mapped pc goes to its own line; an unmapped one to the line of the last mapped pc that was new when it was met, up to its first occurrence after one |
| GasProfile.NodeIs | boa/profiling.py:149-158 | the line in force is that of the last mapped pc met for the first time: a pc seen before does not move it |
| GasProfile.ChargedIff | boa/profiling.py:150-168 | a pc is charged iff it occurs at or after a mapped pc |
| GasProfile.LineProfile.MergeSingle | boa/profiling.py:187-189 | each line of the call is added to the same line of that contract and to nothing else, so the profile grows by exactly what they add up to |

## Left out

- CompilerTheorem.CompilerCorrect: says nothing about a run after a step that fails its guard, because the two sides differ there (Departures has the exact condition for each guard); gas is not charged for memory, so an address the EVM could not pay for extends memory.
- CompilerProof.WellFormed: a loop body that sets its own index is excluded; Python's `for` would go on from the old one.
- FastMem.RunAll: an unaligned word read of a different word and an extension by nothing past the end are excluded, because the refinement is false there (FastMem.FastMem.ReadWord and FastMem.FastMem.Extend give the exact conditions).
- AccountFork.AccountDBFork.TryPrefetch: does not promise that `account_exists` is unchanged, because it is not (ForkRun.ExistsAfterPrefetch).
- AccountFork.AccountDBFork.constructor: the RPC is a deterministic total function that answers every state query; what a fork does while the node refuses those is not modelled.
- HashMapView.StorageVar.Get: maps whose keys and values are one word, with keys laid out as Vyper lays them out and no two keys of touched slots with the same bytes unless they are the same; address aliases are not looked up; a touched slot at another depth, where the code raises, is excluded.
- VyperDecoder.Decode: total on short buffers by Python's clipping, where an address of fewer than 20 bytes raises; text decoding of `String`, decimals and flags are left out.
- DiskCache.CacheIsSafe: no liveness, no wall-clock time; a collection may unlink any name at any moment, and SHA-256 and pickle are taken as injective.
- The bound on the depth of calls in `SourceIR.Eval` and `PythonTarget.Exec` is a parameter of the semantics; CompilerTheorem.AcyclicCorrect removes it for acyclic call graphs.
- Python text (indentation, comments, `exec`), the cosmetic part of temporaries' names and the prefix of labels: the compiler emits a syntax tree and labels stay as they are.
- Python's own limits: recursion depth, and the size of the number `val << bits` before it is reduced.
- Tracing hooks in emitted code are no-ops; `dload`, `dloadbytes`, logs and the other EVM opcodes go through abstract opcodes of the host, which see memory as bytes and read or write ranges after extending to them (the log and `dloadbytes` templates extend by nothing as that of `calldatacopy` does, which is not repeated for them); arithmetic goes through an abstract function.
- The executors replace `self.args` in place; the model returns a new analysed tree, with frames and emitted lines as fields of the context.
- py-evm's journals are stacks of maps in which every checkpoint is known to all or none; account deletion, self-destruct, storage roots and reads that bypass the journal are left out.
- `Memory` methods that `FastMem` does not override, beyond extending, reading and writing bytes.
- Nested dicts in `setpath` and `Datum` objects in the profile are values rather than shared objects.
- Patched values are values: mutation of the shared `prev_hashes` list is left out; fixtures marked to ignore isolation never enter the stack.
- ABI decoders of single elements are abstract; arrays count as elements, and `Address` caching is left out.
- SHA-256 and Keccak are free constructors: no collisions within or between the kinds of input.
- HTTP, sqlite locking, block explorers, the deployments database, Jupyter, stack traces, tables, statistics, coverage and ABI overload picking.
