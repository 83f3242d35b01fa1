# Verification model of the fuzzer

A Dafny model of the hard core of a snapshot fuzzer for RISC-V kernels, with proofs. Each directory is one
component; files in it build up to one or two main theorems.

- `jit/`: the chain JIT. An RV32I subset interpreter (`Rv32`), an x86-64 subset machine (`X86`), the compiler's
  structured output (`ChainCode`), its correctness (`ChainProof`, `StepProof`, `MemProof`, `ChainTheorem`), machine
  code and its decoder (`Encode`, `EncodeProof`), flat bytes with measured jumps (`Flat`, `ChainBytes`), the emitting
  compiler as classes and methods (`Emit`, `Codegen`), decoding and the two code caches (`Decoding`, `CodeCache`), the
  machine around the hart (`System`), reads of the clock (`TimeReads`), interrupt batching (`Batching`), the driver
  (`RunBlock`), and a machine and host for which all of it applies (`Instances`). What both sides of the correctness
  proof are built from is stated in arithmetic and bytes: guest instructions (`Meaning`), x86 kinds (`Machine`) and
  their encodings (`Vectors`), fetching (`Fetching`), and what a poll sees (`Polling`).
- `mmu/`: permissioned guest memory as functions (`GuestMemory`), the flat MMU on arrays with dirty tracking (`Mmu`),
  copy-on-write RAM (`CowRam`), runs of operations and when resets from a dirty list are exact (`Runs`), the two in
  lockstep (`Lockstep`), the bridge to the JIT's bus law (`RamBus`), snapshots (`Snapshot`), and which permission bits
  each access consults and leaves, written out (`Checks`).
- `smp/`: the round-robin scheduler with deferred reservation invalidation (`Harts`,
  `Scheduler`, `Reservations`), what a turn spends and whose turn is next (`Turns`), with LR/SC and AMO as instances of
  its steps (`Atomics`).
- `san/`: the heap sanitizer's policy, its class, which calls it refuses after any others (`Calls`), whole-trace
  theorems, and the two resets of a case.
- `fuzz/`: coverage maps, and the parallel fuzz loop as a step relation.
- `prog/`: typed programs, scratch serialisation, lowering, the guest agent, what its pointers lead to (`Pointees`),
  mutation, the corpus format and the minimizer; kinds, layouts, wire words and corpus text in plain terms (`Kinds`,
  `Layouts`, `CorpusText`).

`Words.dfy` holds fixed-width words with explicit wrap-around. What the program reaches outside itself is a
parameter: the kernel a program runs on, crash oracles, random choices, the syscall table, resource seeds, the
allocator's rounding, code bytes and address translation, device behaviour.

Eight claims do not hold as the source states or suggests them; each has a counterexample and an exact condition.

- A chain sees the time of its entry: reads past its first instruction must be harmless (`StaleIff`, `StaleTime`,
  `ClockParts`).
- A taint store is unknown to dirty tracking (`ShadowClean`, `TaintSurvives`; over whole runs `FollowsIff`).
- A reservation is cleared only by a store that covers its first byte (`OverlapEnds`, `SlipsThroughIff`,
  `ByteStoreSlipsThrough`); the comment at crates/fs-riscv/src/lib.rs:927-934 speaks of the same word.
- Reservations go by virtual address and stores by physical, so exclusion needs the two to agree (`ExcludesIff`,
  `AliasSlipsThrough`).
- Reopened slack forgets what was written there (`WrittenIff`, `ReopenForgets`).
- A length inside a struct is laid out but not written (`SerializeReads`, `LostLength`).
- More than 32 produced arguments do not fit the wire table (`AgentFaithful`, `FixupLost`, `CrowdOverflows`).
- Edits and subsets renumber resource arguments but not references inside pointers and structs (`EditNamesAllIff`,
  `NestedSlips`, `SubsetNested`).

Two comments differ from the code without consequence: the minimizer's "about 28" runs
(crates/fs-cli/src/main.rs:810-812) can be 35, and the scheduler's tick (crates/fs-platform/src/lib.rs:577-585) counts
steps, including those that take an interrupt or trap, rather than retired instructions. The model follows the code.

Conditions the theorems name because the code needs them: code bytes and translation stay fixed while caches live,
aliases of a physical address continue alike, and virtual equals physical for data addresses and reserved words;
where a chain may run natively, reads of the time past its first instruction are harmless (`Tame` asks it at every
point of the run, because which of them a dispatch starts at depends on the caches); devices behind the RAM oracle do
not touch interrupt enables; at each reset of the flat MMU the taint stored to unlisted blocks is golden's, and a taint
store stays in one page for the overlay; sanitizer clients have disjoint buckets inside RAM.

## Model

| member | source | states |
|---|---|---|
| `RunBlock.RunCase` | crates/fs-cli/src/main.rs:540-563 | Top result of the JIT: for any number of dispatches, with interrupts, fallbacks, cache hits, collisions and a full arena, the driver stands where some number of steps of the plain interpreter loop ends (registers, pc, CSRs, RAM, devices, retired count, exit), each dispatch having done at least one step, and it stops early only on an exit or at the deadline. Guests may read the clock: only a read past the first instruction of a place where a chain may run natively must be harmless |
| `RunBlock.Dispatch` | crates/fs-jit/src/chain.rs:330-429 | One `run_block`: an interrupt, a native chain or one cached instruction is between 1 and the chain cap many interpreter iterations; interpreted instructions, and the first of a chain, may read the time freely |
| `RunBlock.Native` | crates/fs-jit/src/chain.rs:387-428 | An admitted native call ends where the same number of interpreter iterations ends, and none of them takes an interrupt |
| `RunBlock.UnpackLands` | crates/fs-jit/src/chain.rs:393-428 | What the driver makes of the returned tag (trap, halt, repoll, done) is what the interpreter loop does with the corresponding outcome |
| `RunBlock.InterpDiag` | crates/fs-jit/src/chain.rs:330-429 | Diagnostic counters and the trap mailbox do not influence what a chain does |
| `Meaning.AluIff` | crates/fs-riscv/src/lib.rs:471-484 | What each operation gives, in arithmetic and bit by bit, with exactly one solution: an arithmetic shift is the floor of the signed quotient by a power of two, a left shift the remainder of the product, `and`, `or` and `xor` by their bits |
| `Meaning.OpMeans` | crates/fs-riscv/src/lib.rs:1516-1545 | Such an instruction puts that solution in `rd`, keeps every other register, moves the pc past itself and retires one |
| `Meaning.ConstantMeans` | crates/fs-riscv/src/lib.rs:1401-1417 | A constant goes to `rd` as it is, or added to the pc modulo 2^32; a fence does nothing but retire |
| `Meaning.LoadMeans` | crates/fs-riscv/src/lib.rs:1928-1936 | A load asks for its own width at the wrapped sum; a narrow signed one delivers the number in its range that has the loaded low bits; a fault changes no register |
| `Meaning.StoreMeans` | crates/fs-riscv/src/lib.rs:1483-1515 | A store hands over its own width; it halts iff it is a word store of an odd value to the exit register, with the upper bits as the code |
| `Meaning.BranchMeans` | crates/fs-riscv/src/lib.rs:1389-1545 | A branch goes to its target iff the registers compare that way, signed or unsigned, and changes the pc only |
| `Meaning.JumpMeans` | crates/fs-riscv/src/lib.rs:1418-1425 | A jump links the address behind it, and a register jump takes the sum with its lowest bit cleared, as arithmetic |
| `Words.SarMeans` | crates/fs-riscv/src/lib.rs:480 | Shifting right arithmetically by n is the floor of the signed value over 2 to the n |
| `Words.BitsMean` | crates/fs-riscv/src/lib.rs:478-482 | Each of the three bitwise operations, bit by bit |
| `Instances.MachineWorks` | crates/fs-jit/src/sys.rs:520-531 | Everything the JIT theorems ask of machine and host is met together: the soft-MMU over RAM, any coherent code and a host with distinct call-out addresses |
| `Instances.FencesTame` | crates/fs-cli/src/main.rs:540-563 | The driver theorem applies to a concrete guest from any valid hart |
| `Instances.ClockParts` | crates/fs-cli/src/main.rs:549-551 | Counterexample in full: a concrete machine, hart and two-instruction chain whose native run and interpreter loop end with different times |
| `Batching.Batch` | crates/fs-jit/src/chain.rs:370-374 | Batching is invisible: a chain admitted by the deadline guard equals as many rounds of sync, poll and step as it starts instructions; no poll inside it would take an interrupt; it ends early only with a trap, a halt or a store that may raise an interrupt. Only reads of the time from its second instruction on must be harmless |
| `Batching.StaleIff` | crates/fs-jit/src/chain.rs:350-374 | The exact condition for batching to be invisible, at every read of the time in a chain: native run and interpreter loop agree just after it iff it discards its result or takes in the same bits of the entry time and the current one |
| `Batching.PeekIff` | crates/fs-cli/src/main.rs:549-551 | One iteration of the interpreter loop, which refreshes the time, and one step, which does not, agree on an instruction that reads the time iff that read is harmless |
| `Batching.ExecSteady` | crates/fs-jit/src/sys.rs:150-180 | Within a chain only a store to the CLINT, after which the chain stops, can change what an interrupt poll looks at |
| `TimeReads.ExecBlind` | crates/fs-jit/src/chain.rs:350-374 | An instruction that does not read the time register does the same whatever the time register holds |
| `TimeReads.TimedLoad` | crates/fs-platform/src/lib.rs:44-72 | A load that reads the time never faults, and at two times leaves the same hart iff it discards its result or takes in the same byte, half or word of both |
| `TimeReads.GlimpseDecides` | crates/fs-platform/src/lib.rs:44-72 | Two times give a load of the time registers the same extended result iff the bytes it takes in are the same in both; the high word differs only by a carry |
| `Batching.StaleTime` | crates/fs-cli/src/main.rs:549-551 | Counterexample against the interpreter loop, for every position: a chain entered with a fresh time that loads the low word of the time register after its first instruction parts from the loop just there |
| `ChainTheorem.ChainCorrect` | crates/fs-jit/src/chain.rs:539-835 | Compiler correctness: for every valid chain, entry pc, register file, world and fallible bus, the structured x86 code delivers the registers, pc, world, retired count and trap, halt or repoll tag of interpreting the steps one by one, with the stack balanced |
| `ChainTheorem.StepsOk` | crates/fs-jit/src/chain.rs:544-560 | The body of a chain, step by step, follows the interpreter and leaves early exactly when it does |
| `ChainTheorem.StepOk` | crates/fs-jit/src/chain.rs:645-835 | One compiled step, of any kind, commits registers, pc and retired count like one interpreted instruction |
| `ChainTheorem.LoadStep` | crates/fs-jit/src/chain.rs:715-771 | A load through the fast location or the checked call-out has the interpreter's result, sign extension, fault and retired count |
| `ChainTheorem.StoreStep` | crates/fs-jit/src/chain.rs:772-832 | A store through the fast location or the call-out has the interpreter's effect, and returns the halt, repoll or trap tag exactly when it must |
| `ChainProof.AluOk` | crates/fs-jit/src/chain.rs:602-643 | The ALU code computes the RV32I operation for all ten operations, immediate or register, from flags and shifts |
| `ChainProof.CompareOk` | crates/fs-jit/src/chain.rs:602-643 | Compare, set and zero-extend give signed and unsigned less-than |
| `ChainProof.ProtectedOk` | crates/fs-jit/src/chain.rs:883-953 | Whatever a protected call-out clobbers, the pinned registers and the stack are as before |
| `Machine.ConditionsMean` | crates/fs-jit/src/emit.rs:94-110 | After a compare each condition code is the order it names: equal, below, signed less, and their opposites |
| `Machine.SelectsMean` | crates/fs-jit/src/emit.rs:216-233 | After a compare a conditional move takes the source, and a set-byte is 1, exactly in the order its condition names |
| `Machine.TestsMean` | crates/fs-jit/src/emit.rs:288-325 | The bytes of a conditional jump after the test of a register go to the target on zero, on any other content, or on a clear top bit, as the condition says |
| `Machine.SumsMean` | crates/fs-jit/src/emit.rs:160-166 | An address form adds modulo 2^32 |
| `Machine.ShiftsMean` | crates/fs-jit/src/emit.rs:183-214 | Each x86 shift as a product or quotient by a power of two |
| `Machine.ArithmeticMeans` | crates/fs-jit/src/emit.rs:57-80 | Each two-operand kind obeys the law of the guest operation of that name |
| `Machine.NarrowMeans` | crates/fs-jit/src/emit.rs:333-366 | Each narrow host load extends with zeros or with the sign |
| `StepProof.JalrOk` | crates/fs-jit/src/chain.rs:683-694 | The jump target comes from the old `rs1` and is made even; the link is written after, so `rd == rs1` is safe |
| `StepProof.JalOk` | crates/fs-jit/src/chain.rs:672-682 | Target and link are relative to the runtime entry pc |
| `StepProof.BranchStepOk` | crates/fs-jit/src/chain.rs:695-714 | The conditional move selects target or fall-through exactly by the branch condition |
| `StepProof.OpOk` | crates/fs-jit/src/chain.rs:665-670 | A register-register operation writes `rd` from the two sources and nothing else |
| `MemProof.SlowLoadOk` | crates/fs-jit/src/chain.rs:742-771 | The load call-out commits pc before the call, returns the trap tag with the trap stashed, or writes the extended value and retires |
| `MemProof.SlowStoreOk` | crates/fs-jit/src/chain.rs:800-832 | The store call-out returns trap, halt, repoll or continues, having retired and moved pc past the store in the latter cases only |
| `MemProof.AskFastOk` | crates/fs-jit/src/chain.rs:715-741 | The address, the fast-location question and the branch on its answer take the fast block iff a location was given |
| `EncodeProof.RoundTrip` | crates/fs-jit/src/emit.rs:113-390 | Every encodable instruction decodes to itself and its own length, whatever bytes follow |
| `Vectors.AluRegister` | crates/fs-jit/src/emit.rs:168-174 | Worked encoding in bytes, with registers the compiler uses: each of the six operations on two registers |
| `Vectors.Shifts` | crates/fs-jit/src/emit.rs:183-214 | Worked encoding in bytes, with registers the compiler uses: each shift, by the count register and by a constant |
| `Vectors.Jumps` | crates/fs-jit/src/emit.rs:312-331 | Worked encoding in bytes, with registers the compiler uses: the jump on each condition, and the plain one |
| `Vectors.NarrowLoads` | crates/fs-jit/src/emit.rs:333-366 | Worked encoding in bytes, with registers the compiler uses: each narrow load |
| `Vectors.NarrowStores` | crates/fs-jit/src/emit.rs:374-390 | Worked encoding in bytes, with registers the compiler uses: each narrow store |
| `Vectors.AluImmediate` | crates/fs-jit/src/emit.rs:175-182 | Worked encoding in bytes, with registers the compiler uses: each of the six operations with a constant |
| `Vectors.Constants` | crates/fs-jit/src/emit.rs:137-142 | Worked encoding in bytes, with registers the compiler uses: a word constant, with and without prefix |
| `Vectors.WideConstant` | crates/fs-jit/src/emit.rs:297-303 | Worked encoding in bytes, with registers the compiler uses: any double-word constant |
| `Vectors.RecordMoves` | crates/fs-jit/src/emit.rs:144-166 | Worked encoding in bytes, with registers the compiler uses: a word from memory, to memory, and an address |
| `Vectors.Counters` | crates/fs-jit/src/emit.rs:244-252 | Worked encoding in bytes, with registers the compiler uses: adding to a counter |
| `Vectors.SetBytes` | crates/fs-jit/src/emit.rs:216-226 | Worked encoding in bytes, with registers the compiler uses: setting a byte by each condition |
| `Vectors.CondMoves` | crates/fs-jit/src/emit.rs:227-234 | Worked encoding in bytes, with registers the compiler uses: a move on each condition |
| `Vectors.Tests` | crates/fs-jit/src/emit.rs:235-296 | Worked encoding in bytes, with registers the compiler uses: a register tested with itself, and a byte extended |
| `Vectors.Stack` | crates/fs-jit/src/emit.rs:275-287 | Worked encoding in bytes, with registers the compiler uses: every push and two pops of the protected registers |
| `Vectors.Calls` | crates/fs-jit/src/emit.rs:259-311 | Worked encoding in bytes, with registers the compiler uses: the indirect call and the return |
| `Flat.Sim` | crates/fs-jit/src/chain.rs:843-874 | Flat bytes run like the structured code: every measured displacement lands on the first byte of its block |
| `Flat.SimIfElse` | crates/fs-jit/src/chain.rs:863-874 | Both branches of a compiled if-else meet behind it |
| `ChainBytes.CodeFits` | crates/fs-jit/src/chain.rs:539-835 | Every compiled chain is encodable and each of its blocks is within reach of a 32-bit displacement |
| `ChainBytes.BytesCorrect` | crates/fs-jit/src/chain.rs:539-568 | End to end in bytes: running the compiled bytes from anywhere in the arena finishes and delivers what interpreting the chain delivers |
| `Codegen.Compile` | crates/fs-jit/src/chain.rs:539-568 | The emitting compiler produces exactly the bytes of that theorem |
| `Codegen.EmitStep` | crates/fs-jit/src/chain.rs:645-835 | Emitting one step appends exactly its specified code |
| `Emit.Asm.EmitSkip` | crates/fs-jit/src/chain.rs:843-848 | The buffer gains a jump whose displacement is the measured length of the block it skips |
| `Emit.Asm.EmitIfElse` | crates/fs-jit/src/chain.rs:863-874 | The buffer gains both blocks with both displacements measured |
| `Emit.Asm.MemOperand` | crates/fs-jit/src/emit.rs:144-390 | The nine base-plus-displacement forms, prefixes included |
| `Decoding.DecodeChain` | crates/fs-jit/src/chain.rs:478-533 | The decoding loop computes the chain specified recursively |
| `Decoding.ChainShape` | crates/fs-jit/src/chain.rs:478-533 | Steps are contiguous, at most the cap, and each is what a fresh fetch at its own address gives |
| `Decoding.ChainMaximal` | crates/fs-jit/src/chain.rs:478-533 | A chain shorter than the cap ends only at a terminal, at the page or translation edge, or before an instruction that may not be chained |
| `Decoding.ChainValid` | crates/fs-jit/src/chain.rs:478-533 | What is decoded meets the precondition of the compiler theorem |
| `Decoding.ChainAlias` | crates/fs-jit/src/chain.rs:272-324 | Two virtual aliases of one physical address decode to the same chain |
| `Fetching.FetchMeans` | crates/fs-jit/src/lib.rs:146-162 | An instruction is its half-word, expanded, iff that is compressed; otherwise the half-word here below the half-word behind it, which may lie behind another translation |
| `Fetching.LinkMeans` | crates/fs-jit/src/chain.rs:478-533 | A chain goes past an instruction iff it can be chained, is not a jump or branch, and the next one lies on the same page |
| `Fetching.ChainStays` | crates/fs-jit/src/chain.rs:478-533 | Every byte of a chain lies on the page it starts on, or on one that never changes |
| `CodeCache.BlockCache.Fetch` | crates/fs-jit/src/lib.rs:146-162 | After any hits, misses and evictions the cached fetch is the interpreter's own fetch and decode |
| `CodeCache.BlockCache.CompileRun` | crates/fs-jit/src/lib.rs:190-283 | Look-ahead fills slots truthfully and reports a fault only for the first instruction |
| `CodeCache.Arena.Write` | crates/fs-jit/src/sys.rs:488-505 | The bump allocator appends, or declines and changes nothing |
| `CodeCache.LaidMore` | crates/fs-jit/src/sys.rs:488-505 | Every region in the arena keeps exactly its chain's bytes, apart from the others, when another is appended |
| `CodeCache.ChainCache.Compile` | crates/fs-jit/src/chain.rs:272-324 | A new slot names a region that holds the bytes of the freshly decoded chain, or says nothing was compiled |
| `CodeCache.ChainCache.LookupOrCompile` | crates/fs-jit/src/chain.rs:272-324 | Whatever was cached before, an answer is given iff the page is golden, and a non-empty one is compiled from what decoding here gives now; a tag hit changes nothing; collisions cost a recompile only |
| `CodeCache.ChainCache.CallDelivers` | crates/fs-jit/src/sys.rs:520-531 | Calling the arena at a slot's offset delivers what interpreting the fresh chain delivers |
| `System.SysLawful` | crates/fs-platform/src/lib.rs:193-253 | The machine's bus (RAM, CLINT, other devices) keeps the promise about fast locations |
| `Polling.RouteMeans` | crates/fs-platform/src/lib.rs:193-217 | The device answers exactly in its window, the memory everywhere else |
| `Polling.ViewMeans` | crates/fs-cli/src/main.rs:549-551 | An iteration shows a poll the retired count as the time, a timer interrupt iff the compare value has come, a software one iff its bit is set |
| `Polling.CompareWords` | crates/fs-platform/src/lib.rs:66-74 | The compare register takes its two words one at a time, and reads back as both |
| `Polling.OtherRegisters` | crates/fs-platform/src/lib.rs:40-94 | The software bit is the lowest of what is written, the time reads as its two words and cannot be written, and any other store is ignored |
| `RamBus.RamLawful` | crates/fs-mmu/src/lib.rs:592-615 | The soft MMU gives the bus law the chain theorem asks for: a fast location stands for the checked access |
| `RamBus.RamFaults` | crates/fs-riscv/src/lib.rs:1982-1990 | A refused access traps with the misaligned cause iff it is unaligned, and with the access cause otherwise |
| `FlatMmu.Mmu.Access` | crates/fs-mmu/src/lib.rs:391-417 | The one-pass and the bytewise read and fetch agree: same bytes, or the fault of the first byte that denies |
| `Checks.FetchIff` | crates/fs-mmu/src/lib.rs:513-533 | A fetch succeeds iff every byte lies in the window with its execute bit set, whatever its read bit |
| `Checks.LoadIff` | crates/fs-mmu/src/lib.rs:391-417 | A read succeeds iff every byte lies in the window with its read bit set |
| `Checks.ReadMeans` | crates/fs-mmu/src/lib.rs:391-417 | A successful read or fetch gives the bytes there; a refused one names the first byte that denies, the whole length and why: unmapped outside the window, permission inside |
| `Checks.WriteMeans` | crates/fs-mmu/src/lib.rs:426-468 | A write commits the longest run of writable bytes and faults at the one behind it; a byte it lands on holds the last data to land there, becomes readable and stops counting as raw, and no other byte changes |
| `Checks.FastIff` | crates/fs-mmu/src/lib.rs:592-609 | A fast location is given iff the span lies in the window and each byte has the bits asked for and neither of the two that forbid it |
| `Checks.SizedLoad` | crates/fs-mmu/src/lib.rs:470-495 | A sized load is refused when unaligned and is little-endian otherwise |
| `Checks.StoreThenLoad` | crates/fs-mmu/src/lib.rs:470-507 | A sized store that is not refused loads back as the low bytes of its value |
| `Checks.AnswersMean` | crates/fs-mmu/src/lib.rs:391-616 | So every operation of the runs below, flat or copy-on-write, answers and leaves what these laws say |
| `FlatMmu.Mmu.Write` | crates/fs-mmu/src/lib.rs:426-448 | The one-pass and the bytewise write agree in contents, permissions, fault and dirty list |
| `FlatMmu.Mmu.WriteBytewise` | crates/fs-mmu/src/lib.rs:451-468 | A write that faults midway keeps its prefix, upgraded and marked |
| `FlatMmu.Mmu.MarkDirty` | crates/fs-mmu/src/lib.rs:224-231 | A block is listed once; its bit is set iff it is listed |
| `FlatMmu.Mmu.ClearDirty` | crates/fs-mmu/src/lib.rs:240-245 | Zeroing whole words of listed blocks leaves no bit set anywhere |
| `FlatMmu.Mmu.ResetDirty` | crates/fs-mmu/src/lib.rs:254-263 | Listed blocks come back from golden, others are left |
| `FlatMmu.Mmu.Protect` | crates/fs-mmu/src/lib.rs:308-317 | Permissions of the span are replaced, stopping at the first byte outside |
| `FlatMmu.Mmu.FastStore` | crates/fs-mmu/src/lib.rs:592-615 | Storing through a fast location is the checked write: contents, permissions and dirty list |
| `FlatMmu.Mmu.WriteShadow` | crates/fs-mmu/src/lib.rs:580-590 | Taint bits change and nothing else, unlisted by dirty tracking |
| `GuestMemory.ReadOpen` | crates/fs-mmu/src/lib.rs:391-401 | Over an open span the bytewise read is the slice |
| `GuestMemory.WriteOpen` | crates/fs-mmu/src/lib.rs:426-468 | Over an open span the bytewise write is one splice with upgraded permissions |
| `GuestMemory.DirtyOpen` | crates/fs-mmu/src/lib.rs:434-448 | Marking the blocks of a span is marking byte by byte |
| `GuestMemory.FastIsChecked` | crates/fs-mmu/src/lib.rs:592-615 | Where a fast location is given, load and store through it equal the checked access |
| `GuestMemory.RestoreExact` | crates/fs-mmu/src/lib.rs:254-263 | The reset restores the whole image iff every unlisted block still equals golden |
| `GuestMemory.WriteStaysClean` | crates/fs-mmu/src/lib.rs:426-468 | Every write, whole, partial or faulting, lists the blocks it changes |
| `GuestMemory.ShadowClean` | crates/fs-mmu/src/lib.rs:580-590 | After a taint store the reset is exact iff every byte it reaches in a block not listed is given the taint golden has there, a condition on the arguments of the store |
| `GuestMemory.ShadowAt` | crates/fs-mmu/src/lib.rs:580-590 | Each byte of memory has after a taint store the taint of the one byte of the span that lands on it, or what it had |
| `GuestMemory.TaintSurvives` | crates/fs-mmu/src/lib.rs:580-590 | Counterexample: one tainted byte survives a reset |
| `CopyOnWrite.CowRam.EnsurePage` | crates/fs-mmu/src/lib.rs:852-870 | Overlaying a page is invisible, and directory, pages and dirty list stay in step |
| `CopyOnWrite.CowRam.Access` | crates/fs-mmu/src/lib.rs:882-915 | Reads through the overlay are the reads of the flat view |
| `CopyOnWrite.CowRam.Write` | crates/fs-mmu/src/lib.rs:921-943 | Writes through the overlay are the writes of the flat view: same fault, same kept prefix |
| `CopyOnWrite.CowRam.WriteBytewise` | crates/fs-mmu/src/lib.rs:946-965 | The same for spans that cross pages or hit a denying byte |
| `CopyOnWrite.CowRam.FastStore` | crates/fs-mmu/src/lib.rs:1055-1084 | Storing through the overlay's fast location is the checked write |
| `CopyOnWrite.CowRam.WriteShadow` | crates/fs-mmu/src/lib.rs:1109-1126 | Equals the flat taint store within a page, and does nothing otherwise |
| `CopyOnWrite.CowRam.ReadRawState` | crates/fs-mmu/src/lib.rs:1090-1104 | Equals the flat raw-state query |
| `CopyOnWrite.CowRam.Reset` | crates/fs-mmu/src/lib.rs:1151-1157 | The view is golden again |
| `Lockstep.Side` | crates/fs-mmu/src/lib.rs:797-965 | Flat MMU and overlay lane, from one golden image, answer alike and show the same planes after any run of operations whose resets are golden, taint stores included; golden and the other lanes are untouched by any run |
| `Lockstep.RunFlat` | crates/fs-mmu/src/lib.rs:191-263 | For any operations the flat MMU, on arrays, makes the run of a memory that resets from its dirty list; and it follows the abstract run, taint stores before resets included, when the resets are golden |
| `Runs.FollowsIff` | crates/fs-mmu/src/lib.rs:191-263 | The exact condition for the flat MMU to follow the abstract run at every point: at each reset, every byte of an unlisted block that was given a taint since the last one was last given the taint golden has there |
| `Runs.UntaintedGolden` | crates/fs-mmu/src/lib.rs:254-263 | In particular it does when no reset comes after a taint store |
| `Lockstep.RunCow` | crates/fs-mmu/src/lib.rs:797-965 | The overlay follows the same abstract run |
| `Lockstep.RunLane` | crates/fs-mmu/src/lib.rs:637-660 | One lane's run changes neither golden nor another lane |
| `Snapshots.Snapshot.Reset` | crates/fs-platform/src/lib.rs:390-395 | Hart, CLINT and console length are restored; RAM is golden iff no block changed unlisted |
| `Snapshots.Case` | crates/fs-platform/src/lib.rs:373-396 | Capture, any mix of checked and fast accesses and taint stores, reset: hart, CLINT and console are as captured, and RAM is exactly if the taint left in unlisted blocks is golden |
| `Scheduler.RunSmp` | crates/fs-platform/src/lib.rs:613-673 | For every hart count, quantum and deadline, the scheduler that invalidates at the end of each turn ends in the harts, machine, stops, tick and history of the one that invalidates at every store |
| `Scheduler.Turn` | crates/fs-platform/src/lib.rs:631-654 | A turn on the recording bus is the immediate turn once its recorded stores are applied |
| `Turns.TurnSpends` | crates/fs-platform/src/lib.rs:631-654 | Every turn stops no step late or early: before its last step it has some of the quantum left, it never exceeds it, and if it ends before the deadline without a stop it has retired exactly the quantum; with a quantum of zero it takes one step |
| `Turns.TurnOthers` | crates/fs-platform/src/lib.rs:627-672 | A turn leaves what another hart has retired, is about to do, and whether it has stopped, as they were |
| `Turns.NextTurn` | crates/fs-platform/src/lib.rs:627-630 | The next turn belongs to the first hart, in cyclic order, that has not stopped, with a fresh quantum; the run ends after it iff frozen by a hypercall, all stopped or out of ticks |
| `Turns.StepMeans` | crates/fs-platform/src/lib.rs:638-650 | Each step shows the hart the global tick as the time, and what it exits with is its reason to stop |
| `Turns.ClintPrivate` | crates/fs-platform/src/lib.rs:40-64 | A write to the compare value or software bit of one hart is seen by that hart and by no other |
| `Scheduler.InvalidateOthers` | crates/fs-platform/src/lib.rs:657-663 | The closing loops clear exactly what the recorded stores would have cleared, in order |
| `Scheduler.StepSystem` | crates/fs-platform/src/lib.rs:543-571 | One step on the recording bus, every successful store recorded |
| `Scheduler.RecordingBus.Serve` | crates/fs-platform/src/lib.rs:548-558 | Requests are forwarded unchanged; successful stores alone are recorded |
| `Harts.ExecAgrees` | crates/fs-platform/src/lib.rs:592-598 | Within one step, recording and immediate invalidation agree on everything the step and the others see |
| `Atomics.ReservedStep` | crates/fs-riscv/src/lib.rs:1566-1576 | A load-reserved takes the reservation only once its load has succeeded |
| `Atomics.ConditionalStep` | crates/fs-riscv/src/lib.rs:1577-1591 | A store-conditional stores and answers 0 iff its reservation is held, and gives it up either way unless the store faults |
| `Atomics.AmoStep` | crates/fs-riscv/src/lib.rs:1592-1624 | An AMO loads, stores the combined value, returns the old one and gives up its own reservation; a fault of either access leaves registers alone |
| `Atomics.AmoMeans` | crates/fs-riscv/src/lib.rs:1597-1607 | Each combination in arithmetic or bit by bit: signed and unsigned minimum and maximum as the one of the two that is not above, or not below, the other |
| `Atomics.BytewiseMeans` | crates/fs-riscv/src/lib.rs:1952-1957 | A word handed over byte by byte is its four bytes, lowest first |
| `Atomics.WordBack` | crates/fs-riscv/src/lib.rs:1916-1923 | Gathered byte by byte, it is the word again |
| `Atomics.AtomicEnds` | crates/fs-riscv/src/lib.rs:1566-1624 | Each of these instructions makes finitely many bus accesses, as the scheduler theorem asks of a step |
| `Reservations.ConditionalSucceedsIff` | crates/fs-riscv/src/lib.rs:1566-1591 | Over every run, a store-conditional succeeds iff its hart reserved that address (or started with it) and since then neither gave it up nor saw another hart's store cover its first byte |
| `Reservations.HeldMeans` | crates/fs-riscv/src/lib.rs:935-943 | A reservation is held iff nothing since it was made has ended it |
| `Reservations.OverlapEnds` | crates/fs-riscv/src/lib.rs:935-943 | A store overlapping the reserved word ends the reservation iff it starts at or below the reserved address |
| `Reservations.EndsExactly` | crates/fs-riscv/src/lib.rs:935-943 | Another hart's store ends a reservation iff it writes the reserved address itself; its own never does |
| `Reservations.CleanIff` | crates/fs-riscv/src/lib.rs:935-943 | A lasting reservation met no overlapping foreign store iff none started inside its word |
| `Reservations.WordsExclude` | crates/fs-platform/src/lib.rs:592-598 | With aligned word stores only, no store-conditional succeeds across another hart's store to the word whose physical address is its reserved address, in any run |
| `Reservations.ExcludesIff` | crates/fs-riscv/src/lib.rs:1574-1576 | Aligned word stores exclude each other from a word in every history iff the word is reserved under a virtual address equal to its physical one |
| `Reservations.SlipsThroughIff` | crates/fs-platform/src/lib.rs:592-598 | In a whole two-hart run with any reserved address and any store between, the store-conditional succeeds iff the store does not cover the reserved address |
| `Reservations.ByteStoreSlipsThrough` | crates/fs-platform/src/lib.rs:592-598 | Counterexample, a whole two-hart run: a store-conditional succeeds although another hart has stored a byte into the reserved word |
| `Reservations.AliasSlipsThrough` | crates/fs-riscv/src/lib.rs:1945-1962 | Counterexample, a whole two-hart run: a word reserved through a virtual alias is stored to at its physical address, and the store-conditional succeeds |
| `Reservations.StepsBounded` | crates/fs-platform/src/lib.rs:626-672 | A run takes at most max(deadline, 1) steps and ends only at a freeze, with all harts stopped, or at the deadline |
| `Policy.QuarantineKept` | crates/fs-san/src/alloc.rs:387-411 | Every operation, failing or not, keeps the queue duplicate-free, equal to the map's keys, disjoint from what is live and within max(cap, 1) |
| `HeapSanitizer.Sanitizer.AllocWithSlack` | crates/fs-san/src/alloc.rs:241-270 | The method on live maps and permission bytes is the policy operation |
| `HeapSanitizer.Sanitizer.AllocExactNoUafGuard` | crates/fs-san/src/alloc.rs:305-326 | The same for the exact allocation that is not poisoned on free |
| `HeapSanitizer.Sanitizer.ReopenSlack` | crates/fs-san/src/alloc.rs:343-359 | The same for reopened slack |
| `HeapSanitizer.Sanitizer.Free` | crates/fs-san/src/alloc.rs:387-405 | The same for free and the quarantine |
| `HeapCalls.LiveIs` | crates/fs-san/src/alloc.rs:241-411 | After any calls an address is live iff it was given out without an error and not freed since, read off the answers alone |
| `HeapCalls.FreeAnswers` | crates/fs-san/src/alloc.rs:387-405 | After any calls, a free of what is not owned answers an invalid free of that address and changes nothing; of what is owned it ends the ownership, and succeeds iff it does not poison or its whole bucket is mapped |
| `HeapCalls.DoubleFree` | crates/fs-san/src/alloc.rs:387-389 | A second free of an address answers an invalid free and changes nothing, however long after and whatever came between, short of another allocation there |
| `HeapCalls.TakeAnswers` | crates/fs-san/src/alloc.rs:241-326 | After any calls, an allocation at what is owned answers a double allocation and changes nothing; elsewhere it succeeds iff every byte of the payload is mapped, wherever the slack is |
| `HeapCalls.WidenAnswers` | crates/fs-san/src/alloc.rs:343-359 | After any calls a reopening of what is not owned answers an unknown pointer and changes nothing |
| `HeapCalls.TakeRecords` | crates/fs-san/src/alloc.rs:241-326 | What is recorded: the larger of request and bucket, the bytes between as slack, whether freeing poisons |
| `HeapCalls.FreeRemembers` | crates/fs-san/src/alloc.rs:396-405 | A poisoning free puts the address last in the queue, and exactly the oldest leaves it iff it was full |
| `HeapCalls.TakeStamps` | crates/fs-san/src/alloc.rs:241-326 | Each byte after an allocation inside the window: payload writable, unreadable and never written, slack shut, all else as before |
| `HeapCalls.GiveStamps` | crates/fs-san/src/alloc.rs:343-405 | Each byte after a poisoning free or a reopening inside the window |
| `HeapCalls.ProtectIff` | crates/fs-mmu/src/lib.rs:308-317 | Stamping succeeds iff every byte of the span is mapped, and otherwise faults at the first that is not |
| `SanTrace.StepKeeps` | crates/fs-san/src/alloc.rs:241-411 | Every event of a client with disjoint, in-bounds buckets keeps the map from byte zones to permissions |
| `SanTrace.Begins` | crates/fs-san/src/alloc.rs:241-411 | That map holds at the start: with no objects, over any memory |
| `SanTrace.NoFalsePositive` | crates/fs-san/src/alloc.rs:241-270 | Over whole runs: a write in a live payload never faults and what it wrote reads back |
| `SanTrace.WrittenReads` | crates/fs-mmu/src/lib.rs:391-401 | Written bytes of a payload read without a fault |
| `SanTrace.WrittenIff` | crates/fs-san/src/alloc.rs:241-405 | A written byte stays written through an event iff the event neither allocates over it, nor frees and poisons its object, nor reopens the slack it lies in |
| `SanTrace.WrittenLasts` | crates/fs-san/src/alloc.rs:241-405 | Over whole runs: a written byte reads without a fault for as long as no such event happens |
| `SanTrace.Caught` | crates/fs-san/src/alloc.rs:365-405 | Over whole runs: any access covering unopened slack or a freed byte faults |
| `SanTrace.FreedAll` | crates/fs-san/src/alloc.rs:387-405 | Freeing makes every byte of the bucket a freed one |
| `SanTrace.UseAfterFree` | crates/fs-san/src/alloc.rs:387-405 | A freed byte stays freed through any further run until an allocation covers it |
| `SanTrace.Untouched` | crates/fs-san/src/alloc.rs:241-411 | Bytes never handed out keep their permissions and contents through any run in which no store of the guest is committed to them, wherever else it stores |
| `SanTrace.SpansMiss` | crates/fs-san/src/alloc.rs:241-411 | In particular through any run in which no span that is stored to contains the byte, whatever faults |
| `SanTrace.CommitsExactly` | crates/fs-mmu/src/lib.rs:451-468 | A write, faulting midway or not, upgrades exactly the bytes it is committed to and leaves every other byte alone |
| `SanTrace.ReopenForgets` | crates/fs-san/src/alloc.rs:343-359 | Counterexample: reopening slack again makes bytes written there unreadable |
| `CaseReset.BothResets` | crates/fs-cli/src/main.rs:96-123 | Dirty-block reset and permission restore, in either order, give golden iff every changed byte is in a listed block or, for permissions alone, in a marked range |
| `CaseReset.RunCase` | crates/fs-cli/src/main.rs:201-372 | From golden back to golden over any mix of guest writes and allocator hooks, if bucket sizes are not below request sizes; the error count rises by exactly the events the sanitizer refuses |
| `CaseReset.SanCtx.RestoreDirtiedPerms` | crates/fs-cli/src/main.rs:110-122 | Exactly the marked permission bytes are stamped from golden |
| `CaseReset.SanCtx.OnAlloc` | crates/fs-cli/src/main.rs:218-255 | The allocation hook: the policy operation, then the payload opened, inside a range marked before; an error is counted iff the operation refuses |
| `CaseReset.SanCtx.OnFree` | crates/fs-cli/src/main.rs:256-266 | The free hook: the policy operation inside the marked bucket; an error is counted iff it refuses |
| `CaseReset.SanCtx.OnKsize` | crates/fs-cli/src/main.rs:272-290 | The reopening hook: the policy operation, then the bucket opened; an error is counted iff it refuses |
| `CaseReset.SanCtx.OnCacheAlloc` | crates/fs-cli/src/main.rs:299-341 | The cache-allocation hook: the exact operation, then the object opened; an error is counted iff it refuses |
| `CaseReset.HookOpens` | crates/fs-cli/src/main.rs:218-255 | After its hook an allocation inside the window is open for reads and writes and its slack shut, byte by byte, everything else as before |
| `CaseReset.HookReopens` | crates/fs-cli/src/main.rs:256-290 | After its hook a reopened bucket is open throughout, and a freed one shut where frees poison, everything else as before |
| `CaseReset.FreeTwice` | crates/fs-cli/src/main.rs:256-266 | A return event for an address that is not live counts an error and changes nothing, and after any return event its address is not live; an allocation event at a live address counts an error |
| `CaseReset.SmallBucket` | crates/fs-cli/src/main.rs:218-224 | Counterexample: with a bucket smaller than the request a stamped byte is on no list |
| `Parallel.Linearizable` | crates/fs-cli/src/main.rs:2309-2476 | When all workers have ended, under every schedule: shared map, corpus, crash set and counters are a serial fold over a log that holds every case below `cases` exactly once, each with the run its execution in the schedule carried. Entry by entry: the counters are the numbers of log entries that ended with that stop and the sum of their instructions, crashes the number that crashed, signatures the set of theirs, each map bucket the highest class of any entry, the corpus the entries that were new where they stand, in order |
| `Parallel.LogIsExecutions` | crates/fs-cli/src/main.rs:2366-2448 | At any point at which no case waits for the lock, the log is a permutation of the executions the schedule performed, skipped cases included |
| `Parallel.EverySchedule` | crates/fs-cli/src/main.rs:2309-2476 | At every point of every schedule the shared state is such a fold, no snapshot is ahead of it, each local corpus is a prefix, and pending counts are conserved |
| `Parallel.SkipIsNothing` | crates/fs-cli/src/main.rs:2375-2391 | A case skipped without the lock adds nothing to the authoritative map |
| `Parallel.MergeIsFold` | crates/fs-cli/src/main.rs:2393-2448 | The critical section is the serial step |
| `Parallel.LockIff` | crates/fs-cli/src/main.rs:2375-2391 | A finished case takes the lock iff some bucket advances over the snapshot, it crashed, or it is the 64th since the last merge |
| `Parallel.StaleBound` | crates/fs-cli/src/main.rs:2375-2391 | At every point of every schedule a worker holds back the counts of fewer than 64 cases, or waits for the lock with at most 64 |
| `Parallel.MergeRefreshes` | crates/fs-cli/src/main.rs:2393-2448 | At every point of every schedule a worker that has just merged holds the shared map and corpus and owes nothing |
| `Parallel.ClaimKeeps` | crates/fs-cli/src/main.rs:2322-2325 | Claiming an index keeps the invariant |
| `Parallel.ExecuteKeeps` | crates/fs-cli/src/main.rs:2366-2391 | Running a case and deciding about the lock keep the invariant |
| `Parallel.MergeKeeps` | crates/fs-cli/src/main.rs:2393-2448 | Merging, and refreshing the snapshots, keep the invariant |
| `Parallel.FlushKeeps` | crates/fs-cli/src/main.rs:2468-2476 | The final flush keeps the invariant |
| `Coverage.NothingNew` | crates/fs-cov/src/lib.rs:163-173 | Nothing new to a map is nothing new to any map above it |
| `Coverage.MoreHits` | crates/fs-cov/src/lib.rs:163-173 | A run that hits everywhere at least as often is new wherever the other is, and once it is folded in the other is new nowhere |
| `Coverage.VirginMap.HasNewBits` | crates/fs-cov/src/lib.rs:163-173 | The loop joins the classified run into the map and tells whether any class advanced |
| `Coverage.CovBitmap.RecordEdge` | crates/fs-cov/src/lib.rs:103-106 | Hit counts are the saturated numbers of recorded edges per bucket |
| `Coverage.EdgeMeans` | crates/fs-cov/src/lib.rs:61-63 | Each of the sixteen bits of the bucket is the sum, modulo two, of that bit of the target and the next higher bit of the source |
| `Coverage.SaturateMeans` | crates/fs-cov/src/lib.rs:103-106 | A counter holds the number of hits up to 255, and 255 from then on |
| `Coverage.JoinLeast` | crates/fs-cov/src/lib.rs:163-173 | Folding a run in gives the least map above the old one and the classes of the run, and is new iff that is another map |
| `Coverage.CovBitmap.Clear` | crates/fs-cov/src/lib.rs:125-128 | After clearing, the counts are those of no edges |
| `Coverage.Classify` | crates/fs-cov/src/lib.rs:72-84 | Classes 0 to 8, and 0 only for no hit |
| `Coverage.ClassifyMeans` | crates/fs-cov/src/lib.rs:72-84 | The class of a count is how many of the eight thresholds 1, 2, 3, 4, 8, 16, 32 and 128 it reaches |
| `Scratch.LayoutOk` | crates/fs-prog/src/lower.rs:95-109 | Fields are aligned, in order, disjoint and inside the struct |
| `Layouts.IntegersNatural` | crates/fs-prog/src/lower.rs:55-66 | The four integer widths take their own number of bytes, at multiples of it |
| `Layouts.LeavesNatural` | crates/fs-prog/src/lower.rs:70-80 | Words and pointers are four bytes at multiples of four; bytes go anywhere, as many as there are |
| `Layouts.StructNatural` | crates/fs-prog/src/lower.rs:95-109 | A struct is aligned like its most demanding field, each field follows the one before after less padding than its alignment, and so does the end |
| `Scratch.StructLayout` | crates/fs-prog/src/lower.rs:95-109 | The loop computes offsets, padded size and alignment |
| `Scratch.ScratchWriter.Write` | crates/fs-prog/src/lower.rs:39-52 | Aligned append, or overflow |
| `Scratch.ScratchWriter.SerializeInto` | crates/fs-prog/src/lower.rs:120-160 | Nested pointees first, then the value, in place in the writer |
| `ScratchProof.SerializeReads` | crates/fs-prog/src/lower.rs:120-160 | Reading the image at the returned offset, following pointers, recovers the value iff its inner lengths are zero, in this and every later image; the place is aligned and the length is the computed size |
| `ScratchProof.BuildReads` | crates/fs-prog/src/lower.rs:120-154 | Every built value reads back as itself, pointees included |
| `ScratchProof.Moved` | crates/fs-prog/src/lower.rs:39-52 | The same bytes elsewhere, over a grown image, read the same |
| `ScratchProof.LostLength` | crates/fs-prog/src/lower.rs:152-154 | Counterexample: a length field inside a struct is laid out but serialised as nothing |
| `Lowering.LowerWithCap` | crates/fs-prog/src/lower.rs:202-282 | One pass over calls, writer, fixups and out-array table computes the lowering |
| `Lowering.ToWire` | crates/fs-prog/src/lower.rs:300-324 | The wire image, word for word |
| `Layouts.WireMeans` | crates/fs-prog/src/lower.rs:300-324 | Every word of the wire image: both counts, each call, each fixup, and zero everywhere else |
| `Agent.RunAgent` | boot/agent.c:129-154 | The agent's loops over a wire image are their specification |
| `Agent.CallsOk` | crates/fs-prog/src/lower.rs:202-282 | The fixup table has a closed form and every other argument is its plain meaning |
| `Agent.MeaningMeans` | crates/fs-prog/src/lower.rs:202-282 | What an argument means in direct evaluation: a constant or seed its value, a pointer the address of its bytes, a returned resource what that call returned, a resource from an array the word in its slot |
| `Agent.ApplyOwn` | boot/agent.c:141-149 | A call's own fixups put each produced value in its place and touch nothing else |
| `Faithful.AgentFaithful` | boot/agent.c:129-154 | For every lowerable program within the fixup bound and every kernel, the agent on the lowered wire image issues the syscalls, arguments and results of direct evaluation, whatever `results` held before; `Pointees.PointerReads` says what its pointers lead to |
| `Faithful.FaithfulFrom` | boot/agent.c:137-152 | From any call on; entries of `results` not written by this program are never read |
| `Faithful.FixupLost` | boot/agent.c:134-135 | The bound is exact: with more produced arguments than the table has entries there is a kernel for which the agent and the program differ |
| `Faithful.FixupCounted` | crates/fs-prog/src/lower.rs:202-282 | A lowerable program needs exactly as many fixups as it has produced arguments, so the bound can be read off the program |
| `Faithful.CrowdOverflows` | boot/agent.c:134-135 | Counterexample: a well-formed, lowerable program of eight calls with more produced arguments than the table has entries |
| `Pointees.PointerReads` | crates/fs-prog/src/lower.rs:120-160 | For every pointer argument whose pointee fitted: the final scratch image, read at the address that is passed and following pointers, holds the pointee iff its inner lengths are zero |
| `Pointees.PointersApart` | crates/fs-prog/src/lower.rs:39-52 | The pointees of two pointer arguments of a program never share a byte |
| `Pointees.LengthMeasures` | crates/fs-prog/src/genr.rs:242-249 | A generated length beside a pointer passes the kernel exactly the number of bytes its pointee has in the final image at the address passed; for a buffer those bytes are the buffer |
| `Pointees.WellFormedLowers` | crates/fs-prog/src/lower.rs:202-282 | A well-formed program within the sizes of the wire format is lowerable iff the out-arrays its references read from are passed |
| `Mutation.InsertThenRemove` | crates/fs-prog/src/mutate.rs:31-86 | Inserting a call and removing it again is the identity |
| `Mutation.InsertKeeps` | crates/fs-prog/src/mutate.rs:71-80 | Insertion keeps programs well-formed |
| `Mutation.RemoveKeeps` | crates/fs-prog/src/mutate.rs:82-86 | Removal keeps programs well-formed, dangling references becoming seeds |
| `Mutation.InsertMeans` | crates/fs-prog/src/mutate.rs:71-80 | Insertion, call by call: each keeps its description and arguments, a reference at or past the place moves by one, all others stay |
| `Mutation.RemoveMeans` | crates/fs-prog/src/mutate.rs:46-86 | Removal, call by call: a reference to the call removed becomes a seed, one past it moves back by one |
| `Mutation.EditNames` | crates/fs-prog/src/mutate.rs:29-195 | After any one edit, every surviving resource argument that was not rewired names the call it named, and every other argument is unchanged; references inside pointers and structs are the subject of `EditNamesAllIff` |
| `Mutation.EditNamesAllIff` | crates/fs-prog/src/mutate.rs:29-86 | The exact condition for every surviving reference, however nested, to name the call it named: no reference inside a pointer or struct is to a call at or past the edit |
| `Mutation.NestedSlips` | crates/fs-prog/src/mutate.rs:71-80 | Counterexample: an insertion after which a reference inside a pointer of a well-formed program names the inserted call |
| `Mutation.WireKeeps` | crates/fs-prog/src/mutate.rs:172-195 | A fresh producer inserted before a consumer can be wired to it |
| `Mutation.PrependKeeps` | crates/fs-prog/src/genr.rs:655-707 | The preamble keeps programs well-formed and within bounds, and every reference, however nested, moves by two |
| `Mutation.SubsetKeeps` | crates/fs-cli/src/main.rs:787-808 | Keeping a strictly increasing subset keeps programs well-formed |
| `Mutation.SubsetNames` | crates/fs-cli/src/main.rs:787-808 | A resource argument naming a kept call names it at its new place; one naming a dropped call becomes the bogus seed |
| `Mutation.SubsetNested` | crates/fs-cli/src/main.rs:796-803 | Any other argument is carried over as it is, and every reference inside it still names the call it named iff each such call, and everything before it, is kept |
| `Mutation.BuildPool` | crates/fs-prog/src/genr.rs:46-60 | The pool is exactly what the earlier calls produce |
| `Mutation.PickResBiased` | crates/fs-prog/src/genr.rs:299-327 | A sibling of an anchor when biased and there is one; else a compatible entry; a seed only when drawn or nothing fits |
| `Mutation.PickedOk` | crates/fs-prog/src/prog.rs:53-80 | Whatever is picked is a valid reference at its place |
| `Editor.GenerateArgs` | crates/fs-prog/src/genr.rs:233-262 | Generated arguments are valid at their position, and generated lengths measure the arguments they name |
| `Editor.SameCallAnchors` | crates/fs-prog/src/genr.rs:270-287 | Exactly the pool resources that the call's other arguments name |
| `Editor.Program.WireProducer` | crates/fs-prog/src/mutate.rs:139-195 | One argument is pointed at an earlier compatible resource, or at a producer inserted for it, or nothing changes |
| `Editor.Program.SpliceResourceUse` | crates/fs-prog/src/mutate.rs:202-225 | At most one argument is pointed at an earlier compatible resource |
| `Editor.Program.ChangeScalar` | crates/fs-prog/src/mutate.rs:231-340 | A scalar operator changes one argument it may pick, unless there is none |
| `Editor.EligibleMeans` | crates/fs-prog/src/mutate.rs:231-340 | Which arguments each scalar operator may pick |
| `Editor.Program.MutateRandomArg` | crates/fs-prog/src/mutate.rs:88-132 | One argument of one call is re-rolled and stays valid |
| `Editor.Program.Mutate` | crates/fs-prog/src/mutate.rs:343-363 | Under every random choice: one edit, references kept, well-formed, between 1 and 8 calls |
| `Editor.PrependFailInject` | crates/fs-prog/src/genr.rs:655-691 | The armed write names the preamble's own open, whatever the program |
| `Typed.CompatTrans` | crates/fs-prog/src/resource.rs:69-79 | Kind compatibility along parents is transitive |
| `Kinds.CompatIff` | crates/fs-prog/src/resource.rs:69-78 | A kind serves where another is wanted iff that one is some number of parents above it |
| `Kinds.OneWay` | crates/fs-prog/src/resource.rs:69-78 | A kind never serves for one properly below it |
| `Kinds.SlotsMean` | crates/fs-prog/src/types.rs:87-93 | A returned resource is slot 0 and no other; an array of them is its slots from 0 up to its length |
| `Corpus.ArgBack` | crates/fs-cli/src/main.rs:1070-1143 | Decoding an encoded value followed by any tokens gives the value and exactly those tokens |
| `Corpus.SignedBack` | crates/fs-cli/src/main.rs:1074-1075 | Signed seeds survive as text, the most negative included |
| `Corpus.HexBack` | crates/fs-cli/src/main.rs:1079-1088 | Byte strings survive as hex, and never look like the empty marker |
| `CorpusText.DecimalText` | crates/fs-cli/src/main.rs:1073 | Numbers are written in decimal digits, highest first, without leading zeros |
| `CorpusText.HexText` | crates/fs-cli/src/main.rs:1083-1085 | Each byte is two lower-case hexadecimal digits, the higher half first |
| `CorpusText.LeafText` | crates/fs-cli/src/main.rs:1070-1100 | The letter and text of each kind of leaf |
| `CorpusText.SignedText` | crates/fs-cli/src/main.rs:1074 | A negative seed is its absolute value after a minus sign |
| `CorpusText.PointerText` | crates/fs-cli/src/main.rs:1089-1092 | A pointer is its letter and then its pointee |
| `CorpusText.StructText` | crates/fs-cli/src/main.rs:1093-1098 | A struct is its letter and number of fields and then the fields in order, for none and two fields |
| `Corpus.JoinBack` | crates/fs-cli/src/main.rs:1156-1165 | Joining by spaces and splitting at white space is the identity on plain tokens |
| `CorpusFile.CorpusRoundTrip` | crates/fs-cli/src/main.rs:1146-1184 | Reading back a serialised well-formed program over a table of unique, whitespace-free names gives that program |
| `CorpusText.ProgramText` | crates/fs-cli/src/main.rs:1146-1157 | The text of a program of one call, spelled out |
| `CorpusFile.SerializeProg` | crates/fs-cli/src/main.rs:1146-1157 | The writing loops produce the specified token stream |
| `CorpusFile.DeserializeProg` | crates/fs-cli/src/main.rs:1161-1184 | The reading loops accept exactly the specified texts, and only well-formed programs |
| `Minimize.Minimal` | crates/fs-cli/src/main.rs:814-851 | For every deterministic crash oracle the result reproduces if the input did, no single further removal reproduces unless one call is left, and at most n(n+1)/2 - 1 candidates are run |
| `Minimize.MinimizeProgram` | crates/fs-cli/src/main.rs:828-850 | The loop computes that search; the console text is that of a run of the returned program, and is present iff something was removed |
| `Minimize.ShrinkMinimal` | crates/fs-cli/src/main.rs:828-849 | The kept indices stay in order and cannot be cut further |
| `Minimize.SubsetTwice` | crates/fs-cli/src/main.rs:787-808 | A subset of a subset is the subset of the composed indices, references included |
| `Minimize.SubsetProg` | crates/fs-cli/src/main.rs:787-808 | The loops with the position table compute the subset |
| `Minimize.BoundReached` | crates/fs-cli/src/main.rs:810-812 | The bound is reached: eight calls can need 35 runs, not the 28 of the source's comment |

## Left out

- Native code as machine state: mapping, W^X protection and calling conventions; the x86 machine has the sixteen
  registers, four flags, a stack and the hart record, pointers to it are symbolic, and its fields are disjoint by
  assumption.
- Guest page walks, the TLB, privilege and trap vectoring: translation of instruction addresses is a fixed function and
  data addresses are physical; in `smp/` page-table updates are ordinary stores of a step.
- The RISC-V decoder, compressed expansion, CSR instructions, multiply and divide: opaque functions and an opaque
  "other" instruction; LR/SC and AMO are modelled in `smp/` only, without
  translation: reserved and stored addresses are whatever the core asks for.
- Coverage edges of a chain (`last_edge`), length histograms and hit statistics of the caches beyond hit-plus-miss.
- The introspection gates (taint, compare log, divide log) that bypass native code; they select the interpreter.
- `ChainCache` slot indices are taken modulo the number of slots, which the source computes by masking a power of two.
- Bitmap words are sets of bit numbers, and counters are unbounded where the source uses 64 bits.
- `Mmu::map`, `poison`, `set_vtaint`, alignment-checked word accessors: instances of the modelled loops.
- Sanitizer allocation with redzones and the page sanitizer: same bookkeeping over other spans.
- `run_smp_with_edges`: the same scheduler with an observer.
- Structs of 4 GiB and more, and null or missing out-arrays: `AgentFaithful` asks for programs whose out-arrays are
  there. Once the scratch is full a pointer leads to a truncated pointee or past the end; `PointerReads` is about those
  that fitted, and not about a pointer straight to a length.
- `generate`, recipes, resource rings, the constant dictionary: random programs are any well-formed program.
- Which of several equally valid random picks is made: choices are oracles and no distribution is modelled.
- Corpus reading with absurd counts: the source would reserve memory first; the model just fails on the missing tokens.
- Threads as such: a worker's step is atomic between lock operations, and minimization of a fresh crash, which touches
  only the worker's own guest, is not a step.
- Console classification, reproducer printing, file and command-line handling.
