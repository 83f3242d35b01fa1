/** The hypotheses of the theorems about native code are met: a host with distinct shim addresses, a machine
    whose RAM is the soft-MMU, a guest that never looks at the clock, and one that does. */
module Instances {
  import opened Words
  import opened Rv32
  import opened X86
  import opened ChainCode
  import opened ChainProof
  import opened ChainTheorem
  import opened Decoding
  import opened System
  import opened TimeReads
  import opened Batching
  import opened RunBlock
  import opened GuestMemory
  import opened RamBus

  // ----- a host -----

  const SHIMS: u64 := 0x5555_0000_0000

  function ShimAddr(s: Shim): u64
  {
    match s
    case LoadShim(op) => SHIMS + (match op case Lb => 0 case Lh => 16 case Lw => 32 case Lbu => 48 case Lhu => 64)
    case StoreShim(op) => SHIMS + (match op case Sb => 80 case Sh => 96 case Sw => 112)
    case FastLoadShim(n) => SHIMS + 128 + 16 * n
    case FastStoreShim(op) => SHIMS + (match op case Sb => 208 case Sh => 224 case Sw => 240)
  }

  function ShimAt(a: u64): Option<Shim>
  {
    if a == SHIMS then Some(LoadShim(Lb))
    else if a == SHIMS + 16 then Some(LoadShim(Lh))
    else if a == SHIMS + 32 then Some(LoadShim(Lw))
    else if a == SHIMS + 48 then Some(LoadShim(Lbu))
    else if a == SHIMS + 64 then Some(LoadShim(Lhu))
    else if a == SHIMS + 80 then Some(StoreShim(Sb))
    else if a == SHIMS + 96 then Some(StoreShim(Sh))
    else if a == SHIMS + 112 then Some(StoreShim(Sw))
    else if a == SHIMS + 144 then Some(FastLoadShim(1))
    else if a == SHIMS + 160 then Some(FastLoadShim(2))
    else if a == SHIMS + 192 then Some(FastLoadShim(4))
    else if a == SHIMS + 208 then Some(FastStoreShim(Sb))
    else if a == SHIMS + 224 then Some(FastStoreShim(Sh))
    else if a == SHIMS + 240 then Some(FastStoreShim(Sw))
    else None
  }

  const RECORD := Layout(64, 0, 8, 16, 24)

  function HostOver<W>(bus: Bus<W>): Host<W>
  {
    Host(bus, Target(RECORD, ShimAddr), ShimAt, (k: nat, r: nat) => Num(0))
  }

  lemma HostWorks<W>(bus: Bus<W>)
    ensures HostOver(bus).Valid()
  {
    hide ShimAt, ShimAddr, Layout.Valid;
    RecordWorks();
    forall s: Shim ensures ShimAt(ShimAddr(s)) == Some(s) {
      ShimFound(s);
    }
  }

  lemma ShimFound(s: Shim)
    ensures ShimAt(ShimAddr(s)) == Some(s)
  {
  }

  lemma RecordWorks()
    ensures RECORD.Valid()
  {
    hide W32;
    forall i: RegIx ensures RECORD.FieldAt(RECORD.RegOff(i)) == RegF(i) {
      RegOffIs(i);
      Quarter(i);
    }
  }

  lemma RegOffIs(i: RegIx)
    ensures RECORD.RegOff(i) == 64 + 4 * i
  {
  }

  lemma Quarter(i: nat)
    ensures 4 * i % 4 == 0 && 4 * i / 4 == i
  {
  }

  // ----- a machine -----

  /** No interrupt is ever enabled; traps and other instructions stay where they are. */
  function MachineWith(code: Code): Sys<Ram>
  {
    Sys(code, RamBus.RamBus(0x8000_0000),
        (r: Ram, x: bool, y: bool, z: bool) => false,
        (r: Ram, x: bool, y: bool, z: bool, pc: u32) => (r, pc),
        (t: Trap, r: Ram, pc: u32) => (r, pc),
        (f: Fetched, c: Cpu<World<Ram>>) => (c, Continue))
  }

  lemma BelowRam(r: Ram, v: u32)
    ensures RamBus.Store(0x8000_0000, r, CLINT_BASE - 1, 1, v).1.Some?
  {
  }

  lemma QuietWorks(code: Code)
    ensures Quiet(MachineWith(code))
  {
    hide RamBus.Store, RamBus.Load, RamBus.FastLoad, RamBus.FastStore, RamBus.Peek, RamBus.PokeRam;
    var s := MachineWith(code);
    forall r: Ram, v: u32 {:trigger s.ram.store(r, CLINT_BASE - 1, 1, v)} ensures s.ram.store(r, CLINT_BASE - 1, 1, v).1.Some? {
      BelowRam(r, v);
    }
  }

  /** Everything native execution relies on holds of this machine and this host. */
  lemma MachineWorks(code: Code)
    requires code.Coherent()
    ensures Sound(MachineWith(code), HostOver(SysBus(MachineWith(code).ram)))
  {
    hide Quiet, Lawful, Host.Valid, Code.Coherent, RamBus.RamBus;
    RamLawful(0x8000_0000);
    HostWorks(SysBus(MachineWith(code).ram));
    QuietWorks(code);
  }

  // ----- guests -----

  /** Untranslated code of four-byte instructions: the low half-word at `pa` is `word(pa)`. */
  function CodeOf(word: u32 -> u16, decode: u32 -> Inst): Code
  {
    Code((va: u32) => Ok(va), (pa: u32) => Ok(word(pa)), (lo: u16) => Other(0), decode, (page: nat) => true, (kind: nat) => false)
  }

  lemma CodeWorks(word: u32 -> u16, decode: u32 -> Inst)
    ensures CodeOf(word, decode).Coherent()
  {
  }

  function Start(pc: u32, regs: seq<u32>): Cpu<World<Ram>>
  {
    Cpu(regs, pc, 0, None, None, World(Ram.Ram(Planes([], []), []), Clint(0, 0x1_0000, 0), Timer(0x1_0000, 0x1_0000, false, false, false)), 0, 0)
  }

  /** Fences for ever. */
  function Fences(): Code { CodeOf((pa: u32) => 3, (w: u32) => Fence) }

  function Registers(): seq<u32> { seq<u32>(32, (i: nat) => if i == 2 then CLINT_BASE + MTIME else 0) }

  /** The driver theorem applies to a guest of fences. */
  lemma FencesTame(c: Cpu<World<Ram>>)
    requires c.Valid() && c.pc % 2 == 0
    ensures var s := MachineWith(Fences()); Sound(s, HostOver(SysBus(s.ram))) && Tame(s, c)
  {
    hide Drive, TimeOk, Sound, Quiet;
    var s := MachineWith(Fences());
    CodeWorks((pa: u32) => 3, (w: u32) => Fence);
    MachineWorks(Fences());
    forall k: nat | Drive(s, c, k).1.Continue? ensures Drive(s, c, k).0.pc % 2 == 0 && TimeOk(s, Drive(s, c, k).0) {
      FencesEven(c, k);
      FencesTime(Drive(s, c, k).0);
    }
  }

  lemma FencesFetch(va: u32)
    ensures var f := Fresh(Fences(), va); f.Ok? && f.value.inst == Fence && f.value.ilen == 4
  {
  }

  lemma FencesTime(c: Cpu<World<Ram>>)
    requires c.Valid()
    ensures TimeOk(MachineWith(Fences()), c)
  {
    hide Drive, Fresh, Chain, Started, View, Deadline, Interrupted;
    var s := MachineWith(Fences());
    forall d: Cpu<World<Ram>>, m: u64 | d.Valid() ensures Harmless(s, d, m) {
      FencesFetch(View(d).pc);
    }
    assert View(c).Valid() by { ViewValid(c); }
  }

  lemma {:induction false} FencesEven(c: Cpu<World<Ram>>, k: nat)
    requires c.Valid() && c.pc % 2 == 0
    ensures Drive(MachineWith(Fences()), c, k).0.pc % 2 == 0
    decreases k
  {
    hide Iterate, MachineWith, Fences;
    var s := MachineWith(Fences());
    if k > 0 {
      FencesStep(c);
      var (d, e) := Iterate(s, c);
      FencesEven(d, k - 1);
    }
  }

  lemma FencesStep(c: Cpu<World<Ram>>)
    requires c.Valid() && c.pc % 2 == 0
    ensures var (d, e) := Iterate(MachineWith(Fences()), c); e.Continue? && d.Valid() && d.pc % 2 == 0
  {
    hide Fresh;
    FencesFetch(View(c).pc);
  }

  /** A fence, then a load of the low word of the time. */
  function Clock(): Code
  {
    CodeOf((pa: u32) => if pa == 4 then 7 else 3, (w: u32) => if w % 0x1_0000 == 7 then Rv32.Load(Lw, 1, 2, 0) else Fence)
  }

  function ClockSteps(): seq<Rv32.Step> { [Rv32.Step(Fence, 4, 0), Rv32.Step(Rv32.Load(Lw, 1, 2, 0), 4, 4)] }

  lemma ClockFetch(va: u32)
    ensures var f := Fresh(Clock(), va);
      f.Ok? && f.value.inst == (if va == 4 then Rv32.Load(Lw, 1, 2, 0) else Fence) && f.value.ilen == 4
  {
  }

  /** A chain that runs natively from a fresh poll and comes out with another time than the reference
      driver's. */
  lemma ClockParts()
    ensures var s, c := MachineWith(Clock()), Start(0, Registers());
      && c.Valid() && Lasting(s) && CanRun(s, ClockSteps(), c)
      && var o := Interp(SysBus(s.ram), ClockSteps(), c);
        o.Done? && !SameHart(Drive(s, c, 2), Landing(s, o))
  {
    hide Drive, Interp, Started, SysBus, Fresh, Quiet, Settled, Unstale;
    var s, c := MachineWith(Clock()), Start(0, Registers());
    QuietWorks(Clock());
    ClockRuns();
    ClockStart();
    ClockFetch(4);
    ClockReads(View(Drive(s, c, 1).0));
    StaleTime(s, ClockSteps(), c, 1);
    assert ClockSteps()[..2] == ClockSteps();
  }

  lemma ClockReads(v: Cpu<World<Ram>>)
    requires v.Valid() && v.regs == Registers()
    ensures Address(Rv32.Load(Lw, 1, 2, 0), v) == CLINT_BASE + MTIME
  {
  }

  lemma ClockRuns()
    ensures CanRun(MachineWith(Clock()), ClockSteps(), Start(0, Registers()))
  {
    hide Fresh, Quiet;
    QuietWorks(Clock());
    ClockFetch(0);
    ClockFetch(4);
  }

  lemma ClockStart()
    ensures var s, c := MachineWith(Clock()), Start(0, Registers());
      && c.Valid() && Lasting(s) && Started(SysBus(s.ram), ClockSteps(), c) == 2 && Unstale(s, c, 0, 1)
      && View(Drive(s, c, 1).0).pc == 4 && View(Drive(s, c, 1).0).Valid() && View(Drive(s, c, 1).0).regs == Registers()
  {
    hide Fresh, Quiet;
    var s, c := MachineWith(Clock()), Start(0, Registers());
    ClockFetch(0);
    DriveNone(s, c);
    DriveOne(s, c);
    assert ClockSteps()[1..] == [ClockSteps()[1]] && [ClockSteps()[1]][1..] == [];
  }
}
