/** The hart inside its machine: RAM and other devices behind an oracle, the CLINT, the timer CSRs, and
    the interpreter's system loop (crates/fs-platform/src/lib.rs, crates/fs-riscv/src/lib.rs). Physical
    and virtual addresses coincide. */
module System {
  import opened Words
  import opened Rv32
  import opened Decoding

  const CLINT_BASE: u32 := 0x0200_0000
  const CLINT_SIZE: u32 := 0x0001_0000
  const MSIP: u32 := 0
  const MTIMECMP: u32 := 0x4000
  const MTIME: u32 := 0xbff8

  datatype Clint = Clint(msip: u32, mtimecmp: u64, mtime: u64)

  /** `sync_timer` copies the CLINT's compare and software bit here; `poll_interrupt` refreshes the
      two timer bits. */
  datatype Timer = Timer(mtimecmp: u64, stimecmp: u64, mtip: bool, stip: bool, msip: bool)

  datatype World<!R> = World(ram: R, clint: Clint, csr: Timer)

  datatype SysExit = Continue | HaltExit(code: u32) | Hypercall(code: u32)

  /** `gate` says whether an enabled interrupt is pending, given the three CLINT bits and everything
      else (enables, delegation, privilege); `take` and `vector` enter the trap handler for an
      interrupt and for a fault; `other` runs an instruction outside the chain subset. */
  datatype Sys<!R> = Sys(
    code: Code,
    ram: Bus<R>,
    gate: (R, bool, bool, bool) -> bool,
    take: (R, bool, bool, bool, u32) -> (R, u32),
    vector: (Trap, R, u32) -> (R, u32),
    other: (Fetched, Cpu<World<R>>) -> (Cpu<World<R>>, SysExit))

  predicate InClint(a: u32) { CLINT_BASE <= a < CLINT_BASE + CLINT_SIZE }

  function ClintLoad(k: Clint, off: u32): u32
  {
    if off == MSIP then k.msip % 2
    else if off == MTIMECMP then W32(k.mtimecmp)
    else if off == MTIMECMP + 4 then W32(k.mtimecmp / TWO32)
    else if off == MTIME then W32(k.mtime)
    else if off == MTIME + 4 then W32(k.mtime / TWO32)
    else if MTIMECMP + 8 <= off < MTIME then 0xffff_ffff
    else 0
  }

  function ClintStore(k: Clint, off: u32, v: u32): Clint
  {
    if off == MSIP then k.(msip := v % 2)
    else if off == MTIMECMP then k.(mtimecmp := W64(k.mtimecmp / TWO32 * TWO32 + v))
    else if off == MTIMECMP + 4 then k.(mtimecmp := W64(k.mtimecmp % TWO32 + v * TWO32))
    else k
  }

  function Route<R>(ram: Bus<R>, w: World<R>, a: u32, n: nat): (World<R>, Result<u32, Trap>)
  {
    if InClint(a) then (w, Ok(ClintLoad(w.clint, a - CLINT_BASE)))
    else var (r, res) := ram.load(w.ram, a, n); (w.(ram := r), res)
  }

  function RouteStore<R>(ram: Bus<R>, w: World<R>, a: u32, n: nat, v: u32): (World<R>, Option<Trap>)
  {
    if InClint(a) then (w.(clint := ClintStore(w.clint, a - CLINT_BASE, v)), None)
    else var (r, res) := ram.store(w.ram, a, n, v); (w.(ram := r), res)
  }

  function LoadBytes<R>(ram: Bus<R>, w: World<R>, a: u32, n: nat): (World<R>, Result<u32, Trap>)
    decreases n
  {
    if n == 0 then (w, Ok(0))
    else
      var (w1, b) := Route(ram, w, a, 1);
      if b.Err? then (w1, b)
      else
        var (w2, rest) := LoadBytes(ram, w1, W32(a + 1), n - 1);
        (w2, if rest.Err? then rest else Ok(W32(b.value % 256 + 256 * rest.value)))
  }

  function StoreBytes<R>(ram: Bus<R>, w: World<R>, a: u32, n: nat, v: u32): (World<R>, Option<Trap>)
    decreases n
  {
    if n == 0 then (w, None)
    else
      var (w1, e) := RouteStore(ram, w, a, 1, v % 256);
      if e.Some? then (w1, e) else StoreBytes(ram, w1, W32(a + 1), n - 1, v / 256)
  }

  predicate Misaligned(a: u32, n: nat) { n > 1 && a % n != 0 }

  /** Unaligned accesses go byte by byte, each byte routed on its own. */
  function LoadVa<R>(ram: Bus<R>, w: World<R>, a: u32, n: nat): (World<R>, Result<u32, Trap>)
  {
    if Misaligned(a, n) then LoadBytes(ram, w, a, n) else Route(ram, w, a, n)
  }

  function StoreVa<R>(ram: Bus<R>, w: World<R>, a: u32, n: nat, v: u32): (World<R>, Option<Trap>)
  {
    if Misaligned(a, n) then StoreBytes(ram, w, a, n, v) else RouteStore(ram, w, a, n, v)
  }

  function FastStore<R>(ram: Bus<R>, w: World<R>, a: u32, n: nat): (World<R>, Option<nat>)
  {
    if InClint(a) then (w, None) else var (r, p) := ram.fastStore(w.ram, a, n); (w.(ram := r), p)
  }

  /** The machine's bus: devices decline every fast location, and a CLINT store may raise an interrupt. */
  function SysBus<R>(ram: Bus<R>): Bus<World<R>>
  {
    Bus((w: World<R>, a, n) => LoadVa(ram, w, a, n),
        (w: World<R>, a, n, v) => StoreVa(ram, w, a, n, v),
        (w: World<R>, a, n) => if InClint(a) then None else ram.fastLoad(w.ram, a, n),
        (w: World<R>, a, n) => FastStore(ram, w, a, n),
        (w: World<R>, p, n) => ram.peek(w.ram, p, n),
        (w: World<R>, p, n, v) => w.(ram := ram.poke(w.ram, p, n, v)),
        (a: u32, n: nat) => InClint(a))
  }

  /** Routing keeps the promise about fast locations. */
  lemma SysLawful<R(!new)>(ram: Bus<R>)
    requires Lawful(ram)
    ensures Lawful(SysBus(ram))
  {
  }

  // ----- the interpreter's system loop -----

  /** Without the diagnostics and the mailbox of native code, neither of which the hart can see. */
  function Strip<R>(c: Cpu<World<R>>): Cpu<World<R>> { c.(hits := 0, bails := 0, pending := None) }

  /** What one driver iteration does before polling: refresh `mtime`, copy the CLINT into the CSRs. */
  function Sync<R>(c: Cpu<World<R>>): Cpu<World<R>>
  {
    var k := c.world.clint.(mtime := c.retired);
    c.(world := c.world.(clint := k, csr := c.world.csr.(mtimecmp := k.mtimecmp, msip := k.msip % 2 == 1)))
  }

  function UpdateTimers<R>(c: Cpu<World<R>>): Cpu<World<R>>
  {
    var t := c.world.csr;
    c.(world := c.world.(csr := t.(mtip := c.retired >= t.mtimecmp, stip := c.retired >= t.stimecmp)))
  }

  /** The hart as a driver iteration sees it once its timers are fresh. */
  function View<R>(c: Cpu<World<R>>): Cpu<World<R>> { UpdateTimers(Sync(Strip(c))) }

  predicate Interrupted<R>(s: Sys<R>, c: Cpu<World<R>>)
  {
    s.gate(c.world.ram, c.world.csr.mtip, c.world.csr.stip, c.world.csr.msip)
  }

  function Take<R>(s: Sys<R>, c: Cpu<World<R>>): Cpu<World<R>>
  {
    var (r, pc) := s.take(c.world.ram, c.world.csr.mtip, c.world.csr.stip, c.world.csr.msip, c.pc);
    c.(world := c.world.(ram := r), pc := pc)
  }

  function Vector<R>(s: Sys<R>, t: Trap, c: Cpu<World<R>>): Cpu<World<R>>
  {
    var (r, pc) := s.vector(t, c.world.ram, c.pc);
    c.(world := c.world.(ram := r), pc := pc)
  }

  /** One fetched instruction, and the vectoring of its trap. */
  function ExecFetched<R>(s: Sys<R>, f: Result<Fetched, Trap>, c: Cpu<World<R>>): (Cpu<World<R>>, SysExit)
    requires c.Valid()
  {
    match f
    case Err(t) => (Vector(s, t, c), Continue)
    case Ok(f) =>
      if f.inst.Other? then s.other(f, c)
      else
        match ExecOne(SysBus(s.ram), f.inst, f.ilen, c)
        case Next(c') => (c', Continue)
        case Halt(c', code) => (c', HaltExit(code))
        case Fault(c', t) => (Vector(s, t, c'), Continue)
  }

  /** One iteration of the reference driver: sync, poll, then one instruction fetched afresh. */
  function Iterate<R>(s: Sys<R>, c: Cpu<World<R>>): (Cpu<World<R>>, SysExit)
    requires c.Valid()
  {
    var v := View(c);
    if Interrupted(s, v) then (Take(s, v), Continue) else ExecFetched(s, Fresh(s.code, v.pc), v)
  }

  ghost predicate Lasting<R(!new)>(s: Sys<R>)
  {
    forall f, c: Cpu<World<R>> {:trigger s.other(f, c)} :: c.Valid() ==> s.other(f, c).0.Valid()
  }

  /** `n` iterations, or fewer when one exits. */
  function Drive<R(!new)>(s: Sys<R>, c: Cpu<World<R>>, n: nat): (r: (Cpu<World<R>>, SysExit))
    requires c.Valid() && Lasting(s)
    ensures r.0.Valid()
    decreases n
  {
    if n == 0 then (c, Continue)
    else
      var (c', e) := Iterate(s, c);
      if e.Continue? then Drive(s, c', n - 1) else (c', e)
  }
}
