/** Running a whole chain between two polls is invisible to interrupts: under the admission guard it
    equals the reference driver's sync, poll and step, instruction by instruction. */
module Batching {
  import opened Words
  import opened Rv32
  import opened Decoding
  import opened System
  import opened TimeReads

  /** What the devices behind the oracle owe: they do not touch interrupt enables, and the byte below
      the CLINT cannot be written. */
  ghost predicate Quiet<R(!new)>(s: Sys<R>)
  {
    && (forall r: R, a: u32, n: nat, x: bool, y: bool, z: bool {:trigger s.gate(s.ram.load(r, a, n).0, x, y, z)} ::
          s.gate(s.ram.load(r, a, n).0, x, y, z) == s.gate(r, x, y, z))
    && (forall r: R, a: u32, n: nat, v: u32, x: bool, y: bool, z: bool
          {:trigger s.gate(s.ram.store(r, a, n, v).0, x, y, z)} ::
          s.gate(s.ram.store(r, a, n, v).0, x, y, z) == s.gate(r, x, y, z))
    && (forall r: R, v: u32 {:trigger s.ram.store(r, CLINT_BASE - 1, 1, v)} :: s.ram.store(r, CLINT_BASE - 1, 1, v).1.Some?)
  }

  /** Same CSRs, same CLINT and same interrupt gate. */
  ghost predicate Steady<R>(s: Sys<R>, a: World<R>, b: World<R>)
  {
    a.csr == b.csr && a.clint == b.clint && forall x, y, z :: s.gate(a.ram, x, y, z) == s.gate(b.ram, x, y, z)
  }

  lemma {:induction false} LoadBytesSteady<R(!new)>(s: Sys<R>, w: World<R>, a: u32, n: nat)
    requires Quiet(s)
    ensures Steady(s, LoadBytes(s.ram, w, a, n).0, w)
    decreases n
  {
    hide W32;
    if n > 0 {
      var (w1, b) := Route(s.ram, w, a, 1);
      assert Steady(s, w1, w);
      LoadBytesSteady(s, w1, W32(a + 1), n - 1);
    }
  }

  lemma {:induction false} StoreBytesSteady<R(!new)>(s: Sys<R>, w: World<R>, a: u32, n: nat, v: u32)
    requires Quiet(s) && !InClint(a)
    ensures Steady(s, StoreBytes(s.ram, w, a, n, v).0, w)
    decreases n
  {
    if n > 0 {
      var (w1, e) := RouteStore(s.ram, w, a, 1, v % 256);
      assert Steady(s, w1, w);
      if e.None? {
        assert a != CLINT_BASE - 1;
        StoreBytesSteady(s, w1, W32(a + 1), n - 1, v / 256);
      }
    }
  }

  /** Only a store to the CLINT, which the chain stops after, can change what a poll looks at. */
  lemma ExecSteady<R(!new)>(s: Sys<R>, i: Inst, ilen: u32, c: Cpu<World<R>>)
    requires Quiet(s) && c.Valid() && !i.Other? && !MustRepoll(SysBus(s.ram), i, c)
    requires ExecOne(SysBus(s.ram), i, ilen, c).Next?
    ensures var d := ExecOne(SysBus(s.ram), i, ilen, c).c;
      Steady(s, d.world, c.world) && d.retired == W64(c.retired + 1) && (IsLink(i) ==> d.pc == W32(c.pc + ilen)) &&
      d.hits == c.hits && d.bails == c.bails && d.pending == c.pending
  {
    hide W32, Alu, Bits32, LoadBytes, StoreBytes;
    match i {
      case Load(op, rd, rs1, imm) =>
        LoadBytesSteady(s, c.world, W32(Rd(c.regs, rs1) + imm), LoadSize(op));
      case Store(op, rs1, rs2, imm) =>
        StoreBytesSteady(s, c.world, W32(Rd(c.regs, rs1) + imm), StoreSize(op), Rd(c.regs, rs2));
      case _ =>
    }
  }

  function Deadline<R>(c: Cpu<World<R>>): u64
  {
    var t := c.world.csr;
    if t.mtimecmp < t.stimecmp then t.mtimecmp else t.stimecmp
  }

  /** Fresh from a poll that took nothing, but for a time that may be out of date. */
  ghost predicate Settled<R>(s: Sys<R>, c: Cpu<World<R>>)
  {
    View(c) == CpuAt(c, c.retired) && !Interrupted(s, View(c)) && c.retired < Deadline(c)
  }

  /** The next instruction of the reference driver reads the time. */
  ghost predicate Peeks<R>(s: Sys<R>, c: Cpu<World<R>>)
    requires c.Valid()
  {
    var f := Fresh(s.code, View(c).pc);
    f.Ok? && ReadsMtime(f.value.inst, View(c))
  }

  /** Were the next instruction run with time `m` instead of the current one, it would do the same: it does
      not read the time, or discards what it reads, or takes in the same of both. */
  ghost predicate Harmless<R>(s: Sys<R>, c: Cpu<World<R>>, m: u64)
    requires c.Valid()
  {
    Peeks(s, c) ==>
      var i, v := Fresh(s.code, View(c).pc).value.inst, View(c);
      i.rd == 0 || Glimpse(i.lop, Address(i, v), m) == Glimpse(i.lop, Address(i, v), v.retired)
  }

  /** The next `n` iterations bear having the time stand still at `m`. */
  ghost predicate Unstale<R(!new)>(s: Sys<R>, c: Cpu<World<R>>, m: u64, n: nat)
    requires c.Valid() && Lasting(s)
  {
    forall k: nat | k < n :: Harmless(s, Drive(s, c, k).0, m)
  }

  /** How many instructions a native run starts: all of them, unless one faults, halts or must be looked at. */
  function Started<W>(b: Bus<W>, steps: seq<Step>, c: Cpu<W>): (n: nat)
    requires c.Valid()
    ensures n <= |steps|
  {
    if steps == [] || steps[0].inst.Other? then 0
    else
      match ExecOne(b, steps[0].inst, steps[0].ilen, c)
      case Next(d) => if MustRepoll(b, steps[0].inst, c) then 1 else 1 + Started(b, steps[1..], d)
      case _ => 1
  }

  /** The same hart, as every later iteration sees it, and the same exit. */
  ghost predicate SameHart<R>(a: (Cpu<World<R>>, SysExit), b: (Cpu<World<R>>, SysExit))
  {
    View(a.0) == View(b.0) && a.1 == b.1
  }

  lemma IterateOfView<R>(s: Sys<R>, a: Cpu<World<R>>, b: Cpu<World<R>>)
    requires a.Valid() && b.Valid() && View(a) == View(b)
    ensures Iterate(s, a) == Iterate(s, b)
  {
  }

  lemma DriveOfView<R(!new)>(s: Sys<R>, a: Cpu<World<R>>, b: Cpu<World<R>>, n: nat)
    requires a.Valid() && b.Valid() && Lasting(s) && View(a) == View(b)
    ensures SameHart(Drive(s, a, n), Drive(s, b, n))
  {
    hide View, Iterate;
    if n > 0 {
      IterateOfView(s, a, b);
    }
  }

  lemma IterateValid<R(!new)>(s: Sys<R>, c: Cpu<World<R>>)
    requires c.Valid() && Lasting(s)
    ensures Iterate(s, c).0.Valid()
  {
    hide ExecOne, View, SysBus;
    assert View(c).Valid() by { ViewValid(c); }
  }

  lemma ViewValid<R>(c: Cpu<World<R>>)
    ensures c.Valid() ==> View(c).Valid()
  {
  }

  lemma {:induction false} DriveAdd<R(!new)>(s: Sys<R>, c: Cpu<World<R>>, a: nat, b: nat)
    requires c.Valid() && Lasting(s)
    ensures Drive(s, c, a + b) == (var (d, e) := Drive(s, c, a); if e.Continue? then Drive(s, d, b) else (d, e))
    decreases a
  {
    hide Iterate;
    if a > 0 {
      IterateValid(s, c);
      var (d, e) := Iterate(s, c);
      if e.Continue? {
        DriveAdd(s, d, a - 1, b);
      }
    }
  }

  /** One step of a settled hart, on the reference side. */
  lemma OneIteration<R(!new)>(s: Sys<R>, f: Fetched, c: Cpu<World<R>>)
    requires c.Valid() && Settled(s, c) && Fresh(s.code, c.pc) == Ok(f) && !f.inst.Other?
    requires Harmless(s, c, c.world.clint.mtime)
    ensures Iterate(s, c) ==
      (match ExecOne(SysBus(s.ram), f.inst, f.ilen, c)
       case Next(d) => (CpuAt(d, c.retired), Continue)
       case Halt(d, code) => (CpuAt(d, c.retired), HaltExit(code))
       case Fault(d, t) => (CpuAt(Vector(s, t, d), c.retired), Continue))
  {
    hide ExecOne, View, Fresh, ReadsMtime, SysBus, Glimpse;
    assert View(c).pc == c.pc;
    ReadsSame(f.inst, c);
    if ReadsMtime(f.inst, c) {
      SameAddress(f.inst, c);
      TimedLoad(s.ram, f.inst, f.ilen, c, c.retired);
    } else {
      ExecBlind(s.ram, f.inst, f.ilen, c, c.retired);
    }
  }

  /** A settled hart whose next instruction reads the time: the reference iteration, which refreshes it, and
      the step that does not, leave the same hart iff the read is harmless. */
  lemma PeekIff<R(!new)>(s: Sys<R>, f: Fetched, c: Cpu<World<R>>)
    requires c.Valid() && Settled(s, c) && Fresh(s.code, c.pc) == Ok(f) && !f.inst.Other? && Peeks(s, c)
    ensures var x := ExecOne(SysBus(s.ram), f.inst, f.ilen, c);
      x.Next? && !MustRepoll(SysBus(s.ram), f.inst, c) &&
      (SameHart(Iterate(s, c), (x.c, Continue)) <==> Harmless(s, c, c.world.clint.mtime))
  {
    hide ExecOne, Fresh, ReadsMtime, SysBus, Glimpse, UpdateTimers;
    assert View(c).pc == c.pc;
    ReadsSame(f.inst, c);
    SameAddress(f.inst, c);
    TimedLoad(s.ram, f.inst, f.ilen, c, c.retired);
    var x, y := ExecOne(SysBus(s.ram), f.inst, f.ilen, c), ExecOne(SysBus(s.ram), f.inst, f.ilen, CpuAt(c, c.retired));
    assert Iterate(s, c) == (y.c, Continue);
    ViewRegs(x.c, y.c, c.retired);
  }

  lemma ViewRegs<R>(x: Cpu<World<R>>, y: Cpu<World<R>>, m: u64)
    requires y.(regs := x.regs) == CpuAt(x, m)
    ensures View(y) == View(x) <==> y == CpuAt(x, m)
  {
    assert View(y).regs == y.regs && View(x).regs == x.regs;
    if y == CpuAt(x, m) {
      SomeTime(x, m);
    }
  }

  lemma SomeTime<R>(c: Cpu<World<R>>, m: u64)
    ensures View(CpuAt(c, m)) == View(c)
  {
  }

  lemma SameAddress<R>(i: Inst, c: Cpu<World<R>>)
    requires c.Valid() && View(c) == CpuAt(c, c.retired) && i.Load?
    ensures Address(i, View(c)) == Address(i, c)
  {
  }

  lemma ReadsSame<R>(i: Inst, c: Cpu<World<R>>)
    requires c.Valid()
    ensures ReadsMtime(i, CpuAt(c, c.retired)) == ReadsMtime(i, c)
    ensures ReadsMtime(i, c) ==> i.Load?
  {
  }

  /** Where the driver continues after a native call that ended in `o`. */
  function Landing<R>(s: Sys<R>, o: Outcome<World<R>>): (Cpu<World<R>>, SysExit)
  {
    match o
    case Done(c) => (c, Continue)
    case Repoll(c) => (c, Continue)
    case Trapped(c, t) => (Vector(s, t, c), Continue)
    case Halted(c, code) => (c, HaltExit(code))
  }

  /** Until its budget is used up, a step leaves the hart settled. */
  lemma StaysSettled<R(!new)>(s: Sys<R>, i: Inst, ilen: u32, c: Cpu<World<R>>)
    requires Quiet(s) && c.Valid() && Settled(s, c) && !i.Other? && !MustRepoll(SysBus(s.ram), i, c)
    requires ExecOne(SysBus(s.ram), i, ilen, c).Next? && c.retired + 1 < Deadline(c)
    ensures var d := ExecOne(SysBus(s.ram), i, ilen, c).c;
      Settled(s, d) && d.retired == c.retired + 1 && Deadline(d) == Deadline(c)
  {
    hide ExecOne, SysBus;
    ExecSteady(s, i, ilen, c);
  }

  lemma PeeksOfView<R>(s: Sys<R>, a: Cpu<World<R>>, b: Cpu<World<R>>)
    requires a.Valid() && b.Valid() && View(a) == View(b)
    ensures Peeks(s, a) == Peeks(s, b) && forall m :: Harmless(s, a, m) == Harmless(s, b, m)
  {
  }

  /** The drive after its first iteration. */
  lemma DriveNext<R(!new)>(s: Sys<R>, c: Cpu<World<R>>, d: Cpu<World<R>>, m: u64, k: nat)
    requires c.Valid() && d.Valid() && Lasting(s) && Iterate(s, c) == (CpuAt(d, m), Continue)
    ensures SameHart(Drive(s, c, 1 + k), Drive(s, d, k))
    ensures Peeks(s, Drive(s, c, 1 + k).0) == Peeks(s, Drive(s, d, k).0)
    ensures forall m' :: Harmless(s, Drive(s, c, 1 + k).0, m') == Harmless(s, Drive(s, d, k).0, m')
  {
    hide Iterate, View, Peeks, Harmless;
    SomeTime(d, m);
    DriveOfView(s, CpuAt(d, m), d, k);
    PeeksOfView(s, Drive(s, c, 1 + k).0, Drive(s, d, k).0);
  }

  /** The chain ends with this step: it is the last, or it faults, halts or must be looked at. */
  lemma LastStep<R(!new)>(s: Sys<R>, steps: seq<Step>, c: Cpu<World<R>>)
    requires c.Valid() && Lasting(s) && steps != [] && (forall x | x in steps :: !x.inst.Other?) && Settled(s, c)
    requires var f := Fresh(s.code, c.pc); f.Ok? && f.value.inst == steps[0].inst && f.value.ilen == steps[0].ilen
    requires Harmless(s, c, c.world.clint.mtime)
    requires ExecOne(SysBus(s.ram), steps[0].inst, steps[0].ilen, c).Next? && |steps| > 1 ==>
      MustRepoll(SysBus(s.ram), steps[0].inst, c)
    ensures SameHart(Drive(s, c, 1), Landing(s, Interp(SysBus(s.ram), steps, c)))
    ensures Started(SysBus(s.ram), steps, c) == 1
  {
    hide ExecOne, Fresh, View, Iterate, SysBus, Settled, Peeks, MustRepoll, Harmless;
    OneIteration(s, Fresh(s.code, c.pc).value, c);
    var (e, ex) := Iterate(s, c);
    assert Drive(s, c, 1) == (e, ex);
    match ExecOne(SysBus(s.ram), steps[0].inst, steps[0].ilen, c) {
      case Next(d) => SomeTime(d, c.retired);
      case Halt(d, code) => SomeTime(d, c.retired);
      case Fault(d, t) => SomeTime(Vector(s, t, d), c.retired);
    }
  }

  /** What is needed to run `steps` natively from `c`, but for the time. */
  ghost predicate CanRun<R(!new)>(s: Sys<R>, steps: seq<Step>, c: Cpu<World<R>>)
  {
    && c.Valid() && Lasting(s) && Quiet(s) && steps != [] && Contiguous(steps)
    && (forall k | 0 <= k < |steps| :: Faithful(s.code, c.pc, steps[0].offset, steps[k]))
    && Settled(s, c) && c.retired + |steps| <= Deadline(c)
  }

  /** And the instructions that will be started bear the time that stands in the device. */
  ghost predicate Admitted<R(!new)>(s: Sys<R>, steps: seq<Step>, c: Cpu<World<R>>)
  {
    CanRun(s, steps, c) && Unstale(s, c, c.world.clint.mtime, Started(SysBus(s.ram), steps, c))
  }

  lemma CanRunFirst<R(!new)>(s: Sys<R>, steps: seq<Step>, c: Cpu<World<R>>)
    requires CanRun(s, steps, c)
    ensures c.Valid() && Lasting(s) && Quiet(s) && steps != [] && Settled(s, c) && c.retired + |steps| <= Deadline(c)
    ensures forall x | x in steps :: !x.inst.Other?
    ensures var f := Fresh(s.code, c.pc); f.Ok? && f.value.inst == steps[0].inst && f.value.ilen == steps[0].ilen
    ensures !Interrupted(s, View(c)) && Started(SysBus(s.ram), steps, c) > 0
  {
    hide Fresh, W32, ExecOne;
    assert Faithful(s.code, c.pc, steps[0].offset, steps[0]);
    assert W32(c.pc + 0) == c.pc by { SamePlace(c.pc); }
    forall x | x in steps ensures !x.inst.Other? {
      var k :| 0 <= k < |steps| && steps[k] == x;
    }
  }

  lemma AdmittedFirst<R(!new)>(s: Sys<R>, steps: seq<Step>, c: Cpu<World<R>>)
    requires Admitted(s, steps, c)
    ensures CanRun(s, steps, c) && c.Valid() && Harmless(s, c, c.world.clint.mtime)
  {
    hide Fresh, Peeks, Drive, W32, CanRun, Harmless, Started;
    CanRunFirst(s, steps, c);
    assert Drive(s, c, 0) == (c, Continue) by { DriveNone(s, c); }
  }

  lemma SamePlace(pc: u32)
    ensures W32(pc + 0) == pc
  {
  }

  lemma DriveNone<R(!new)>(s: Sys<R>, c: Cpu<World<R>>)
    requires c.Valid() && Lasting(s)
    ensures Drive(s, c, 0) == (c, Continue)
  {
  }

  /** After a step that does not end the run, the rest can run, with the time still standing. */
  lemma CanRunRest<R(!new)>(s: Sys<R>, steps: seq<Step>, c: Cpu<World<R>>)
    requires CanRun(s, steps, c) && |steps| > 1 && !steps[0].inst.Other?
    requires !MustRepoll(SysBus(s.ram), steps[0].inst, c)
    requires ExecOne(SysBus(s.ram), steps[0].inst, steps[0].ilen, c).Next?
    ensures var d := ExecOne(SysBus(s.ram), steps[0].inst, steps[0].ilen, c).c;
      CanRun(s, steps[1..], d) && d.world.clint == c.world.clint && d.retired == c.retired + 1 &&
      Started(SysBus(s.ram), steps, c) == 1 + Started(SysBus(s.ram), steps[1..], d)
  {
    hide ExecOne, Fresh, View, Iterate, SysBus, Settled, Peeks, W32, MustRepoll, Drive, Deadline, Faithful, Quiet;
    var d, rest := ExecOne(SysBus(s.ram), steps[0].inst, steps[0].ilen, c).c, steps[1..];
    ExecSteady(s, steps[0].inst, steps[0].ilen, c);
    assert IsLink(steps[0].inst) && steps[1].offset == steps[0].offset + steps[0].ilen;
    StaysSettled(s, steps[0].inst, steps[0].ilen, c);
    forall k | 0 <= k < |rest| ensures Faithful(s.code, d.pc, rest[0].offset, rest[k]) {
      assert Faithful(s.code, c.pc, steps[0].offset, steps[k + 1]);
      FaithfulLater(s.code, c.pc, steps[0].offset, steps[0].ilen, rest[k]);
    }
  }

  /** Harmlessness of what follows an iteration that agrees with the step. */
  lemma UnstaleRest<R(!new)>(s: Sys<R>, c: Cpu<World<R>>, d: Cpu<World<R>>, m: u64, n: nat)
    requires c.Valid() && d.Valid() && Lasting(s) && n > 0 && Unstale(s, c, m, n)
    requires Iterate(s, c) == (CpuAt(d, c.retired), Continue)
    ensures Unstale(s, d, m, n - 1)
  {
    hide Harmless, Iterate, Drive, View, Peeks;
    forall k: nat | k < n - 1 ensures Harmless(s, Drive(s, d, k).0, m) {
      DriveNext(s, c, d, c.retired, k);
      assert Harmless(s, Drive(s, c, 1 + k).0, m);
    }
  }

  /** A native run of an admitted chain is as many iterations of the reference driver as it starts
      instructions, none of which takes an interrupt; a store that may raise one ends the run at once. */
  lemma {:induction false} Batch<R(!new)>(s: Sys<R>, steps: seq<Step>, c: Cpu<World<R>>) returns (n: nat)
    requires Admitted(s, steps, c)
    ensures forall x | x in steps :: !x.inst.Other?
    ensures n == Started(SysBus(s.ram), steps, c) && 1 <= n <= |steps|
    ensures SameHart(Drive(s, c, n), Landing(s, Interp(SysBus(s.ram), steps, c)))
    ensures Interp(SysBus(s.ram), steps, c).Done? ==> n == |steps|
    ensures forall k: nat | k < n :: !Interrupted(s, View(Drive(s, c, k).0))
    decreases |steps|
  {
    hide ExecOne, Fresh, View, Iterate, SysBus, CanRun, Peeks, W32, MustRepoll, Drive, Interrupted, Harmless, Unstale;
    AdmittedFirst(s, steps, c);
    CanRunFirst(s, steps, c);
    DriveNone(s, c);
    n := 1;
    var x := ExecOne(SysBus(s.ram), steps[0].inst, steps[0].ilen, c);
    if x.Next? && !MustRepoll(SysBus(s.ram), steps[0].inst, c) && |steps| > 1 {
      OneIteration(s, Fresh(s.code, c.pc).value, c);
      CanRunRest(s, steps, c);
      UnstaleRest(s, c, x.c, c.world.clint.mtime, Started(SysBus(s.ram), steps, c));
      var m := Batch(s, steps[1..], x.c);
      n := 1 + m;
      DriveNext(s, c, x.c, c.retired, m);
      forall k: nat | k < n ensures !Interrupted(s, View(Drive(s, c, k).0)) {
        if k > 0 {
          DriveNext(s, c, x.c, c.retired, k - 1);
        }
      }
    } else {
      LastStep(s, steps, c);
    }
  }

  // ----- reads that are not harmless -----

  /** The exact condition, at every read of the time: if all instructions before it were harmless, the native
      run and the reference driver agree just after the read iff it is harmless too. */
  lemma {:induction false} StaleIff<R(!new)>(s: Sys<R>, steps: seq<Step>, c: Cpu<World<R>>, k: nat)
    requires CanRun(s, steps, c) && k < Started(SysBus(s.ram), steps, c)
    requires Unstale(s, c, c.world.clint.mtime, k) && Peeks(s, Drive(s, c, k).0)
    ensures forall x | x in steps[..k + 1] :: !x.inst.Other?
    ensures var o := Interp(SysBus(s.ram), steps[..k + 1], c);
      o.Done? && (SameHart(Drive(s, c, k + 1), (o.c, Continue)) <==> Harmless(s, Drive(s, c, k).0, c.world.clint.mtime))
    ensures Drive(s, c, k).0.retired == c.retired + k
    decreases k
  {
    hide ExecOne, Fresh, View, Iterate, SysBus, CanRun, Peeks, W32, MustRepoll, Drive, Interrupted, Harmless, Settled;
    var b, m := SysBus(s.ram), c.world.clint.mtime;
    CanRunFirst(s, steps, c);
    DriveNone(s, c);
    var x := ExecOne(b, steps[0].inst, steps[0].ilen, c);
    if k == 0 {
      PeekIff(s, Fresh(s.code, c.pc).value, c);
      assert steps[..1] == [steps[0]] && [steps[0]][1..] == [];
      assert Interp(b, [], x.c) == Done(x.c);
      assert Interp(b, [steps[0]], c) == Interp(b, [], x.c);
      DriveOne(s, c);
    } else {
      assert Harmless(s, Drive(s, c, 0).0, m);
      OneIteration(s, Fresh(s.code, c.pc).value, c);
      CanRunRest(s, steps, c);
      UnstaleRest(s, c, x.c, m, k);
      DriveNext(s, c, x.c, c.retired, k - 1);
      DriveNext(s, c, x.c, c.retired, k);
      StaleIff(s, steps[1..], x.c, k - 1);
      RetiredOf(Drive(s, c, k).0, Drive(s, x.c, k - 1).0);
      assert steps[..k + 1][1..] == steps[1..][..k] && steps[..k + 1][0] == steps[0];
      assert Interp(b, steps[..k + 1], c) == Interp(b, steps[1..][..k], x.c);
    }
  }

  lemma RetiredOf<R>(a: Cpu<World<R>>, b: Cpu<World<R>>)
    requires View(a) == View(b)
    ensures a.retired == b.retired
  {
  }

  lemma DriveOne<R(!new)>(s: Sys<R>, c: Cpu<World<R>>)
    requires c.Valid() && Lasting(s)
    ensures Drive(s, c, 1) == Iterate(s, c)
  {
    hide Iterate;
  }

  /** The guard of batching does not protect the time: a chain entered with a fresh time that loads the low
      word of the time register in a later step parts from the reference driver there. */
  lemma StaleTime<R(!new)>(s: Sys<R>, steps: seq<Step>, c: Cpu<World<R>>, k: nat)
    requires CanRun(s, steps, c) && c.world.clint.mtime == c.retired
    requires 0 < k < Started(SysBus(s.ram), steps, c) && k < TWO32 && Unstale(s, c, c.retired, k)
    requires var v := View(Drive(s, c, k).0); var f := Fresh(s.code, v.pc);
      f.Ok? && f.value.inst.Load? && f.value.inst.lop == Lw && f.value.inst.rd != 0 &&
      Address(f.value.inst, v) == CLINT_BASE + MTIME
    ensures forall x | x in steps[..k + 1] :: !x.inst.Other?
    ensures var o := Interp(SysBus(s.ram), steps[..k + 1], c);
      o.Done? && !SameHart(Drive(s, c, k + 1), (o.c, Continue))
  {
    hide ExecOne, Fresh, View, Iterate, SysBus, CanRun, Drive, Started, Unstale, Interp, Peeks, Harmless, SameHart, W32, Settled, Address;
    CanRunFirst(s, steps, c);
    LowWord(s, Drive(s, c, k).0, c.retired);
    StaleIff(s, steps, c, k);
    NoWrap(c.retired, k);
  }

  /** Loading the low word of the time is harmless at no other time, modulo 2^32. */
  lemma LowWord<R>(s: Sys<R>, d: Cpu<World<R>>, m: u64)
    requires d.Valid()
    requires var v := View(d); var f := Fresh(s.code, v.pc);
      f.Ok? && f.value.inst.Load? && f.value.inst.lop == Lw && f.value.inst.rd != 0 && Address(f.value.inst, v) == CLINT_BASE + MTIME
    ensures Peeks(s, d) && (Harmless(s, d, m) <==> W32(m) == W32(d.retired))
  {
    hide Fresh, W32;
    assert CLINT_BASE + MTIME == 0x0200_bff8;
    assert View(d).retired == d.retired;
  }

  lemma NoWrap(m: nat, k: nat)
    requires 0 < k < TWO32
    ensures W32(m) != W32(m + k)
  {
  }
}
