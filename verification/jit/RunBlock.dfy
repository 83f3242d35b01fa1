/** `ChainCache::run_block` and the driver loop around it (crates/fs-jit/src/chain.rs,
    crates/fs-cli/src/main.rs): whatever the caches hold, a run through native code visits only states
    that the plain interpreter loop visits, in order. */
module RunBlock {
  import opened Words
  import opened Rv32
  import opened X86
  import opened Decoding
  import opened System
  import opened TimeReads
  import opened Batching
  import opened Flat
  import opened CodeCache
  import opened ChainProof

  /** Run the machine code at `off` until it returns; `k` bounds how long that takes. */
  method CallArena<W>(h: Host<W>, arena: seq<u8>, off: nat, x: X<W>, ghost k: nat) returns (y: X<W>)
    requires |x.r| == 16 && FlatRun(h, arena, At(off, x), k).Finished?
    ensures FlatRun(h, arena, At(off, x), k) == Finished(y)
  {
    hide FlatStep;
    var f := Flat<W>.At(off, x);
    ghost var fuel := k;
    while f.At?
      invariant !f.Crashed? ==> |f.x.r| == 16
      invariant FlatRun(h, arena, f, fuel) == FlatRun(h, arena, At(off, x), k)
      decreases fuel
    {
      f := FlatStep(h, arena, f.ip, f.x);
      fuel := fuel - 1;
    }
    y := f.x;
  }

  /** `a` with the diagnostics and mailbox of `b`. */
  function Diag<W>(a: Cpu<W>, b: Cpu<W>): Cpu<W> { a.(hits := b.hits, bails := b.bails, pending := b.pending) }

  function ExecDiag<W>(x: Exec<W>, d: Cpu<W>): Exec<W>
  {
    match x case Next(c) => Next(Diag(c, d)) case Halt(c, n) => Halt(Diag(c, d), n) case Fault(c, t) => Fault(Diag(c, d), t)
  }

  function OutcomeDiag<W>(o: Outcome<W>, d: Cpu<W>): Outcome<W>
  {
    match o
    case Done(c) => Done(Diag(c, d))
    case Trapped(c, t) => Trapped(Diag(c, d), t)
    case Halted(c, n) => Halted(Diag(c, d), n)
    case Repoll(c) => Repoll(Diag(c, d))
  }

  lemma ExecOneDiag<W>(b: Bus<W>, i: Inst, ilen: u32, c: Cpu<W>, d: Cpu<W>)
    requires c.Valid() && !i.Other?
    ensures ExecOne(b, i, ilen, Diag(c, d)) == ExecDiag(ExecOne(b, i, ilen, c), d)
  {
    hide W32, Alu, Bits32;
  }

  lemma {:induction false} InterpDiag<W>(b: Bus<W>, steps: seq<Step>, c: Cpu<W>, d: Cpu<W>)
    requires c.Valid() && forall s | s in steps :: !s.inst.Other?
    ensures Interp(b, steps, Diag(c, d)) == OutcomeDiag(Interp(b, steps, c), d)
    decreases |steps|
  {
    hide ExecOne;
    if steps != [] {
      ExecOneDiag(b, steps[0].inst, steps[0].ilen, c, d);
      var x := ExecOne(b, steps[0].inst, steps[0].ilen, c);
      if x.Next? {
        InterpDiag(b, steps[1..], x.c, d);
      }
    }
  }

  /** Facts about the machine that native code relies on. */
  ghost predicate Sound<R(!new)>(s: Sys<R>, h: Host<World<R>>)
  {
    && s.code.Coherent() && Lawful(s.ram) && Quiet(s) && Lasting(s)
    && h.Valid() && h.bus == SysBus(s.ram)
  }

  /** The registers a native call is entered with; the rest hold anything. */
  function Entry<W>(h: Host<W>, c: Cpu<W>): X<W>
  {
    var r := seq(16, i requires 0 <= i < 16 => h.junk(0, i));
    X(r[RDI := CpuPtr][RSI := BusData][RDX := BusVtable], [], None, c, 0)
  }

  /** What the driver makes of a native call's packed return value. */
  function Unpack<R>(s: Sys<R>, ret: u64, c: Cpu<World<R>>): (Cpu<World<R>>, SysExit)
  {
    if ret / TAG_TRAP % 2 == 1 then
      if c.pending.None? then (c, Continue)
      else (Vector(s, c.pending.value, c.(pending := None)), Continue)
    else if ret / TAG_HALT % 2 == 1 then (c, HaltExit(W32(ret)))
    else (c, Continue)
  }

  lemma HaltTag(code: u32)
    ensures var t := W64(TAG_HALT + code); t / TAG_TRAP % 2 == 0 && t / TAG_HALT % 2 == 1 && W32(t) == code
  {
    var t: int := TAG_HALT + code;
    assert t == code + TWO32 * 0x4000_0000;
    assert t / TAG_TRAP == 0 && t / TAG_HALT == 1;
  }

  lemma UnpackLands<R>(s: Sys<R>, o: Outcome<World<R>>, ret: u64, c: Cpu<World<R>>)
    requires ret == Tag(o) && Same(c, Final(o))
    ensures SameHart(Unpack(s, ret, c), Landing(s, o))
  {
    hide W32;
    if o.Halted? {
      HaltTag(o.code);
    }
  }

  lemma LandingDiag<R>(s: Sys<R>, o: Outcome<World<R>>, d: Cpu<World<R>>)
    ensures SameHart(Landing(s, OutcomeDiag(o, d)), Landing(s, o))
  {
  }

  lemma SyncedView<R>(c: Cpu<World<R>>)
    requires Sync(c) == c
    ensures View(c) == Strip(UpdateTimers(c)) && View(Strip(UpdateTimers(c))) == View(c)
  {
  }

  /** If a chain may run natively from here, every read of the time in it, from the second instruction on, is
      harmless; the first instruction, and whatever is interpreted, has a fresh time. */
  ghost predicate TimeOk<R(!new)>(s: Sys<R>, c: Cpu<World<R>>)
    requires c.Valid() && Lasting(s)
  {
    var v := View(c);
    var r := s.code.xlate(v.pc);
    r.Ok? && !Interrupted(s, v) && v.retired + |Chain(s.code, v.pc, r.value)| <= Deadline(v) ==>
      Unstale(s, v, v.retired, Started(SysBus(s.ram), Chain(s.code, v.pc, r.value), v))
  }

  lemma TimeOkOfView<R(!new)>(s: Sys<R>, a: Cpu<World<R>>, b: Cpu<World<R>>)
    requires a.Valid() && b.Valid() && Lasting(s) && View(a) == View(b)
    ensures TimeOk(s, a) == TimeOk(s, b)
  {
  }

  /** The chain decoded at the entry is one the admission guard lets through. */
  lemma Admit<R(!new)>(s: Sys<R>, c: Cpu<World<R>>, pa: u32)
    requires Lasting(s) && Quiet(s) && c.Valid() && Sync(c) == c && s.code.xlate(c.pc) == Ok(pa)
    requires !Interrupted(s, View(c)) && TimeOk(s, c)
    requires var steps := Chain(s.code, c.pc, pa); steps != [] && c.retired + |steps| <= Deadline(View(c))
    ensures Admitted(s, Chain(s.code, c.pc, pa), View(c))
  {
    hide Chain, Fresh, Drive, Peeks, W32, Started, Unstale;
    ChainIs(s.code, c.pc, pa);
    ViewAgain(c);
  }

  lemma ViewAgain<R>(c: Cpu<World<R>>)
    ensures View(View(c)) == View(c) == CpuAt(View(c), c.retired)
  {
  }

  lemma ChainIs(c: Code, va: u32, pa: u32)
    requires c.xlate(va) == Ok(pa) && Chain(c, va, pa) != []
    ensures var s := Chain(c, va, pa);
      |s| <= MAX_CHAIN_LEN && Contiguous(s) && s[0].offset == 0 && forall k | 0 <= k < |s| :: Faithful(c, va, s[0].offset, s[k])
  {
    ChainShape(c, va, pa, pa / PAGE, 0, MAX_CHAIN_LEN);
  }

  lemma IterateUninterrupted<R(!new)>(s: Sys<R>, c: Cpu<World<R>>)
    requires c.Valid() && Lasting(s)
    ensures Drive(s, c, 1) ==
      if Interrupted(s, View(c)) then (Take(s, View(c)), Continue) else ExecFetched(s, Fresh(s.code, View(c).pc), View(c))
  {
    hide ExecFetched, View, Fresh;
    IterateValid(s, c);
    var (d, e) := Iterate(s, c);
    assert e.Continue? ==> Drive(s, d, 0) == (d, e);
  }

  lemma DiagView<R>(c: Cpu<World<R>>, d: Cpu<World<R>>)
    ensures View(Diag(c, d)) == View(c)
  {
  }

  /** `n` iterations of the reference driver end there, and none of them takes an interrupt. */
  ghost predicate Reached<R(!new)>(s: Sys<R>, c: Cpu<World<R>>, d: Cpu<World<R>>, exit: SysExit, n: nat)
    requires c.Valid() && Lasting(s)
  {
    && 1 <= n <= MAX_CHAIN_LEN && SameHart((d, exit), Drive(s, c, n))
    && forall k: nat | k < n :: !Interrupted(s, View(Drive(s, c, k).0))
  }

  /** One native dispatch. */
  method Native<R(!new)>(s: Sys<R>, cache: ChainCache, h: Host<World<R>>, c: Cpu<World<R>>, pa: u32, slot: ChainSlot)
    returns (d: Cpu<World<R>>, exit: SysExit)
    requires Sound(s, h) && cache.arena.Valid() && h.t == cache.t && c.Valid() && Sync(c) == c
    requires s.code.xlate(c.pc) == Ok(pa) && cache.Compiled(s.code, c.pc, pa, slot)
    requires !Interrupted(s, View(c)) && TimeOk(s, c) && c.retired + slot.len <= Deadline(View(c))
    ensures exists n: nat :: Reached(s, c, d, exit, n)
  {
    hide Chain, FlatRun, Interp, View, Drive, Interrupted, TimeOk, Admitted, Started, UpdateTimers, Quiet, Lawful,
      Unpack, Landing, Diag, Tag, Final, Same, Deadline, Sync, SameHart, Reached, ChainCache.Compiled, Host.Valid;
    ghost var steps := Chain(s.code, c.pc, pa);
    CompiledIs(cache, s.code, c.pc, pa, slot);
    ChainIs(s.code, c.pc, pa);
    var polled := UpdateTimers(c);
    PolledPlace(c);
    var x := Entry(h, polled);
    SysLawful(s.ram);
    ghost var k := cache.CallDelivers(s.code, h, polled.pc, pa, slot, x);
    var y := CallArena(h, cache.arena.mem[..cache.arena.len], slot.off, x, k);
    var r := Unpack(s, y.r[RAX].n, y.cpu);
    d, exit := r.0, r.1;
    UnpackLands(s, Interp(h.bus, steps, polled), y.r[RAX].n, y.cpu);
    Arrives(s, c, pa, (d, exit));
  }

  lemma CompiledIs(cache: ChainCache, code: Code, va: u32, pa: u32, slot: ChainSlot)
    requires cache.arena.Valid() && cache.Compiled(code, va, pa, slot)
    ensures Chain(code, va, pa) != [] && |Chain(code, va, pa)| == slot.len
  {
    hide Chain;
  }

  lemma PolledPlace<R>(c: Cpu<World<R>>)
    ensures UpdateTimers(c).pc == c.pc && UpdateTimers(c).Valid() == c.Valid()
  {
  }

  /** Where an admitted chain, run from the polled hart, lands is where the reference driver gets to. */
  lemma Arrives<R(!new)>(s: Sys<R>, c: Cpu<World<R>>, pa: u32, r: (Cpu<World<R>>, SysExit))
    requires s.code.Coherent() && Lasting(s) && Quiet(s) && c.Valid() && Sync(c) == c && UpdateTimers(c).Valid()
    requires s.code.xlate(c.pc) == Ok(pa) && Chain(s.code, c.pc, pa) != []
    requires !Interrupted(s, View(c)) && TimeOk(s, c) && c.retired + |Chain(s.code, c.pc, pa)| <= Deadline(View(c))
    requires forall x | x in Chain(s.code, c.pc, pa) :: !x.inst.Other?
    requires SameHart(r, Landing(s, Interp(SysBus(s.ram), Chain(s.code, c.pc, pa), UpdateTimers(c))))
    ensures exists n: nat :: Reached(s, c, r.0, r.1, n)
  {
    hide Chain, Interp, View, Drive, Interrupted, TimeOk, Admitted, Started, UpdateTimers, Quiet, SysBus, Landing, Diag, Deadline, Sync;
    var steps, polled := Chain(s.code, c.pc, pa), UpdateTimers(c);
    ChainIs(s.code, c.pc, pa);
    Admit(s, c, pa);
    AdmittedValid(s, steps, View(c));
    var n := Batch(s, steps, View(c));
    PolledDiag(c);
    InterpDiag(SysBus(s.ram), steps, View(c), polled);
    LandingDiag(s, Interp(SysBus(s.ram), steps, View(c)), polled);
    DriveFromView(s, c, n);
    assert Reached(s, c, r.0, r.1, n);
  }

  lemma AdmittedValid<R(!new)>(s: Sys<R>, steps: seq<Step>, c: Cpu<World<R>>)
    requires Admitted(s, steps, c)
    ensures c.Valid()
  {
  }

  lemma PolledDiag<R>(c: Cpu<World<R>>)
    requires Sync(c) == c
    ensures UpdateTimers(c) == Diag(View(c), UpdateTimers(c))
  {
  }

  lemma DriveFromView<R(!new)>(s: Sys<R>, c: Cpu<World<R>>, n: nat)
    requires c.Valid() && Lasting(s)
    ensures View(c).Valid() && SameHart(Drive(s, View(c), n), Drive(s, c, n))
    ensures forall k: nat | k < n :: View(Drive(s, View(c), k).0) == View(Drive(s, c, k).0)
  {
    hide View, Drive;
    ViewAgain(c);
    ViewValid(c);
    DriveOfView(s, View(c), c, n);
    forall k: nat | k < n ensures View(Drive(s, View(c), k).0) == View(Drive(s, c, k).0) {
      DriveOfView(s, View(c), c, k);
    }
  }

  /** One dispatch: an interrupt, a native chain, or one interpreted instruction. */
  method Dispatch<R(!new)>(s: Sys<R>, cache: ChainCache, h: Host<World<R>>, c: Cpu<World<R>>)
    returns (d: Cpu<World<R>>, exit: SysExit, ghost n: nat)
    requires Sound(s, h) && cache.Valid(s.code) && h.t == cache.t
    requires c.Valid() && Sync(c) == c && c.pc % 2 == 0 && TimeOk(s, c)
    modifies cache, cache.slots, cache.arena, cache.arena.mem, cache.interp, cache.interp.slots
    ensures cache.Valid(s.code)
    ensures 1 <= n <= MAX_CHAIN_LEN && SameHart((d, exit), Drive(s, c, n))
  {
    hide Chain, Drive, TimeOk, View, Fresh, ExecFetched, Sync, Interrupted, ChainCache.Compiled, CodeCache.Laid;
    n := 1;
    IterateUninterrupted(s, c);
    SyncedView(c);
    var polled := UpdateTimers(c);
    assert polled.pc == View(c).pc == c.pc by { PolledDiag(c); }
    if Interrupted(s, polled) {
      TakeStripped(s, c);
      return Take(s, polled), Continue, 1;
    }
    assert !Interrupted(s, View(c)) by { PolledGate(s, c); }
    var t := s.code.xlate(c.pc);
    if t.Err? {
      assert Fresh(s.code, c.pc) == Err(t.error) by { NoTranslation(s.code, c.pc); }
      VectorStripped(s, t.error, c);
      return Vector(s, t.error, polled), Continue, 1;
    }
    var slot := cache.LookupOrCompile(s.code, c.pc, t.value);
    if slot.Some? && slot.value.len > 0 && c.retired + slot.value.len <= Deadline(polled) {
      assert Deadline(polled) == Deadline(View(c)) by { PolledGate(s, c); }
      d, exit := Native(s, cache, h, c, t.value, slot.value);
      n :| Reached(s, c, d, exit, n);
    } else {
      var f := cache.interp.Fetch(s.code, c.pc);
      var r := ExecFetched(s, f, Strip(polled));
      DiagView(r.0, polled);
      d, exit := Diag(r.0, polled), r.1;
    }
  }

  lemma PolledGate<R>(s: Sys<R>, c: Cpu<World<R>>)
    requires Sync(c) == c
    ensures Interrupted(s, UpdateTimers(c)) == Interrupted(s, View(c))
    ensures Deadline(UpdateTimers(c)) == Deadline(View(c))
  {
  }

  lemma TakeStripped<R>(s: Sys<R>, c: Cpu<World<R>>)
    requires Sync(c) == c && Interrupted(s, UpdateTimers(c))
    ensures Interrupted(s, View(c)) && View(Take(s, UpdateTimers(c))) == View(Take(s, View(c)))
  {
  }

  lemma NoTranslation(c: Code, va: u32)
    requires c.xlate(va).Err?
    ensures Fresh(c, va) == Err(c.xlate(va).error)
  {
  }

  lemma VectorStripped<R>(s: Sys<R>, t: Trap, c: Cpu<World<R>>)
    requires Sync(c) == c && c.Valid()
    ensures View(Vector(s, t, UpdateTimers(c))) == View(Vector(s, t, View(c)))
    ensures ExecFetched(s, Err(t), View(c)) == (Vector(s, t, View(c)), Continue)
  {
  }

  /** The interpreter's own run from `c` stays at even addresses, and wherever in it a chain may run natively
      the time is read harmlessly. Which of these places a dispatch starts at is up to the caches. */
  ghost predicate Tame<R(!new)>(s: Sys<R>, c: Cpu<World<R>>)
    requires c.Valid() && Lasting(s)
  {
    forall k: nat | Drive(s, c, k).1.Continue? :: Drive(s, c, k).0.pc % 2 == 0 && TimeOk(s, Drive(s, c, k).0)
  }

  lemma SyncView<R>(c: Cpu<World<R>>)
    ensures View(Sync(c)) == View(c) && Sync(Sync(c)) == Sync(c) && Sync(c).pc == View(c).pc
    ensures Sync(c).Valid() == c.Valid() == View(c).Valid()
  {
  }

  lemma Still<R(!new)>(s: Sys<R>, c: Cpu<World<R>>)
    requires c.Valid() && Lasting(s)
    ensures SameHart((c, Continue), Drive(s, c, 0))
  {
  }

  /** Where the native run stands, the next dispatch may begin. */
  lemma Onward<R(!new)>(s: Sys<R>, c0: Cpu<World<R>>, total: nat, c: Cpu<World<R>>)
    requires c0.Valid() && c.Valid() && Lasting(s) && Tame(s, c0) && SameHart((c, Continue), Drive(s, c0, total))
    ensures var b := Sync(c); b.Valid() && Sync(b) == b && b.pc % 2 == 0 && TimeOk(s, b)
  {
    hide Drive, View, Sync, TimeOk;
    var d := Drive(s, c0, total).0;
    SyncView(c);
    assert Drive(s, c0, total).1.Continue? && TimeOk(s, d);
    TimeOkOfView(s, Sync(c), d);
    PcOfView(c, d);
  }

  lemma PcOfView<R>(c: Cpu<World<R>>, d: Cpu<World<R>>)
    requires View(c) == View(d)
    ensures Sync(c).pc == d.pc
  {
  }

  lemma Forward<R(!new)>(s: Sys<R>, c0: Cpu<World<R>>, total: nat, b: Cpu<World<R>>, n: nat, c: Cpu<World<R>>, exit: SysExit)
    requires c0.Valid() && b.Valid() && Sync(b).Valid() && Lasting(s)
    requires SameHart((b, Continue), Drive(s, c0, total)) && SameHart((c, exit), Drive(s, Sync(b), n))
    ensures c.Valid() && SameHart((c, exit), Drive(s, c0, total + n))
  {
    hide Drive, View, Sync;
    var d := Drive(s, c0, total).0;
    SyncView(b);
    SyncView(c);
    SyncView(Drive(s, Sync(b), n).0);
    DriveAdd(s, c0, total, n);
    DriveOfView(s, Sync(b), d, n);
  }

  /** The fuzz-case driver, for any number of dispatches: it ends in a state of the interpreter's run, each
      dispatch having done at least one of its steps, and stops early only at the deadline or on an exit. */
  method RunCase<R(!new)>(s: Sys<R>, cache: ChainCache, h: Host<World<R>>, c0: Cpu<World<R>>, deadline: u64, dispatches: nat)
    returns (c: Cpu<World<R>>, exit: SysExit, ghost total: nat, ghost ran: nat)
    requires Sound(s, h) && cache.Valid(s.code) && h.t == cache.t && c0.Valid() && Tame(s, c0)
    modifies cache, cache.slots, cache.arena, cache.arena.mem, cache.interp, cache.interp.slots
    ensures cache.Valid(s.code)
    ensures SameHart((c, exit), Drive(s, c0, total)) && ran <= dispatches && ran <= total <= MAX_CHAIN_LEN * ran
    ensures exit.Continue? ==> ran == dispatches || c.retired >= deadline
  {
    hide Drive, View, Sync, TimeOk, SameHart;
    c, exit, total, ran := c0, Continue, 0, 0;
    Still(s, c0);
    for i := 0 to dispatches
      invariant cache.Valid(s.code) && c.Valid() && exit.Continue?
      invariant SameHart((c, Continue), Drive(s, c0, total)) && ran == i && i <= total <= MAX_CHAIN_LEN * i
    {
      if c.retired >= deadline { break; }
      Onward(s, c0, total, c);
      ghost var n, was := 0, c;
      c, exit, n := Dispatch(s, cache, h, Sync(c));
      Forward(s, c0, total, was, n, c, exit);
      total, ran := total + n, ran + 1;
      if !exit.Continue? { break; }
    }
  }
}
