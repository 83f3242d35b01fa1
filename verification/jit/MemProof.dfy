/** Compiled loads and stores: fast pointer or call-out, fault, halt or repoll, they do what the
    interpreter does. */
module MemProof {
  import opened Words
  import opened Rv32
  import opened X86
  import opened ChainCode
  import opened ChainProof

  lemma LoadFromOk<W>(h: Host<W>, op: LoadOp, p: nat, x: X<W>) returns (y: X<W>)
    requires |x.r| == 16 && x.r[RAX] == HostPtr(p)
    ensures Run(h, [I(LoadFrom(op, RCX, RAX))], x) == Go(y)
    ensures y == SetNum(x, RCX, Extend(op, LowBytes(h.bus.peek(x.cpu.world, p, LoadSize(op)), LoadSize(op))))
  {
    hide CallShim, DoCall, Arith, Shift32;
    var n := LoadFrom(op, RCX, RAX);
    One(h, n, x);
    y := Do(h, n, x).value;
  }

  lemma StoreToOk<W>(h: Host<W>, op: StoreOp, p: nat, v: u32, x: X<W>) returns (y: X<W>)
    requires |x.r| == 16 && x.r[RAX] == HostPtr(p) && x.r[RCX] == Num(v)
    ensures Run(h, [I(StoreTo(op, RAX, RCX))], x) == Go(y)
    ensures y == x.(cpu := x.cpu.(world := h.bus.poke(x.cpu.world, p, StoreSize(op), LowBytes(v, StoreSize(op)))))
  {
    hide CallShim, DoCall, Arith, Shift32;
    var n := StoreTo(op, RAX, RCX);
    One(h, n, x);
    y := Do(h, n, x).value;
  }

  lemma FastLoadOk<W>(h: Host<W>, op: LoadOp, rd: RegIx, p: nat, x: X<W>) returns (y: X<W>)
    requires h.Valid() && Args(x) && x.cpu.Valid() && x.r[RAX] == HostPtr(p)
    ensures Run(h, FastLoad(h.t, op, rd), x) == Go(y) && Scratch(x, y)
    ensures var v := Extend(op, LowBytes(h.bus.peek(x.cpu.world, p, LoadSize(op)), LoadSize(op)));
      Same(y.cpu, x.cpu.(retired := W64(x.cpu.retired + 1), regs := Wr(x.cpu.regs, rd, v)))
  {
    hide Do, Run, Extend, LowBytes, W64, LoadFrom;
    var v := Extend(op, LowBytes(h.bus.peek(x.cpu.world, p, LoadSize(op)), LoadSize(op)));
    var s0 := CountOk(h, h.t.lay.hits, x);
    var s1 := LoadFromOk(h, op, p, s0);
    var s2 := BumpOk(h, s1);
    y := StoreRegOk(h, rd, RCX, v, s2);
    var p0, p1, p2 := Bump(h.t.lay.hits), [I(LoadFrom(op, RCX, RAX))], Bump(h.t.lay.retired);
    Then2(h, p0, p1, p2, x, s0, s1);
    Then(h, p0 + p1 + p2, StoreReg(h.t, rd, RCX), x, s2);
  }

  /** The prologue of both call-outs: count the bail, publish this instruction's own pc. */
  lemma BailOk<W>(h: Host<W>, off: u32, entry: u32, x: X<W>) returns (y: X<W>)
    requires h.Valid() && Args(x) && x.r[R8] == Num(entry)
    ensures Run(h, Bail(h.t, off), x) == Go(y) && Scratch(x, y)
    ensures Same(y.cpu, x.cpu.(pc := W32(entry + off))) && y.r[RCX] == x.r[RCX]
  {
    hide Do, W32;
    var s0 := CountOk(h, h.t.lay.bails, x);
    y := SetPcOk(h, RAX, off, entry, s0);
    Then(h, Bump(h.t.lay.bails), SetPc(h.t, RAX, off), x, s0);
  }

  lemma LoadCallOk<W>(h: Host<W>, op: LoadOp, va: u32, x: X<W>) returns (y: X<W>)
    requires h.Valid() && Args(x) && x.r[RCX] == Num(va) && x.stack == []
    ensures Run(h, Protect(R9, CallCode(h.t, LoadShim(op))), x) == Go(y) && Scratch(x, y)
    ensures CallShim(h.bus, LoadShim(op), x.cpu, va, None) == Some((y.cpu, y.r[RAX]))
  {
    hide Do, Extend;
    var s1 := x.(stack := Saved(R9, x));
    var s2 := CallOk(h, LoadShim(op), va, if x.r[R8].Num? then Some(W32(x.r[R8].n)) else None, s1);
    y := ProtectedOk(h, R9, CallCode(h.t, LoadShim(op)), x, s1, s2);
  }

  lemma StoreCallOk<W>(h: Host<W>, op: StoreOp, rs2: RegIx, va: u32, x: X<W>) returns (y: X<W>)
    requires h.Valid() && Args(x) && x.r[RCX] == Num(va) && x.stack == [] && x.cpu.Valid()
    ensures Run(h, Protect(R9, LoadReg(h.t, R8, rs2) + CallCode(h.t, StoreShim(op))), x) == Go(y)
    ensures Scratch(x, y)
    ensures CallShim(h.bus, StoreShim(op), x.cpu, va, Some(Rd(x.cpu.regs, rs2))) == Some((y.cpu, y.r[RAX]))
  {
    hide Do;
    var s1 := x.(stack := Saved(R9, x));
    var a := LoadRegOk(h, R8, rs2, s1);
    var s2 := CallOk(h, StoreShim(op), va, Some(Rd(x.cpu.regs, rs2)), a);
    var mid := LoadReg(h.t, R8, rs2) + CallCode(h.t, StoreShim(op));
    Then(h, LoadReg(h.t, R8, rs2), CallCode(h.t, StoreShim(op)), s1, a);
    y := ProtectedOk(h, R9, mid, x, s1, s2);
  }

  /** Bail, call out, test the packed answer. */
  lemma SlowHeadOk<W>(h: Host<W>, off: u32, entry: u32, call: seq<Node>, x: X<W>, s0: X<W>, s1: X<W>) returns (y: X<W>)
    requires h.Valid() && |x.r| == 16 && Run(h, Bail(h.t, off), x) == Go(s0) && |s0.r| == 16
    requires Run(h, call, s0) == Go(s1) && |s1.r| == 16 && s1.r[RAX].Num?
    ensures Run(h, Bail(h.t, off) + call + [I(TestQ(RAX, RAX))], x) == Go(y)
    ensures y == s1.(flags := y.flags) && y.flags.Some?
    ensures y.flags.value.zf == (s1.r[RAX] == Num(0)) && y.flags.value.sf == (s1.r[RAX].n >= TAG_TRAP)
  {
    hide Do;
    y := TestOk(h, s1);
    Then2(h, Bail(h.t, off), call, [I(TestQ(RAX, RAX))], x, s0, s1);
  }

  /** The trap exit: taken exactly when bit 63 is set. */
  lemma TrapExitOk<W>(h: Host<W>, head: seq<Node>, rest: seq<Node>, x: X<W>, s: X<W>)
    requires |x.r| == 16 && Run(h, head, x) == Go(s) && |s.r| == 16 && s.flags.Some? && s.stack == []
    ensures s.flags.value.sf ==> Run(h, head + [Skip(Ns, [I(Ret)])] + rest, x) == Returned(s)
    ensures !s.flags.value.sf ==> Run(h, head + [Skip(Ns, [I(Ret)])] + rest, x) == Run(h, rest, s)
  {
    hide Do;
    var skip := Skip(Ns, [I(Ret)]);
    SkipOk(h, skip, s);
    Then(h, head, [skip], x, s);
    RetOk(h, s);
    RunAppend(h, head + [skip], rest, x);
  }

  lemma SlowLoadParts(t: Target, op: LoadOp, rd: RegIx, off: u32)
    ensures var head := Bail(t, off) + Protect(R9, CallCode(t, LoadShim(op))) + [I(TestQ(RAX, RAX))];
      SlowLoad(t, op, rd, off) == head + [Skip(Ns, [I(Ret)])] + (Bump(t.lay.retired) + StoreReg(t, rd, RAX))
  {
    hide Bail, Protect, CallCode, Bump, StoreReg;
  }

  lemma SlowStoreParts(t: Target, op: StoreOp, rs2: RegIx, off: u32, next: u32)
    ensures var head := Bail(t, off) + Protect(R9, LoadReg(t, R8, rs2) + CallCode(t, StoreShim(op))) + [I(TestQ(RAX, RAX))];
      SlowStore(t, op, rs2, off, next) == head + [Skip(Ns, [I(Ret)])] + ([Skip(E, StopAfterStore(t, next))] + Bump(t.lay.retired))
  {
    hide Bail, Protect, CallCode, Bump, LoadReg, StopAfterStore;
  }

  lemma SlowLoadOk<W>(h: Host<W>, op: LoadOp, rd: RegIx, off: u32, entry: u32, va: u32, x: X<W>) returns (y: X<W>)
    requires h.Valid() && Args(x) && x.r[R8] == Num(entry) && x.r[RCX] == Num(va) && x.stack == [] && x.cpu.Valid()
    ensures Scratch(x, y)
    ensures var (w, res) := h.bus.load(x.cpu.world, va, LoadSize(op));
      var c := x.cpu.(pc := W32(entry + off), world := w);
      if res.Err? then
        Run(h, SlowLoad(h.t, op, rd, off), x) == Returned(y) && y.r[RAX] == Num(TAG_TRAP) &&
        Same(y.cpu, c.(pending := Some(res.error)))
      else
        Run(h, SlowLoad(h.t, op, rd, off), x) == Go(y) &&
        Same(y.cpu, c.(retired := W64(c.retired + 1), regs := Wr(c.regs, rd, Extend(op, res.value))))
  {
    hide Do, Extend, W32, SlowLoad, Bail, Protect, CallCode, Bump, StoreReg, Run;
    var call := Protect(R9, CallCode(h.t, LoadShim(op)));
    var s0 := BailOk(h, off, entry, x);
    var s1 := LoadCallOk(h, op, va, s0);
    var s2 := SlowHeadOk(h, off, entry, call, x, s0, s1);
    var head := Bail(h.t, off) + call + [I(TestQ(RAX, RAX))];
    var rest := Bump(h.t.lay.retired) + StoreReg(h.t, rd, RAX);
    TrapExitOk(h, head, rest, x, s2);
    SlowLoadParts(h.t, op, rd, off);
    var (w, res) := h.bus.load(x.cpu.world, va, LoadSize(op));
    if res.Err? {
      y := s2;
    } else {
      var s3 := BumpOk(h, s2);
      y := StoreRegOk(h, rd, RAX, Extend(op, res.value), s3);
      Then(h, Bump(h.t.lay.retired), StoreReg(h.t, rd, RAX), s2, s3);
    }
  }

  lemma FastStoreOk<W>(h: Host<W>, op: StoreOp, rs2: RegIx, p: nat, x: X<W>) returns (y: X<W>)
    requires h.Valid() && Args(x) && x.cpu.Valid() && x.r[RAX] == HostPtr(p)
    ensures Run(h, FastStore(h.t, op, rs2), x) == Go(y) && Scratch(x, y)
    ensures var v := LowBytes(Rd(x.cpu.regs, rs2), StoreSize(op));
      Same(y.cpu, x.cpu.(retired := W64(x.cpu.retired + 1), world := h.bus.poke(x.cpu.world, p, StoreSize(op), v)))
  {
    hide Do, Run, LowBytes, W64, StoreTo;
    var s0 := CountOk(h, h.t.lay.hits, x);
    var s1 := LoadRegOk(h, RCX, rs2, s0);
    var s2 := StoreToOk(h, op, p, Rd(x.cpu.regs, rs2), s1);
    y := BumpOk(h, s2);
    var p0, p1, p2 := Bump(h.t.lay.hits), LoadReg(h.t, RCX, rs2), [I(StoreTo(op, RAX, RCX))];
    Then2(h, p0, p1, p2, x, s0, s1);
    Then(h, p0 + p1 + p2, Bump(h.t.lay.retired), x, s2);
  }

  lemma StopAfterStoreOk<W>(h: Host<W>, next: u32, entry: u32, x: X<W>) returns (y: X<W>)
    requires h.Valid() && Args(x) && x.r[R8] == Num(entry) && x.stack == []
    ensures Run(h, StopAfterStore(h.t, next), x) == Returned(y) && Scratch(x, y) && y.r[RAX] == x.r[RAX]
    ensures y.cpu == x.cpu.(retired := W64(x.cpu.retired + 1), pc := W32(entry + next))
  {
    hide Do, W32;
    var s0 := BumpOk(h, x);
    y := SetPcOk(h, RCX, next, entry, s0);
    Then2(h, Bump(h.t.lay.retired), SetPc(h.t, RCX, next), [I(Ret)], x, s0, y);
    RetOk(h, y);
  }

  /** After the answer of a store that did not trap: stop on any other tag, else just retire. */
  lemma StoreExitOk<W>(h: Host<W>, next: u32, entry: u32, x: X<W>) returns (y: X<W>)
    requires h.Valid() && Args(x) && x.r[R8] == Num(entry) && x.stack == [] && x.flags.Some?
    ensures Scratch(x, y) && y.r[RAX] == x.r[RAX]
    ensures var c := x.cpu.(retired := W64(x.cpu.retired + 1));
      var code := [Skip(E, StopAfterStore(h.t, next))] + Bump(h.t.lay.retired);
      if x.flags.value.zf then Run(h, code, x) == Go(y) && y.cpu == c
      else Run(h, code, x) == Returned(y) && y.cpu == c.(pc := W32(entry + next))
  {
    hide Do, W32;
    var skip := Skip(E, StopAfterStore(h.t, next));
    SkipOk(h, skip, x);
    if x.flags.value.zf {
      y := BumpOk(h, x);
      Then(h, [skip], Bump(h.t.lay.retired), x, x);
    } else {
      y := StopAfterStoreOk(h, next, entry, x);
      StopsHere(h, [skip], Bump(h.t.lay.retired), x);
    }
  }

  /** The store call-out's answer, as the two tests on it see it. */
  function StoreTag<W>(h: Host<W>, op: StoreOp, va: u32, val: u32, c: Cpu<W>): u64
  {
    if h.bus.store(c.world, va, StoreSize(op), val).1.Some? then TAG_TRAP
    else if op == Sw && c.htif == Some(va) && val % 2 == 1 then TAG_HALT + val / 2
    else if h.bus.mayAssert(va, StoreSize(op)) then TAG_REPOLL
    else 0
  }

  lemma SlowStoreOk<W>(h: Host<W>, op: StoreOp, rs2: RegIx, off: u32, next: u32, entry: u32, va: u32, x: X<W>)
    returns (y: X<W>)
    requires h.Valid() && Args(x) && x.r[R8] == Num(entry) && x.r[RCX] == Num(va) && x.stack == [] && x.cpu.Valid()
    ensures Scratch(x, y)
    ensures var val := Rd(x.cpu.regs, rs2);
      var (w, res) := h.bus.store(x.cpu.world, va, StoreSize(op), val);
      var tag := StoreTag(h, op, va, val, x.cpu);
      var c := x.cpu.(pc := W32(entry + off), world := w);
      y.r[RAX] == Num(tag) &&
      if res.Some? then
        Run(h, SlowStore(h.t, op, rs2, off, next), x) == Returned(y) && Same(y.cpu, c.(pending := res))
      else if tag != 0 then
        Run(h, SlowStore(h.t, op, rs2, off, next), x) == Returned(y) &&
        Same(y.cpu, c.(retired := W64(c.retired + 1), pc := W32(entry + next)))
      else
        Run(h, SlowStore(h.t, op, rs2, off, next), x) == Go(y) && Same(y.cpu, c.(retired := W64(c.retired + 1)))
  {
    hide Do, W32, SlowStore, Bail, Protect, CallCode, Bump, LoadReg, StopAfterStore, Run;
    var val := Rd(x.cpu.regs, rs2);
    var call := Protect(R9, LoadReg(h.t, R8, rs2) + CallCode(h.t, StoreShim(op)));
    var s0 := BailOk(h, off, entry, x);
    var s1 := StoreCallOk(h, op, rs2, va, s0);
    assert s1.r[RAX] == Num(StoreTag(h, op, va, val, x.cpu));
    var s2 := SlowHeadOk(h, off, entry, call, x, s0, s1);
    var head := Bail(h.t, off) + call + [I(TestQ(RAX, RAX))];
    var rest := [Skip(E, StopAfterStore(h.t, next))] + Bump(h.t.lay.retired);
    TrapExitOk(h, head, rest, x, s2);
    SlowStoreParts(h.t, op, rs2, off, next);
    var (w, res) := h.bus.store(x.cpu.world, va, StoreSize(op), val);
    if res.Some? {
      y := s2;
    } else {
      y := StoreExitOk(h, next, entry, s2);
    }
  }

  /** `va`, the fast-pointer question, and the branch on its answer. */
  lemma AskFastOk<W>(h: Host<W>, rs1: RegIx, imm: u32, va: u32, s: Shim, n: Node, c: Cpu<W>, rax: Val, entry: u32, x: X<W>)
    returns (y: X<W>)
    requires h.Valid() && Args(x) && x.r[R8] == Num(entry) && x.cpu.Valid() && x.stack == []
    requires n.IfElse? && n.cc == Cc.Ne && (rax == Num(0) || rax.HostPtr?)
    requires va == W32(Rd(x.cpu.regs, rs1) + imm) && forall val :: CallShim(h.bus, s, x.cpu, va, val) == Some((c, rax))
    ensures Scratch(x, y) && y.cpu == c && y.r[RAX] == rax && y.r[RCX] == Num(va)
    ensures Run(h, VaCode(h.t, rs1, imm) + FastCall(h.t, s) + [I(TestQ(RAX, RAX))] + [n], x) ==
      Run(h, if rax.HostPtr? then n.thn else n.els, y)
  {
    hide Do, W32, CallShim;
    var s0 := VaOk(h, rs1, imm, x);
    var s1 := FastCallOk(h, s, va, s0, c, rax);
    y := TestOk(h, s1);
    var p0, p1, p2 := VaCode(h.t, rs1, imm), FastCall(h.t, s), [I(TestQ(RAX, RAX))];
    Then2(h, p0, p1, p2, x, s0, s1);
    Then(h, p0 + p1 + p2, [n], x, y);
    BranchOk(h, n, y);
  }
}
