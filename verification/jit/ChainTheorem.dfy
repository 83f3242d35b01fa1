/** The compiler-correctness theorem, over whole chains. */
module ChainTheorem {
  import opened Words
  import opened Rv32
  import opened X86
  import opened ChainCode
  import opened ChainProof
  import StepProof
  import MemProof

  lemma Wrap(a: int, b: int)
    ensures W32(W32(a) + b) == W32(a + b)
  {
    var q := a / TWO32;
    assert W32(a) + b == a + b - TWO32 * q;
    Shifted(a + b, q);
  }

  lemma Shifted(x: int, q: int)
    ensures W32(x - TWO32 * q) == W32(x)
  {
  }

  /** Position arithmetic of one step: a pc-relative address through the entry or through its own pc. */
  lemma PcOf(entry: u32, off: u32, d: u32)
    ensures W32(W32(entry + off) + d) == W32(entry + W32(off + d))
  {
    hide W32;
    Wrap(entry + off, d);
    Wrap(off + d, entry);
    assert W32(off + d) + entry == entry + W32(off + d);
    assert entry + off + d == off + d + entry;
  }

  ghost predicate At(c_pc: u32, entry: u32, s: Rv32.Step) { c_pc == W32(entry + s.offset) }

  /** What running one step's code must give, for each answer of the interpreter. */
  ghost predicate StepDoes<W>(h: Host<W>, s: Rv32.Step, entry: u32, c: Cpu<W>, r: Out<W>)
    requires c.Valid() && !s.inst.Other?
  {
    match ExecOne(h.bus, s.inst, s.ilen, c)
    case Fault(c', t) => Delivered(r, Trapped(c', t), entry)
    case Halt(c', code) => Delivered(r, Halted(c', code), entry)
    case Next(c') =>
      if MustRepoll(h.bus, s.inst, c) then Delivered(r, Repoll(c'), entry)
      else r.Go? && Ready(r.x, c', entry) && (IsTerminal(s.inst) ==> r.x.cpu.pc == c'.pc)
  }

  /** The blanket bump after code that only changed registers, and maybe the pc, commits the step. */
  lemma Commit<W>(h: Host<W>, s: Rv32.Step, entry: u32, x: X<W>, c: Cpu<W>, y: X<W>, regs: seq<u32>, pc: u32)
    requires h.Valid() && Ready(x, c, entry) && !s.inst.Load? && !s.inst.Store? && !s.inst.Other?
    requires Run(h, InstCode(h.t, s), x) == Go(y) && Scratch(x, y)
    requires y.cpu == x.cpu.(regs := regs, pc := y.cpu.pc)
    requires IsTerminal(s.inst) ==> y.cpu.pc == pc
    requires ExecOne(h.bus, s.inst, s.ilen, c) == Retire(c, regs, pc)
    ensures StepDoes(h, s, entry, c, Run(h, StepCode(h.t, s), x))
  {
    hide Do, W32, ExecOne, InstCode;
    var z := BumpOk(h, y);
    Then(h, InstCode(h.t, s), Bump(h.t.lay.retired), x, y);
  }

  lemma FenceStep<W>(h: Host<W>, s: Rv32.Step, entry: u32, x: X<W>, c: Cpu<W>)
    requires h.Valid() && Ready(x, c, entry) && s.inst.Fence?
    ensures StepDoes(h, s, entry, c, Run(h, StepCode(h.t, s), x))
  {
    hide Do, W32, StepCode, StepDoes;
    Commit(h, s, entry, x, c, x, c.regs, W32(c.pc + s.ilen));
  }

  lemma LuiStep<W>(h: Host<W>, s: Rv32.Step, entry: u32, x: X<W>, c: Cpu<W>)
    requires h.Valid() && Ready(x, c, entry) && s.inst.Lui?
    ensures StepDoes(h, s, entry, c, Run(h, StepCode(h.t, s), x))
  {
    hide Do, Run, W32, InstCode, StepCode, StepDoes;
    var y := StepProof.LuiOk(h, s, x);
    Commit(h, s, entry, x, c, y, Wr(c.regs, s.inst.rd, s.inst.imm), W32(c.pc + s.ilen));
  }

  lemma AuipcStep<W>(h: Host<W>, s: Rv32.Step, entry: u32, x: X<W>, c: Cpu<W>)
    requires h.Valid() && Ready(x, c, entry) && At(c.pc, entry, s) && s.inst.Auipc?
    ensures StepDoes(h, s, entry, c, Run(h, StepCode(h.t, s), x))
  {
    hide Do, Run, W32, Link, StepCode, StepDoes;
    var i := s.inst;
    PcOf(entry, s.offset, i.imm);
    var y := LinkOk(h, i.rd, W32(s.offset + i.imm), entry, x);
    Commit(h, s, entry, x, c, y, Wr(c.regs, i.rd, W32(c.pc + i.imm)), W32(c.pc + s.ilen));
  }

  lemma ConstStep<W>(h: Host<W>, s: Rv32.Step, entry: u32, x: X<W>, c: Cpu<W>)
    requires h.Valid() && Ready(x, c, entry) && At(c.pc, entry, s)
    requires s.inst.Lui? || s.inst.Auipc? || s.inst.Fence?
    ensures StepDoes(h, s, entry, c, Run(h, StepCode(h.t, s), x))
  {
    hide Do, Run, W32, StepCode, StepDoes, Host.Valid, Ready, At;
    match s.inst {
      case Fence => FenceStep(h, s, entry, x, c);
      case Lui(_, _) => LuiStep(h, s, entry, x, c);
      case Auipc(_, _) => AuipcStep(h, s, entry, x, c);
    }
  }

  lemma OpImmStep<W>(h: Host<W>, s: Rv32.Step, entry: u32, x: X<W>, c: Cpu<W>)
    requires h.Valid() && Ready(x, c, entry) && s.inst.OpImm?
    ensures StepDoes(h, s, entry, c, Run(h, StepCode(h.t, s), x))
  {
    hide Do, W32, Alu, InstCode, StepCode, StepDoes;
    var i := s.inst;
    var y := StepProof.OpImmOk(h, s, x);
    Commit(h, s, entry, x, c, y, Wr(c.regs, i.rd, Alu(i.op, Rd(c.regs, i.rs1), i.imm)), W32(c.pc + s.ilen));
  }

  lemma OpStep<W>(h: Host<W>, s: Rv32.Step, entry: u32, x: X<W>, c: Cpu<W>)
    requires h.Valid() && Ready(x, c, entry) && s.inst.Op?
    ensures StepDoes(h, s, entry, c, Run(h, StepCode(h.t, s), x))
  {
    hide Do, W32, Alu, InstCode, StepCode, StepDoes;
    var i := s.inst;
    var y := StepProof.OpOk(h, s, x);
    Commit(h, s, entry, x, c, y, Wr(c.regs, i.rd, Alu(i.op, Rd(c.regs, i.rs1), Rd(c.regs, i.rs2))), W32(c.pc + s.ilen));
  }

  lemma JalStep<W>(h: Host<W>, s: Rv32.Step, entry: u32, x: X<W>, c: Cpu<W>)
    requires h.Valid() && Ready(x, c, entry) && At(c.pc, entry, s) && s.inst.Jal?
    ensures StepDoes(h, s, entry, c, Run(h, StepCode(h.t, s), x))
  {
    hide Do, W32, InstCode, StepCode, StepDoes;
    var i := s.inst;
    PcOf(entry, s.offset, i.imm);
    PcOf(entry, s.offset, s.ilen);
    var y := StepProof.JalOk(h, s, entry, x);
    Commit(h, s, entry, x, c, y, Wr(c.regs, i.rd, W32(c.pc + s.ilen)), W32(c.pc + i.imm));
  }

  lemma JalrStep<W>(h: Host<W>, s: Rv32.Step, entry: u32, x: X<W>, c: Cpu<W>)
    requires h.Valid() && Ready(x, c, entry) && At(c.pc, entry, s) && s.inst.Jalr?
    ensures StepDoes(h, s, entry, c, Run(h, StepCode(h.t, s), x))
  {
    hide Do, W32, Bits32, InstCode, StepCode, StepDoes;
    var i := s.inst;
    PcOf(entry, s.offset, s.ilen);
    var y := StepProof.JalrOk(h, s, entry, x);
    Commit(h, s, entry, x, c, y, Wr(c.regs, i.rd, W32(c.pc + s.ilen)),
           Bits32(BitAnd, W32(Rd(c.regs, i.rs1) + i.imm), 0xffff_fffe));
  }

  lemma BranchStep<W>(h: Host<W>, s: Rv32.Step, entry: u32, x: X<W>, c: Cpu<W>)
    requires h.Valid() && Ready(x, c, entry) && At(c.pc, entry, s) && s.inst.Branch?
    ensures StepDoes(h, s, entry, c, Run(h, StepCode(h.t, s), x))
  {
    hide Do, W32, Taken, InstCode, StepCode, StepDoes;
    var i := s.inst;
    PcOf(entry, s.offset, i.imm);
    PcOf(entry, s.offset, s.ilen);
    var y := StepProof.BranchStepOk(h, s, entry, x);
    var taken := Taken(i.bop, Rd(c.regs, i.rs1), Rd(c.regs, i.rs2));
    Commit(h, s, entry, x, c, y, c.regs, if taken then W32(c.pc + i.imm) else W32(c.pc + s.ilen));
  }

  lemma LoadHit<W(!new)>(h: Host<W>, s: Rv32.Step, entry: u32, y: X<W>, c: Cpu<W>, va: u32, p: nat)
    requires h.Valid() && Lawful(h.bus) && Ready(y, c, entry) && s.inst.Load?
    requires va == W32(Rd(c.regs, s.inst.rs1) + s.inst.imm) && va % LoadSize(s.inst.lop) == 0
    requires h.bus.fastLoad(c.world, va, LoadSize(s.inst.lop)) == Some(p) && y.r[RAX] == HostPtr(p)
    ensures StepDoes(h, s, entry, c, Run(h, FastLoad(h.t, s.inst.lop, s.inst.rd), y))
  {
    hide Do, Run, W32, W64, Extend, LowBytes;
    var z := MemProof.FastLoadOk(h, s.inst.lop, s.inst.rd, p, y);
  }

  lemma LoadBail<W>(h: Host<W>, s: Rv32.Step, entry: u32, y: X<W>, c: Cpu<W>, va: u32)
    requires h.Valid() && Ready(y, c, entry) && At(c.pc, entry, s) && s.inst.Load?
    requires va == W32(Rd(c.regs, s.inst.rs1) + s.inst.imm) && y.r[RCX] == Num(va)
    ensures StepDoes(h, s, entry, c, Run(h, SlowLoad(h.t, s.inst.lop, s.inst.rd, s.offset), y))
  {
    hide Do, Run, W32, SlowLoad;
    var (w, res) := h.bus.load(c.world, va, LoadSize(s.inst.lop));
    var z := MemProof.SlowLoadOk(h, s.inst.lop, s.inst.rd, s.offset, entry, va, y);
  }

  lemma LoadStep<W(!new)>(h: Host<W>, s: Rv32.Step, entry: u32, x: X<W>, c: Cpu<W>)
    requires h.Valid() && Lawful(h.bus) && Ready(x, c, entry) && At(c.pc, entry, s) && s.inst.Load?
    ensures StepDoes(h, s, entry, c, Run(h, StepCode(h.t, s), x))
  {
    hide Do, Run, W32, StepDoes, FastLoad, SlowLoad;
    var i := s.inst;
    var n, va := LoadSize(i.lop), W32(Rd(c.regs, i.rs1) + i.imm);
    var node := IfElse(Cc.Ne, FastLoad(h.t, i.lop, i.rd), SlowLoad(h.t, i.lop, i.rd, s.offset));
    var hit := va % n == 0 && h.bus.fastLoad(x.cpu.world, va, n).Some?;
    var rax := if hit then HostPtr(h.bus.fastLoad(x.cpu.world, va, n).value) else Num(0);
    var y := MemProof.AskFastOk(h, i.rs1, i.imm, va, FastLoadShim(n), node, x.cpu, rax, entry, x);
    if hit {
      LoadHit(h, s, entry, y, c, va, rax.p);
    } else {
      LoadBail(h, s, entry, y, c, va);
    }
  }

  lemma StoreHit<W(!new)>(h: Host<W>, s: Rv32.Step, entry: u32, y: X<W>, c: Cpu<W>, va: u32, w: W, p: nat)
    requires h.Valid() && Lawful(h.bus) && Ready(y, c.(world := w), entry) && s.inst.Store?
    requires va == W32(Rd(c.regs, s.inst.rs1) + s.inst.imm) && va % StoreSize(s.inst.sop) == 0
    requires s.inst.sop == Sw ==> c.htif != Some(va)
    requires h.bus.fastStore(c.world, va, StoreSize(s.inst.sop)) == (w, Some(p)) && y.r[RAX] == HostPtr(p)
    requires c.Valid()
    ensures StepDoes(h, s, entry, c, Run(h, FastStore(h.t, s.inst.sop, s.inst.rs2), y))
  {
    hide Do, Run, W32, W64, LowBytes, ExecOne, MustRepoll, Lawful, Host.Valid, Taken, Alu;
    HitMeans(h.bus, s, c, va, w, p);
    var z := MemProof.FastStoreOk(h, s.inst.sop, s.inst.rs2, p, y);
  }

  /** What the interpreter makes of a store whose fast location was given. */
  lemma HitMeans<W(!new)>(b: Bus<W>, s: Rv32.Step, c: Cpu<W>, va: u32, w: W, p: nat)
    requires Lawful(b) && s.inst.Store? && c.Valid()
    requires va == W32(Rd(c.regs, s.inst.rs1) + s.inst.imm) && va % StoreSize(s.inst.sop) == 0
    requires s.inst.sop == Sw ==> c.htif != Some(va)
    requires b.fastStore(c.world, va, StoreSize(s.inst.sop)) == (w, Some(p))
    ensures var n, val := StoreSize(s.inst.sop), Rd(c.regs, s.inst.rs2);
      ExecOne(b, s.inst, s.ilen, c) == Retire(c.(world := b.poke(w, p, n, LowBytes(val, n))), c.regs, W32(c.pc + s.ilen))
    ensures !MustRepoll(b, s.inst, c)
  {
    hide W32, W64, LowBytes;
    var n, val := StoreSize(s.inst.sop), Rd(c.regs, s.inst.rs2);
    assert b.store(c.world, va, n, val) == (b.poke(w, p, n, LowBytes(val, n)), None);
  }

  lemma StoreBail<W>(h: Host<W>, s: Rv32.Step, entry: u32, y: X<W>, c: Cpu<W>, va: u32)
    requires h.Valid() && Ready(y, c, entry) && At(c.pc, entry, s) && s.inst.Store?
    requires va == W32(Rd(c.regs, s.inst.rs1) + s.inst.imm) && y.r[RCX] == Num(va)
    ensures StepDoes(h, s, entry, c, Run(h, SlowStore(h.t, s.inst.sop, s.inst.rs2, s.offset, W32(s.offset + s.ilen)), y))
  {
    hide Do, Run, W32, SlowStore, Alu, Taken, Bits32, Extend, Wr;
    PcOf(entry, s.offset, s.ilen);
    var val := Rd(c.regs, s.inst.rs2);
    var z := MemProof.SlowStoreOk(h, s.inst.sop, s.inst.rs2, s.offset, W32(s.offset + s.ilen), entry, va, y);
    HaltTag(val);
  }

  lemma HaltTag(val: u32)
    ensures W64(TAG_HALT + val / 2) == TAG_HALT + val / 2
  {
  }

  lemma MissKeeps<W(!new)>(b: Bus<W>, w: W, va: u32, n: nat)
    requires Lawful(b)
    ensures Sized(n) && va % n == 0 && b.fastStore(w, va, n).1.None? ==> b.fastStore(w, va, n).0 == w
  {
  }

  lemma StoreStep<W(!new)>(h: Host<W>, s: Rv32.Step, entry: u32, x: X<W>, c: Cpu<W>)
    requires h.Valid() && Lawful(h.bus) && Ready(x, c, entry) && At(c.pc, entry, s) && s.inst.Store?
    ensures StepDoes(h, s, entry, c, Run(h, StepCode(h.t, s), x))
  {
    hide Do, Run, W32, StepDoes, FastStore, SlowStore, VaCode, FastCall, ExecOne, Lawful, Host.Valid;
    var i := s.inst;
    var n, va := StoreSize(i.sop), W32(Rd(c.regs, i.rs1) + i.imm);
    var next := W32(s.offset + s.ilen);
    var node := IfElse(Cc.Ne, FastStore(h.t, i.sop, i.rs2), SlowStore(h.t, i.sop, i.rs2, s.offset, next));
    var ask := va % n == 0 && !(i.sop == Sw && c.htif == Some(va));
    var (w1, p) := h.bus.fastStore(c.world, va, n);
    var w, rax := if ask then w1 else c.world, if ask && p.Some? then HostPtr(p.value) else Num(0);
    var y := MemProof.AskFastOk(h, i.rs1, i.imm, va, FastStoreShim(i.sop), node, x.cpu.(world := w), rax, entry, x);
    if ask && p.Some? {
      StoreHit(h, s, entry, y, c, va, w, p.value);
    } else {
      assert w == c.world by { MissKeeps(h.bus, c.world, va, n); }
      StoreBail(h, s, entry, y, c, va);
    }
  }

  lemma StepOk<W(!new)>(h: Host<W>, s: Rv32.Step, entry: u32, x: X<W>, c: Cpu<W>)
    requires h.Valid() && Lawful(h.bus) && Ready(x, c, entry) && At(c.pc, entry, s)
    requires IsLink(s.inst) || IsTerminal(s.inst)
    ensures StepDoes(h, s, entry, c, Run(h, StepCode(h.t, s), x))
  {
    hide Do, Run, W32, StepDoes, StepCode, At, Ready, Lawful;
    match s.inst {
      case Lui(_, _) => ConstStep(h, s, entry, x, c);
      case Auipc(_, _) => ConstStep(h, s, entry, x, c);
      case Fence => ConstStep(h, s, entry, x, c);
      case OpImm(_, _, _, _) => OpImmStep(h, s, entry, x, c);
      case Op(_, _, _, _) => OpStep(h, s, entry, x, c);
      case Jal(_, _) => JalStep(h, s, entry, x, c);
      case Jalr(_, _, _) => JalrStep(h, s, entry, x, c);
      case Branch(_, _, _, _) => BranchStep(h, s, entry, x, c);
      case Load(_, _, _, _) => LoadStep(h, s, entry, x, c);
      case Store(_, _, _, _) => StoreStep(h, s, entry, x, c);
    }
  }

  /** Running the code of `steps` against interpreting them. */
  ghost predicate StepsDo<W>(h: Host<W>, last: Rv32.Step, entry: u32, r: Out<W>, o: Outcome<W>)
  {
    if o.Done? then
      r.Go? && Ready(r.x, o.c, entry) &&
      (if IsTerminal(last.inst) then r.x.cpu.pc == o.c.pc else o.c.pc == W32(entry + W32(last.offset + last.ilen)))
    else Delivered(r, o, entry)
  }

  /** A link that continues falls through. */
  lemma LinkFalls<W>(h: Host<W>, s: Rv32.Step, entry: u32, c: Cpu<W>)
    requires c.Valid() && IsLink(s.inst) && ExecOne(h.bus, s.inst, s.ilen, c).Next? && At(c.pc, entry, s)
    ensures ExecOne(h.bus, s.inst, s.ilen, c).c.pc == W32(entry + W32(s.offset + s.ilen))
  {
    hide W32, Alu, Extend;
    PcOf(entry, s.offset, s.ilen);
  }

  lemma {:induction false} StepsOk<W(!new)>(h: Host<W>, steps: seq<Rv32.Step>, entry: u32, x: X<W>, c: Cpu<W>)
    requires h.Valid() && Lawful(h.bus) && Ready(x, c, entry)
    requires steps != [] && Contiguous(steps) && At(c.pc, entry, steps[0])
    ensures StepsDo(h, steps[|steps| - 1], entry, Run(h, StepsCode(h.t, steps), x), Interp(h.bus, steps, c))
  {
    hide Do, Run, W32, StepCode, ExecOne, Lawful;
    var s, rest := steps[0], steps[1..];
    StepOk(h, s, entry, x, c);
    RunAppend(h, StepCode(h.t, s), StepsCode(h.t, rest), x);
    var r := Run(h, StepCode(h.t, s), x);
    var e := ExecOne(h.bus, s.inst, s.ilen, c);
    if e.Next? && !MustRepoll(h.bus, s.inst, c) {
      if IsLink(s.inst) { LinkFalls(h, s, entry, c); }
      if rest == [] {
        EmptyRun(h, r.x);
      } else {
        Idem(s, rest[0]);
        StepsOk(h, rest, entry, r.x, e.c);
      }
    }
  }

  lemma EmptyRun<W>(h: Host<W>, x: X<W>)
    requires |x.r| == 16
    ensures Run(h, [], x) == Go(x)
  {
  }

  lemma Idem(s: Rv32.Step, n: Rv32.Step)
    requires n.offset == s.offset + s.ilen
    ensures W32(s.offset + s.ilen) == n.offset
  {
  }

  lemma PrologueOk<W>(h: Host<W>, x: X<W>) returns (y: X<W>)
    requires h.Valid() && Args(x) && x.stack == [] && x.cpu.Valid()
    ensures Run(h, [I(Mem(Load32, R8, RDI, h.t.lay.pc))], x) == Go(y) && Ready(y, x.cpu, x.cpu.pc)
  {
    hide CallShim, DoCall, Arith, Shift32;
    One(h, Mem(Load32, R8, RDI, h.t.lay.pc), x);
    y := Do(h, Mem(Load32, R8, RDI, h.t.lay.pc), x).value;
  }

  lemma EpilogueOk<W>(h: Host<W>, x: X<W>) returns (y: X<W>)
    requires |x.r| == 16 && x.stack == []
    ensures Run(h, Epilogue(), x) == Returned(y) && y == SetNum(x, RAX, 0).(flags := None)
  {
    hide CallShim, DoCall, DoMem, Arith, Shift32;
    One(h, AluRR(XXor, RAX, RAX), x);
    y := SetNum(x, RAX, 0).(flags := None);
    Then(h, [I(AluRR(XXor, RAX, RAX))], [I(Ret)], x, y);
    RetOk(h, y);
  }

  lemma TailOk<W>(h: Host<W>, last: Rv32.Step, entry: u32, x: X<W>, o: Outcome<W>) returns (y: X<W>)
    requires h.Valid() && o.Done? && StepsDo(h, last, entry, Go(x), o)
    ensures Run(h, Tail(h.t, last), x) == Go(y) && Ready(y, o.c, entry) && y.cpu.pc == o.c.pc
  {
    hide Do, Run, W32;
    if IsTerminal(last.inst) {
      EmptyRun(h, x);
      y := x;
    } else {
      y := SetPcOk(h, RAX, W32(last.offset + last.ilen), entry, x);
    }
  }

  /** Compilation preserves meaning: for every chain, entry pc, register file and world, the compiled
      code returns with the registers, pc, retired count, world and packed tag that interpreting the
      steps one by one would give, having retired exactly the prefix the interpreter retires. */
  lemma ChainCorrect<W(!new)>(h: Host<W>, steps: seq<Rv32.Step>, x: X<W>)
    requires h.Valid() && Lawful(h.bus) && ValidChain(steps)
    requires Args(x) && x.stack == [] && x.cpu.Valid()
    ensures Delivered(Run(h, Code(h.t, steps), x), Interp(h.bus, steps, x.cpu), x.cpu.pc)
  {
    hide Do, Run, W32, StepsCode, Interp, Lawful, Tail;
    var entry, last, o := x.cpu.pc, steps[|steps| - 1], Interp(h.bus, steps, x.cpu);
    var p0, p1, p2 := [I(Mem(Load32, R8, RDI, h.t.lay.pc))], StepsCode(h.t, steps), Tail(h.t, last);
    var a := PrologueOk(h, x);
    assert At(entry, entry, steps[0]) by { EntryAt(entry); }
    StepsOk(h, steps, entry, a, x.cpu);
    var r := Run(h, p1, a);
    Then(h, p0, p1, x, a);
    if o.Done? {
      var b := TailOk(h, last, entry, r.x, o);
      var y := EpilogueOk(h, b);
      Then2(h, p0 + p1, p2, Epilogue(), x, r.x, b);
    } else {
      StopsHere(h, p0 + p1, p2, x);
      StopsHere(h, p0 + p1 + p2, Epilogue(), x);
    }
  }

  lemma EntryAt(entry: u32)
    ensures entry == W32(entry + 0)
  {
  }
}
