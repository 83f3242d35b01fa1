/** Each compiled step does what the interpreter does for that instruction. */
module StepProof {
  import opened Words
  import opened Rv32
  import opened X86
  import opened ChainCode
  import opened ChainProof

  lemma LuiOk<W>(h: Host<W>, s: Rv32.Step, x: X<W>) returns (y: X<W>)
    requires h.Valid() && Args(x) && x.cpu.Valid() && s.inst.Lui?
    ensures Run(h, InstCode(h.t, s), x) == Go(y) && Scratch(x, y)
    ensures y.cpu == x.cpu.(regs := Wr(x.cpu.regs, s.inst.rd, s.inst.imm))
  {
    hide CallShim, DoMem, DoCall, Arith, Shift32;
    if s.inst.rd == 0 {
      y := x;
    } else {
      var n := MovImm32(RAX, s.inst.imm);
      One(h, n, x);
      var a := SetNum(x, RAX, s.inst.imm);
      y := StoreRegOk(h, s.inst.rd, RAX, s.inst.imm, a);
      Then(h, [I(n)], StoreReg(h.t, s.inst.rd, RAX), x, a);
    }
  }

  lemma OpImmOk<W>(h: Host<W>, s: Rv32.Step, x: X<W>) returns (y: X<W>)
    requires h.Valid() && Args(x) && x.cpu.Valid() && s.inst.OpImm?
    ensures Run(h, InstCode(h.t, s), x) == Go(y) && Scratch(x, y)
    ensures y.cpu == x.cpu.(regs := Wr(x.cpu.regs, s.inst.rd, Alu(s.inst.op, Rd(x.cpu.regs, s.inst.rs1), s.inst.imm)))
  {
    hide Do, Alu, AluCode;
    var a, i := Rd(x.cpu.regs, s.inst.rs1), s.inst;
    var s0 := LoadRegOk(h, RAX, i.rs1, x);
    var s1 := AluOk(h, i.op, Some(i.imm), a, i.imm, s0);
    y := StoreRegOk(h, i.rd, RAX, Alu(i.op, a, i.imm), s1);
    Then2(h, LoadReg(h.t, RAX, i.rs1), AluCode(i.op, Some(i.imm)), StoreReg(h.t, i.rd, RAX), x, s0, s1);
  }

  /** Both operands loaded: `RAX = rs1`, `RCX = rs2`. */
  lemma OperandsOk<W>(h: Host<W>, rs1: RegIx, rs2: RegIx, x: X<W>) returns (y: X<W>)
    requires h.Valid() && Args(x) && x.cpu.Valid()
    ensures Run(h, LoadReg(h.t, RAX, rs1) + LoadReg(h.t, RCX, rs2), x) == Go(y) && Scratch(x, y)
    ensures y.cpu == x.cpu && y.r[RAX] == Num(Rd(x.cpu.regs, rs1)) && y.r[RCX] == Num(Rd(x.cpu.regs, rs2))
  {
    hide Do;
    var s0 := LoadRegOk(h, RAX, rs1, x);
    y := LoadRegOk(h, RCX, rs2, s0);
    Then(h, LoadReg(h.t, RAX, rs1), LoadReg(h.t, RCX, rs2), x, s0);
  }

  lemma OpOk<W>(h: Host<W>, s: Rv32.Step, x: X<W>) returns (y: X<W>)
    requires h.Valid() && Args(x) && x.cpu.Valid() && s.inst.Op?
    ensures Run(h, InstCode(h.t, s), x) == Go(y) && Scratch(x, y)
    ensures y.cpu == x.cpu.(regs :=
      Wr(x.cpu.regs, s.inst.rd, Alu(s.inst.op, Rd(x.cpu.regs, s.inst.rs1), Rd(x.cpu.regs, s.inst.rs2))))
  {
    hide Do, Alu, AluCode;
    var i := s.inst;
    var a, b := Rd(x.cpu.regs, i.rs1), Rd(x.cpu.regs, i.rs2);
    var s0 := OperandsOk(h, i.rs1, i.rs2, x);
    var s1 := AluOk(h, i.op, None, a, b, s0);
    y := StoreRegOk(h, i.rd, RAX, Alu(i.op, a, b), s1);
    Then2(h, LoadReg(h.t, RAX, i.rs1) + LoadReg(h.t, RCX, i.rs2), AluCode(i.op, None), StoreReg(h.t, i.rd, RAX), x, s0, s1);
  }

  lemma JalOk<W>(h: Host<W>, s: Rv32.Step, entry: u32, x: X<W>) returns (y: X<W>)
    requires h.Valid() && Args(x) && x.r[R8] == Num(entry) && x.cpu.Valid() && s.inst.Jal?
    ensures Run(h, InstCode(h.t, s), x) == Go(y) && Scratch(x, y)
    ensures y.cpu == x.cpu.(pc := W32(entry + W32(s.offset + s.inst.imm)),
                            regs := Wr(x.cpu.regs, s.inst.rd, W32(entry + W32(s.offset + s.ilen))))
  {
    hide Do, Run, W32, Link, SetPc;
    var next, target := W32(s.offset + s.ilen), W32(s.offset + s.inst.imm);
    var s0 := LinkOk(h, s.inst.rd, next, entry, x);
    y := SetPcOk(h, RCX, target, entry, s0);
    Then(h, Link(h.t, s.inst.rd, next), SetPc(h.t, RCX, target), x, s0);
  }

  lemma TargetOk<W>(h: Host<W>, rs1: RegIx, imm: u32, x: X<W>) returns (y: X<W>)
    requires h.Valid() && Args(x) && x.cpu.Valid()
    ensures Run(h, VaCode(h.t, rs1, imm) + [I(AluRI(XAnd, RCX, 0xffff_fffe))], x) == Go(y) && Scratch(x, y)
    ensures y.cpu == x.cpu
    ensures y.r[RCX] == Num(Bits32(BitAnd, W32(Rd(x.cpu.regs, rs1) + imm), 0xffff_fffe))
  {
    hide CallShim, DoMem, DoCall, Shift32, Bits32, W32;
    var s0 := VaOk(h, rs1, imm, x);
    var n := AluRI(XAnd, RCX, 0xffff_fffe);
    var va := W32(Rd(x.cpu.regs, rs1) + imm);
    assert W32(va) == va by { Idem(va); }
    y := SetNum(s0, RCX, Bits32(BitAnd, va, 0xffff_fffe)).(flags := None);
    assert Do(h, n, s0) == Some(y);
    One(h, n, s0);
    Then(h, VaCode(h.t, rs1, imm), [I(n)], x, s0);
  }

  lemma Idem(v: u32)
    ensures W32(v) == v
  {
  }

  /** `rs1` is read before `rd` is linked, so `rd == rs1` is no hazard. */
  lemma JalrOk<W>(h: Host<W>, s: Rv32.Step, entry: u32, x: X<W>) returns (y: X<W>)
    requires h.Valid() && Args(x) && x.r[R8] == Num(entry) && x.cpu.Valid() && s.inst.Jalr?
    ensures Run(h, InstCode(h.t, s), x) == Go(y) && Scratch(x, y)
    ensures y.cpu == x.cpu.(pc := Bits32(BitAnd, W32(Rd(x.cpu.regs, s.inst.rs1) + s.inst.imm), 0xffff_fffe),
                            regs := Wr(x.cpu.regs, s.inst.rd, W32(entry + W32(s.offset + s.ilen))))
  {
    hide Do, Bits32, W32;
    var i, next := s.inst, W32(s.offset + s.ilen);
    var target := Bits32(BitAnd, W32(Rd(x.cpu.regs, i.rs1) + i.imm), 0xffff_fffe);
    var s1 := TargetOk(h, i.rs1, i.imm, x);
    var s2 := LinkOk(h, i.rd, next, entry, s1);
    y := PutPcOk(h, RCX, target, s2);
    var p0 := VaCode(h.t, i.rs1, i.imm) + [I(AluRI(XAnd, RCX, 0xffff_fffe))];
    Then2(h, p0, Link(h.t, i.rd, next), [I(Mem(Store32, RCX, RDI, h.t.lay.pc))], x, s1, s2);
  }

  lemma CMovOk<W>(h: Host<W>, op: BranchOp, a: u32, b: u32, no: u32, yes: u32, x: X<W>) returns (y: X<W>)
    requires |x.r| == 16 && x.flags == Some(CmpFlags(a, b)) && x.r[R9] == Num(no) && x.r[R10] == Num(yes)
    ensures Run(h, [I(CMov(BranchCc(op), R9, R10))], x) == Go(y)
    ensures y == SetNum(x, R9, if Taken(op, a, b) then yes else no)
  {
    hide CallShim, DoMem, DoCall, Arith, Shift32, CmpFlags;
    CmpDecides(a, b);
    assert CmpFlags(a, b).cf == (a < b) by { FlagB(a, b); }
    var n := CMov(BranchCc(op), R9, R10);
    assert Cond(BranchCc(op), CmpFlags(a, b)) == Taken(op, a, b);
    One(h, n, x);
    y := Do(h, n, x).value;
  }

  lemma FlagB(a: u32, b: u32)
    ensures CmpFlags(a, b).cf == (a < b)
  {
  }

  lemma CmpOk<W>(h: Host<W>, a: u32, b: u32, x: X<W>) returns (y: X<W>)
    requires |x.r| == 16 && x.r[RAX] == Num(a) && x.r[RCX] == Num(b)
    ensures Run(h, [I(AluRR(XCmp, RAX, RCX))], x) == Go(y)
    ensures y == x.(flags := Some(CmpFlags(a, b)))
  {
    hide CallShim, DoMem, DoCall, Shift32, CmpFlags;
    One(h, AluRR(XCmp, RAX, RCX), x);
    y := Do(h, AluRR(XCmp, RAX, RCX), x).value;
  }

  /** Operands compared, both candidate targets computed. */
  lemma BranchHeadOk<W>(h: Host<W>, rs1: RegIx, rs2: RegIx, next: u32, target: u32, entry: u32, x: X<W>) returns (y: X<W>)
    requires h.Valid() && Args(x) && x.r[R8] == Num(entry) && x.cpu.Valid()
    ensures Run(h, LoadReg(h.t, RAX, rs1) + LoadReg(h.t, RCX, rs2) + [I(AluRR(XCmp, RAX, RCX))] +
      [I(Mem(Lea32, R9, R8, next))] + [I(Mem(Lea32, R10, R8, target))], x) == Go(y)
    ensures Scratch(x, y) && y.cpu == x.cpu && y.flags == Some(CmpFlags(Rd(x.cpu.regs, rs1), Rd(x.cpu.regs, rs2)))
    ensures y.r[R9] == Num(W32(entry + next)) && y.r[R10] == Num(W32(entry + target))
  {
    hide Do, W32, CmpFlags;
    var s0 := OperandsOk(h, rs1, rs2, x);
    var s1 := CmpOk(h, Rd(x.cpu.regs, rs1), Rd(x.cpu.regs, rs2), s0);
    var s2 := LeaOk(h, R9, next, entry, s1);
    y := LeaOk(h, R10, target, entry, s2);
    var p0 := LoadReg(h.t, RAX, rs1) + LoadReg(h.t, RCX, rs2);
    var p1, p2 := [I(AluRR(XCmp, RAX, RCX))], [I(Mem(Lea32, R9, R8, next))];
    Then2(h, p0, p1, p2, x, s0, s1);
    Then(h, p0 + p1 + p2, [I(Mem(Lea32, R10, R8, target))], x, s2);
  }

  lemma BranchStepOk<W>(h: Host<W>, s: Rv32.Step, entry: u32, x: X<W>) returns (y: X<W>)
    requires h.Valid() && Args(x) && x.r[R8] == Num(entry) && x.cpu.Valid() && s.inst.Branch?
    ensures Run(h, InstCode(h.t, s), x) == Go(y) && Scratch(x, y)
    ensures y.cpu == x.cpu.(pc :=
      if Taken(s.inst.bop, Rd(x.cpu.regs, s.inst.rs1), Rd(x.cpu.regs, s.inst.rs2)) then W32(entry + W32(s.offset + s.inst.imm))
      else W32(entry + W32(s.offset + s.ilen)))
  {
    hide Do, Run, W32, CmpFlags, Taken, LoadReg;
    var i, next, target := s.inst, W32(s.offset + s.ilen), W32(s.offset + s.inst.imm);
    var a, b := Rd(x.cpu.regs, i.rs1), Rd(x.cpu.regs, i.rs2);
    var s3 := BranchHeadOk(h, i.rs1, i.rs2, next, target, entry, x);
    var s4 := CMovOk(h, i.bop, a, b, W32(entry + next), W32(entry + target), s3);
    y := PutPcOk(h, R9, if Taken(i.bop, a, b) then W32(entry + target) else W32(entry + next), s4);
    var p := LoadReg(h.t, RAX, i.rs1) + LoadReg(h.t, RCX, i.rs2) + [I(AluRR(XCmp, RAX, RCX))] +
      [I(Mem(Lea32, R9, R8, next))] + [I(Mem(Lea32, R10, R8, target))];
    Then2(h, p, [I(CMov(BranchCc(i.bop), R9, R10))], [I(Mem(Store32, R9, RDI, h.t.lay.pc))], x, s3, s4);
  }
}
