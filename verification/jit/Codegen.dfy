/** The chain compiler's emission loop (crates/fs-jit/src/chain.rs): every piece is appended to the
    assembler in place, and what has been appended is the structured code of `ChainCode`. */
module Codegen {
  import opened Words
  import opened Rv32
  import opened X86
  import C = ChainCode
  import ChainBytes
  import Flat
  import opened Emit

  method LoadReg(t: Target, a: Asm, dst: Reg, i: RegIx)
    requires a.Valid()
    modifies a
    ensures a.Valid() && a.code == old(a.code) + C.LoadReg(t, dst, i)
  {
    if i == 0 {
      a.AluR32R32(XXor, dst, dst);
    } else {
      a.MemOperand(Load32, dst, RDI, t.lay.RegOff(i));
    }
  }

  method StoreReg(t: Target, a: Asm, i: RegIx, src: Reg)
    requires a.Valid()
    modifies a
    ensures a.Valid() && a.code == old(a.code) + C.StoreReg(t, i, src)
  {
    if i != 0 {
      a.MemOperand(Store32, src, RDI, t.lay.RegOff(i));
    }
  }

  /** The shared right-hand side of every two-operand form: an immediate, or `RCX`. */
  method AluRhs(a: Asm, op: Alu2, imm: Option<u32>)
    requires a.Valid()
    modifies a
    ensures a.Valid() && a.code == old(a.code) + C.AluRhs(op, imm)
  {
    match imm {
      case Some(v) => a.AluR32Imm32(op, RAX, v);
      case None => a.AluR32R32(op, RAX, RCX);
    }
  }

  method EmitAluRegResult(a: Asm, op: AluOp, imm: Option<u32>)
    requires a.Valid()
    modifies a
    ensures a.Valid() && a.code == old(a.code) + C.AluCode(op, imm)
  {
    hide C.AluRhs;
    match C.Bin(op) {
      case Some(op2) =>
        AluRhs(a, op2, imm);
      case None =>
        if op == Slt || op == Sltu {
          AluRhs(a, XCmp, imm);
          a.SetByte(if op == Slt then L else B, R9);
          a.MovzxR32R8(RAX, R9);
        } else {
          match imm {
            case Some(v) => a.ShiftByImm8(C.ShiftOf(op), RAX, v % 32);
            case None => a.ShiftByCl(C.ShiftOf(op), RAX);
          }
        }
    }
  }

  method Bump(a: Asm, off: u32)
    requires a.Valid()
    modifies a
    ensures a.Valid() && a.code == old(a.code) + C.Bump(off)
  {
    a.AddQwordMemImm8(RDI, off, 1);
  }

  method SetPc(t: Target, a: Asm, scratch: Reg, off: u32)
    requires a.Valid()
    modifies a
    ensures a.Valid() && a.code == old(a.code) + C.SetPc(t, scratch, off)
  {
    a.MemOperand(Lea32, scratch, R8, off);
    a.MemOperand(Store32, scratch, RDI, t.lay.pc);
  }

  method Link(t: Target, a: Asm, rd: RegIx, off: u32)
    requires a.Valid()
    modifies a
    ensures a.Valid() && a.code == old(a.code) + C.Link(t, rd, off)
  {
    hide C.StoreReg;
    if rd != 0 {
      a.MemOperand(Lea32, RAX, R8, off);
      StoreReg(t, a, rd, RAX);
    }
  }

  method VaCode(t: Target, a: Asm, rs1: RegIx, imm: u32)
    requires a.Valid()
    modifies a
    ensures a.Valid() && a.code == old(a.code) + C.VaCode(t, rs1, imm)
  {
    hide C.LoadReg;
    LoadReg(t, a, RCX, rs1);
    a.AluR32Imm32(XAdd, RCX, imm);
  }

  method CallCode(t: Target, a: Asm, s: Shim)
    requires a.Valid()
    modifies a
    ensures a.Valid() && a.code == old(a.code) + C.CallCode(t, s)
  {
    a.MovR64Imm64(R11, t.addr(s));
    a.CallR64(R11);
  }

  /** Five pushes: the hart and bus pointers, the entry pc and one more word for alignment. */
  method Save(a: Asm, first: Reg)
    requires a.Valid()
    modifies a
    ensures a.Valid() && a.code == old(a.code) + C.Saves(first)
  {
    a.PushR64(first);
    a.PushR64(RDI);
    a.PushR64(RSI);
    a.PushR64(RDX);
    a.PushR64(R8);
  }

  method Restore(a: Asm, first: Reg)
    requires a.Valid()
    modifies a
    ensures a.Valid() && a.code == old(a.code) + C.Restores(first)
  {
    a.PopR64(R8);
    a.PopR64(RDX);
    a.PopR64(RSI);
    a.PopR64(RDI);
    a.PopR64(first);
  }

  method EmitFastPathCallPreservingVa(t: Target, a: Asm, s: Shim)
    requires a.Valid()
    modifies a
    ensures a.Valid() && a.code == old(a.code) + C.FastCall(t, s)
  {
    hide C.Saves, C.Restores, C.CallCode;
    Save(a, RCX);
    CallCode(t, a, s);
    Restore(a, RCX);
  }

  method EmitSizedLoadFromPtr(a: Asm, op: LoadOp)
    requires a.Valid()
    modifies a
    ensures a.Valid() && a.code == old(a.code) + [I(C.LoadFrom(op, RCX, RAX))]
  {
    match op {
      case Lb => a.MemOperand(Sx8, RCX, RAX, 0);
      case Lbu => a.MemOperand(Zx8, RCX, RAX, 0);
      case Lh => a.MemOperand(Sx16, RCX, RAX, 0);
      case Lhu => a.MemOperand(Zx16, RCX, RAX, 0);
      case Lw => a.MemOperand(Load32, RCX, RAX, 0);
    }
  }

  method EmitSizedStoreToPtr(a: Asm, op: StoreOp)
    requires a.Valid()
    modifies a
    ensures a.Valid() && a.code == old(a.code) + [I(C.StoreTo(op, RAX, RCX))]
  {
    match op {
      case Sb => a.MemOperand(Store8, RCX, RAX, 0);
      case Sh => a.MemOperand(Store16, RCX, RAX, 0);
      case Sw => a.MemOperand(Store32, RCX, RAX, 0);
    }
  }

  /** `emit_skip` around a lone `ret`: leave with the shim's tag when it is a trap. */
  method ReturnOnTrap(a: Asm)
    requires a.Valid()
    modifies a
    ensures a.Valid() && a.code == old(a.code) + [I(TestQ(RAX, RAX))] + [Skip(Ns, [I(Ret)])]
  {
    a.TestR64R64(RAX, RAX);
    var rare := new Asm();
    rare.EmitRet();
    assert rare.code == [I(Ret)];
    a.EmitSkip(Ns, rare);
  }

  method FastLoad(t: Target, op: LoadOp, rd: RegIx) returns (a: Asm)
    ensures fresh(a) && a.Valid() && a.code == C.FastLoad(t, op, rd)
  {
    hide C.Bump, C.LoadFrom, C.StoreReg;
    a := new Asm();
    Bump(a, t.lay.hits);
    EmitSizedLoadFromPtr(a, op);
    Bump(a, t.lay.retired);
    StoreReg(t, a, rd, RCX);
  }

  /** Count the bail, publish the instruction's own pc and open the protected call. */
  method Bail(t: Target, a: Asm, off: u32)
    requires a.Valid()
    modifies a
    ensures a.Valid() && a.code == old(a.code) + C.Bail(t, off)
  {
    hide C.Bump, C.SetPc;
    Bump(a, t.lay.bails);
    SetPc(t, a, RAX, off);
  }

  method SlowLoad(t: Target, op: LoadOp, rd: RegIx, off: u32) returns (a: Asm)
    ensures fresh(a) && a.Valid() && a.code == C.SlowLoad(t, op, rd, off)
  {
    hide C.Bail, C.Saves, C.Restores, C.CallCode, C.Bump, C.StoreReg, Flat.Assemble;
    a := new Asm();
    Bail(t, a, off);
    Save(a, R9);
    CallCode(t, a, LoadShim(op));
    Restore(a, R9);
    ReturnOnTrap(a);
    Bump(a, t.lay.retired);
    StoreReg(t, a, rd, RAX);
  }

  method FastStore(t: Target, op: StoreOp, rs2: RegIx) returns (a: Asm)
    ensures fresh(a) && a.Valid() && a.code == C.FastStore(t, op, rs2)
  {
    hide C.Bump, C.LoadReg, C.StoreTo;
    a := new Asm();
    Bump(a, t.lay.hits);
    LoadReg(t, a, RCX, rs2);
    EmitSizedStoreToPtr(a, op);
    Bump(a, t.lay.retired);
  }

  method StopAfterStore(t: Target, next: u32) returns (a: Asm)
    ensures fresh(a) && a.Valid() && a.code == C.StopAfterStore(t, next)
  {
    hide C.Bump, C.SetPc;
    a := new Asm();
    Bump(a, t.lay.retired);
    SetPc(t, a, RCX, next);
    a.EmitRet();
  }

  method SlowStore(t: Target, op: StoreOp, rs2: RegIx, off: u32, next: u32) returns (a: Asm)
    ensures fresh(a) && a.Valid() && a.code == C.SlowStore(t, op, rs2, off, next)
  {
    hide C.Bail, C.Saves, C.Restores, C.LoadReg, C.CallCode, C.Bump, C.StopAfterStore, Flat.Assemble;
    a := new Asm();
    Bail(t, a, off);
    Save(a, R9);
    LoadReg(t, a, R8, rs2);
    CallCode(t, a, StoreShim(op));
    Restore(a, R9);
    ReturnOnTrap(a);
    var rare := StopAfterStore(t, next);
    a.EmitSkip(E, rare);
    Bump(a, t.lay.retired);
  }

  method EmitLoad(t: Target, a: Asm, s: Step)
    requires a.Valid() && s.inst.Load?
    modifies a
    ensures a.Valid() && a.code == old(a.code) + C.InstCode(t, s)
  {
    hide C.VaCode, C.FastCall, C.FastLoad, C.SlowLoad;
    VaCode(t, a, s.inst.rs1, s.inst.imm);
    EmitFastPathCallPreservingVa(t, a, FastLoadShim(LoadSize(s.inst.lop)));
    a.TestR64R64(RAX, RAX);
    var fast := FastLoad(t, s.inst.lop, s.inst.rd);
    var slow := SlowLoad(t, s.inst.lop, s.inst.rd, s.offset);
    a.EmitIfElse(Cc.Ne, fast, slow);
  }

  method EmitStore(t: Target, a: Asm, s: Step)
    requires a.Valid() && s.inst.Store?
    modifies a
    ensures a.Valid() && a.code == old(a.code) + C.InstCode(t, s)
  {
    hide C.VaCode, C.FastCall, C.FastStore, C.SlowStore, W32;
    VaCode(t, a, s.inst.rs1, s.inst.imm);
    EmitFastPathCallPreservingVa(t, a, FastStoreShim(s.inst.sop));
    a.TestR64R64(RAX, RAX);
    var fast := FastStore(t, s.inst.sop, s.inst.rs2);
    var slow := SlowStore(t, s.inst.sop, s.inst.rs2, s.offset, W32(s.offset + s.ilen));
    a.EmitIfElse(Cc.Ne, fast, slow);
  }

  method Compare(t: Target, a: Asm, rs1: RegIx, rs2: RegIx)
    requires a.Valid()
    modifies a
    ensures a.Valid()
    ensures a.code == old(a.code) + (C.LoadReg(t, RAX, rs1) + C.LoadReg(t, RCX, rs2) + [I(AluRR(XCmp, RAX, RCX))])
  {
    hide C.LoadReg;
    LoadReg(t, a, RAX, rs1);
    LoadReg(t, a, RCX, rs2);
    a.AluR32R32(XCmp, RAX, RCX);
  }

  method EmitBranch(t: Target, a: Asm, s: Step)
    requires a.Valid() && s.inst.Branch?
    modifies a
    ensures a.Valid() && a.code == old(a.code) + C.InstCode(t, s)
  {
    hide C.LoadReg, W32;
    Compare(t, a, s.inst.rs1, s.inst.rs2);
    a.MemOperand(Lea32, R9, R8, W32(s.offset + s.ilen));
    a.MemOperand(Lea32, R10, R8, W32(s.offset + s.inst.imm));
    a.CMovCc(C.BranchCc(s.inst.bop), R9, R10);
    a.MemOperand(Store32, R9, RDI, t.lay.pc);
  }

  method EmitJalr(t: Target, a: Asm, s: Step)
    requires a.Valid() && s.inst.Jalr?
    modifies a
    ensures a.Valid() && a.code == old(a.code) + C.InstCode(t, s)
  {
    hide C.VaCode, C.Link, W32;
    VaCode(t, a, s.inst.rs1, s.inst.imm);
    a.AluR32Imm32(XAnd, RCX, 0xffff_fffe);
    Link(t, a, s.inst.rd, W32(s.offset + s.ilen));
    a.MemOperand(Store32, RCX, RDI, t.lay.pc);
  }

  method EmitAlu(t: Target, a: Asm, s: Step)
    requires a.Valid() && (s.inst.Op? || s.inst.OpImm?)
    modifies a
    ensures a.Valid() && a.code == old(a.code) + C.InstCode(t, s)
  {
    hide C.LoadReg, C.StoreReg, C.AluCode;
    LoadReg(t, a, RAX, s.inst.rs1);
    if s.inst.Op? {
      LoadReg(t, a, RCX, s.inst.rs2);
      EmitAluRegResult(a, s.inst.op, None);
    } else {
      EmitAluRegResult(a, s.inst.op, Some(s.inst.imm));
    }
    StoreReg(t, a, s.inst.rd, RAX);
  }

  method EmitStep(t: Target, a: Asm, s: Step)
    requires a.Valid() && !s.inst.Other?
    modifies a
    ensures a.Valid() && a.code == old(a.code) + C.InstCode(t, s)
  {
    hide C.StoreReg, C.Link, C.SetPc, W32;
    var next := W32(s.offset + s.ilen);
    match s.inst {
      case Lui(rd, imm) =>
        if rd != 0 {
          a.MovR32Imm32(RAX, imm);
          StoreReg(t, a, rd, RAX);
        }
      case Auipc(rd, imm) =>
        Link(t, a, rd, W32(s.offset + imm));
      case OpImm(_, _, _, _) =>
        EmitAlu(t, a, s);
      case Op(_, _, _, _) =>
        EmitAlu(t, a, s);
      case Fence =>
      case Jal(rd, imm) =>
        Link(t, a, rd, next);
        SetPc(t, a, RCX, W32(s.offset + imm));
      case Jalr(_, _, _) =>
        EmitJalr(t, a, s);
      case Branch(_, _, _, _) =>
        EmitBranch(t, a, s);
      case Load(_, _, _, _) =>
        EmitLoad(t, a, s);
      case Store(_, _, _, _) =>
        EmitStore(t, a, s);
    }
  }

  lemma {:induction false} StepsSnoc(t: Target, steps: seq<Step>, k: nat)
    requires k < |steps|
    ensures C.StepsCode(t, steps[..k + 1]) == C.StepsCode(t, steps[..k]) + C.StepCode(t, steps[k])
    decreases k
  {
    hide C.StepCode;
    if k == 0 {
      assert steps[..1][1..] == [] && steps[..0] == [];
      assert C.StepsCode(t, steps[..1]) == C.StepCode(t, steps[0]) + [];
    } else {
      StepsSnoc(t, steps[1..], k - 1);
      assert steps[..k + 1][1..] == steps[1..][..k] && steps[..k][1..] == steps[1..][..k - 1];
    }
  }

  lemma NoSteps(t: Target, steps: seq<Step>)
    requires steps == []
    ensures C.StepsCode(t, steps) == []
  {
  }

  /** The compiler: the emitted bytes are exactly those `ChainBytes.BytesCorrect` is about. */
  method Compile(t: Target, steps: seq<Step>) returns (bytes: seq<u8>)
    requires steps != [] && forall s | s in steps :: !s.inst.Other?
    ensures bytes == ChainBytes.ChainBytes(t, steps)
  {
    hide C.InstCode, C.StepsCode, W32, Flat.Assemble;
    var a := new Asm();
    ghost var head := [I(Mem(Load32, R8, RDI, t.lay.pc))];
    a.MemOperand(Load32, R8, RDI, t.lay.pc);
    assert a.code == head + C.StepsCode(t, steps[..0]) by { NoSteps(t, steps[..0]); }
    for i := 0 to |steps|
      invariant fresh(a) && a.Valid()
      invariant a.code == head + C.StepsCode(t, steps[..i])
    {
      StepsSnoc(t, steps, i);
      EmitStep(t, a, steps[i]);
      if !steps[i].inst.Load? && !steps[i].inst.Store? {
        Bump(a, t.lay.retired);
      }
    }
    assert steps[..|steps|] == steps;
    var last := steps[|steps| - 1];
    if !IsTerminal(last.inst) {
      SetPc(t, a, RAX, W32(last.offset + last.ilen));
    }
    a.AluR32R32(XXor, RAX, RAX);
    a.EmitRet();
    assert a.code == C.Code(t, steps);
    bytes := a.buf;
  }
}
