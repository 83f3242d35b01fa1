/** The structured code the chain compiler builds for each step (crates/fs-jit/src/chain.rs). */
module ChainCode {
  import opened Words
  import opened Rv32
  import opened X86

  function Bin(op: AluOp): Option<Alu2>
  {
    match op
    case Add => Some(XAdd)
    case Sub => Some(XSub)
    case Xor => Some(XXor)
    case Or => Some(XOr)
    case And => Some(XAnd)
    case _ => None
  }

  function BranchCc(op: BranchOp): Cc
  {
    match op case Eq => E case Ne => Cc.Ne case Lt => L case Ge => Cc.Ge case Ltu => B case Geu => Ae
  }

  function LoadReg(t: Target, dst: Reg, i: RegIx): seq<Node>
  {
    if i == 0 then [I(AluRR(XXor, dst, dst))] else [I(Mem(Load32, dst, RDI, t.lay.RegOff(i)))]
  }

  function StoreReg(t: Target, i: RegIx, src: Reg): seq<Node>
  {
    if i == 0 then [] else [I(Mem(Store32, src, RDI, t.lay.RegOff(i)))]
  }

  function AluRhs(op: Alu2, imm: Option<u32>): seq<Node>
  {
    [I(if imm.Some? then AluRI(op, RAX, imm.value) else AluRR(op, RAX, RCX))]
  }

  function ShiftOf(op: AluOp): ShiftKind { if op == Sll then Shl else if op == Srl then Shr else Sar }

  /** `RAX = op(RAX, rhs)`, the rhs an immediate or `RCX`. */
  function AluCode(op: AluOp, imm: Option<u32>): seq<Node>
  {
    if Bin(op).Some? then AluRhs(Bin(op).value, imm)
    else if op == Slt || op == Sltu then
      AluRhs(XCmp, imm) + [I(SetCc(if op == Slt then L else B, R9))] + [I(MovzxR8(RAX, R9))]
    else if imm.Some? then [I(ShiftImm(ShiftOf(op), RAX, imm.value % 32))]
    else [I(ShiftCl(ShiftOf(op), RAX))]
  }

  function Bump(off: u32): seq<Node> { [I(AddQ(RDI, off, 1))] }

  /** `pc = entry + off`, through `scratch`. */
  function SetPc(t: Target, scratch: Reg, off: u32): seq<Node>
  {
    [I(Mem(Lea32, scratch, R8, off))] + [I(Mem(Store32, scratch, RDI, t.lay.pc))]
  }

  function Link(t: Target, rd: RegIx, off: u32): seq<Node>
  {
    if rd == 0 then [] else [I(Mem(Lea32, RAX, R8, off))] + StoreReg(t, rd, RAX)
  }

  /** `va = rs1 + imm` in `RCX`. */
  function VaCode(t: Target, rs1: RegIx, imm: u32): seq<Node>
  {
    LoadReg(t, RCX, rs1) + [I(AluRI(XAdd, RCX, imm))]
  }

  function CallCode(t: Target, s: Shim): seq<Node>
  {
    [I(MovImm64(R11, t.addr(s)))] + [I(CallR(R11))]
  }

  function Saves(first: Reg): seq<Node>
  {
    [I(Push(first))] + [I(Push(RDI))] + [I(Push(RSI))] + [I(Push(RDX))] + [I(Push(R8))]
  }

  function Restores(first: Reg): seq<Node>
  {
    [I(Pop(R8))] + [I(Pop(RDX))] + [I(Pop(RSI))] + [I(Pop(RDI))] + [I(Pop(first))]
  }

  /** `mid` between the pushes and the matching pops: five words, so the call inside is aligned. */
  function Protect(first: Reg, mid: seq<Node>): seq<Node> { Saves(first) + mid + Restores(first) }

  /** Count the bail and publish this instruction's own pc, the epc of a possible trap. */
  function Bail(t: Target, off: u32): seq<Node> { Bump(t.lay.bails) + SetPc(t, RAX, off) }

  function LoadFrom(op: LoadOp, dst: Reg, ptr: Reg): Instr
  {
    match op
    case Lb => Mem(Sx8, dst, ptr, 0)
    case Lbu => Mem(Zx8, dst, ptr, 0)
    case Lh => Mem(Sx16, dst, ptr, 0)
    case Lhu => Mem(Zx16, dst, ptr, 0)
    case Lw => Mem(Load32, dst, ptr, 0)
  }

  function StoreTo(op: StoreOp, ptr: Reg, src: Reg): Instr
  {
    match op
    case Sb => Mem(Store8, src, ptr, 0)
    case Sh => Mem(Store16, src, ptr, 0)
    case Sw => Mem(Store32, src, ptr, 0)
  }

  function FastLoad(t: Target, op: LoadOp, rd: RegIx): seq<Node>
  {
    Bump(t.lay.hits) + [I(LoadFrom(op, RCX, RAX))] + Bump(t.lay.retired) + StoreReg(t, rd, RCX)
  }

  function SlowLoad(t: Target, op: LoadOp, rd: RegIx, off: u32): seq<Node>
  {
    Bail(t, off) + Protect(R9, CallCode(t, LoadShim(op))) + [I(TestQ(RAX, RAX))] + [Skip(Ns, [I(Ret)])] + Bump(t.lay.retired) + StoreReg(t, rd, RAX)
  }

  function FastStore(t: Target, op: StoreOp, rs2: RegIx): seq<Node>
  {
    Bump(t.lay.hits) + LoadReg(t, RCX, rs2) + [I(StoreTo(op, RAX, RCX))] + Bump(t.lay.retired)
  }

  function StopAfterStore(t: Target, next: u32): seq<Node>
  {
    Bump(t.lay.retired) + SetPc(t, RCX, next) + [I(Ret)]
  }

  function SlowStore(t: Target, op: StoreOp, rs2: RegIx, off: u32, next: u32): seq<Node>
  {
    Bail(t, off) + Protect(R9, LoadReg(t, R8, rs2) + CallCode(t, StoreShim(op))) + [I(TestQ(RAX, RAX))] +
    [Skip(Ns, [I(Ret)])] + [Skip(E, StopAfterStore(t, next))] + Bump(t.lay.retired)
  }

  function FastCall(t: Target, s: Shim): seq<Node>
  {
    Protect(RCX, CallCode(t, s))
  }

  function InstCode(t: Target, s: Step): seq<Node>
  {
    var next := W32(s.offset + s.ilen);
    match s.inst
    case Lui(rd, imm) => if rd == 0 then [] else [I(MovImm32(RAX, imm))] + StoreReg(t, rd, RAX)
    case Auipc(rd, imm) => Link(t, rd, W32(s.offset + imm))
    case OpImm(op, rd, rs1, imm) => LoadReg(t, RAX, rs1) + AluCode(op, Some(imm)) + StoreReg(t, rd, RAX)
    case Op(op, rd, rs1, rs2) =>
      LoadReg(t, RAX, rs1) + LoadReg(t, RCX, rs2) + AluCode(op, None) + StoreReg(t, rd, RAX)
    case Fence => []
    case Jal(rd, imm) => Link(t, rd, next) + SetPc(t, RCX, W32(s.offset + imm))
    case Jalr(rd, rs1, imm) =>
      VaCode(t, rs1, imm) + [I(AluRI(XAnd, RCX, 0xffff_fffe))] + Link(t, rd, next) +
      [I(Mem(Store32, RCX, RDI, t.lay.pc))]
    case Branch(op, rs1, rs2, imm) =>
      LoadReg(t, RAX, rs1) + LoadReg(t, RCX, rs2) + [I(AluRR(XCmp, RAX, RCX))] +
      [I(Mem(Lea32, R9, R8, next))] + [I(Mem(Lea32, R10, R8, W32(s.offset + imm)))] +
      [I(CMov(BranchCc(op), R9, R10))] + [I(Mem(Store32, R9, RDI, t.lay.pc))]
    case Load(op, rd, rs1, imm) =>
      VaCode(t, rs1, imm) + FastCall(t, FastLoadShim(LoadSize(op))) + [I(TestQ(RAX, RAX))] +
      [IfElse(Cc.Ne, FastLoad(t, op, rd), SlowLoad(t, op, rd, s.offset))]
    case Store(op, rs1, rs2, imm) =>
      VaCode(t, rs1, imm) + FastCall(t, FastStoreShim(op)) + [I(TestQ(RAX, RAX))] +
      [IfElse(Cc.Ne, FastStore(t, op, rs2), SlowStore(t, op, rs2, s.offset, next))]
    case Other(_) => []
  }

  /** Loads and stores bump the retired counter themselves, on the paths that retire. */
  function StepCode(t: Target, s: Step): seq<Node>
  {
    if s.inst.Load? || s.inst.Store? then InstCode(t, s) else InstCode(t, s) + Bump(t.lay.retired)
  }

  function StepsCode(t: Target, steps: seq<Step>): seq<Node>
  {
    if steps == [] then [] else StepCode(t, steps[0]) + StepsCode(t, steps[1..])
  }

  function Tail(t: Target, last: Step): seq<Node>
  {
    if IsTerminal(last.inst) then [] else SetPc(t, RAX, W32(last.offset + last.ilen))
  }

  function Epilogue(): seq<Node> { [I(AluRR(XXor, RAX, RAX))] + [I(Ret)] }

  function Code(t: Target, steps: seq<Step>): seq<Node>
    requires steps != []
  {
    [I(Mem(Load32, R8, RDI, t.lay.pc))] + StepsCode(t, steps) + Tail(t, steps[|steps| - 1]) + Epilogue()
  }
}
