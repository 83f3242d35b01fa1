/** The RV32I subset a chain may contain, and the interpreter's meaning of it. */
module Rv32 {
  import opened Words

  type RegIx = x: int | 0 <= x < 32

  datatype AluOp = Add | Sub | Sll | Slt | Sltu | Xor | Srl | Sra | Or | And
  datatype BranchOp = Eq | Ne | Lt | Ge | Ltu | Geu
  datatype LoadOp = Lb | Lh | Lw | Lbu | Lhu
  datatype StoreOp = Sb | Sh | Sw

  /** `imm` holds a sign-extended immediate as its 32-bit pattern; `Other` stands for every kind
      that a chain never contains. */
  datatype Inst =
    | Lui(rd: RegIx, imm: u32)
    | Auipc(rd: RegIx, imm: u32)
    | Jal(rd: RegIx, imm: u32)
    | Jalr(rd: RegIx, rs1: RegIx, imm: u32)
    | Branch(bop: BranchOp, rs1: RegIx, rs2: RegIx, imm: u32)
    | Load(lop: LoadOp, rd: RegIx, rs1: RegIx, imm: u32)
    | Store(sop: StoreOp, rs1: RegIx, rs2: RegIx, imm: u32)
    | OpImm(op: AluOp, rd: RegIx, rs1: RegIx, imm: u32)
    | Op(op: AluOp, rd: RegIx, rs1: RegIx, rs2: RegIx)
    | Fence
    | Other(kind: nat)

  datatype Trap = Trap(cause: nat, tval: u32)

  /** Everything the core reaches through `cpu` and `bus` that is neither a register nor a counter:
      RAM, devices, CSRs, the TLB. `load` and `store` are fallible and may change the world even
      when they fail. `fastLoad`/`fastStore` answer with a host location or decline. */
  datatype Bus<!W> = Bus(
    load: (W, u32, nat) -> (W, Result<u32, Trap>),
    store: (W, u32, nat, u32) -> (W, Option<Trap>),
    fastLoad: (W, u32, nat) -> Option<nat>,
    fastStore: (W, u32, nat) -> (W, Option<nat>),
    peek: (W, nat, nat) -> u32,
    poke: (W, nat, nat, u32) -> W,
    mayAssert: (u32, nat) -> bool)

  datatype Cpu<!W> = Cpu(
    regs: seq<u32>, pc: u32, retired: u64, htif: Option<u32>, pending: Option<Trap>, world: W,
    hits: u64, bails: u64)
  {
    ghost predicate Valid() { |regs| == 32 }
  }

  datatype Exec<!W> = Next(c: Cpu<W>) | Halt(c: Cpu<W>, code: u32) | Fault(c: Cpu<W>, trap: Trap)

  predicate Sized(n: nat) { n == 1 || n == 2 || n == 4 }

  /** What a fast location promises: it stands for the checked access it replaces, and declining
      changes nothing. */
  ghost predicate Lawful<W(!new)>(b: Bus<W>)
  {
    && (forall w: W, va: u32, n: nat | Sized(n) && va % n == 0 && b.fastLoad(w, va, n).Some? ::
          b.load(w, va, n) == (w, Ok(LowBytes(b.peek(w, b.fastLoad(w, va, n).value, n), n))))
    && (forall w: W, va: u32, n: nat | Sized(n) && va % n == 0 && b.fastStore(w, va, n).1.None? ::
          b.fastStore(w, va, n).0 == w)
    && (forall w: W, va: u32, n: nat, v: u32 | Sized(n) && va % n == 0 && b.fastStore(w, va, n).1.Some? ::
          !b.mayAssert(va, n) &&
          b.store(w, va, n, v) ==
            (b.poke(b.fastStore(w, va, n).0, b.fastStore(w, va, n).1.value, n, LowBytes(v, n)), None))
  }

  function LowBytes(v: u32, n: nat): u32
  {
    if n == 1 then v % 0x100 else if n == 2 then v % 0x1_0000 else v
  }

  function LoadSize(op: LoadOp): nat
  {
    match op case Lb => 1 case Lbu => 1 case Lh => 2 case Lhu => 2 case Lw => 4
  }

  function StoreSize(op: StoreOp): nat
  {
    match op case Sb => 1 case Sh => 2 case Sw => 4
  }

  function SignExtend(v: u32, n: nat): u32
  {
    if n == 1 then (if v % 0x100 < 0x80 then v % 0x100 else v % 0x100 + 0xffff_ff00)
    else if n == 2 then (if v % 0x1_0000 < 0x8000 then v % 0x1_0000 else v % 0x1_0000 + 0xffff_0000)
    else v
  }

  /** Sign extension applies to the two signed sub-word loads only. */
  function Extend(op: LoadOp, v: u32): u32
  {
    match op case Lb => SignExtend(v, 1) case Lh => SignExtend(v, 2) case _ => v
  }

  function Alu(op: AluOp, a: u32, b: u32): u32
  {
    match op
    case Add => W32(a + b)
    case Sub => W32(a - b)
    case Sll => Shl32(a, b % 32)
    case Slt => if Signed(a) < Signed(b) then 1 else 0
    case Sltu => if a < b then 1 else 0
    case Xor => Bits32(BitXor, a, b)
    case Srl => Shr32(a, b % 32)
    case Sra => Sar32(a, b % 32)
    case Or => Bits32(BitOr, a, b)
    case And => Bits32(BitAnd, a, b)
  }

  predicate Taken(op: BranchOp, a: u32, b: u32)
  {
    match op
    case Eq => a == b
    case Ne => a != b
    case Lt => Signed(a) < Signed(b)
    case Ge => Signed(a) >= Signed(b)
    case Ltu => a < b
    case Geu => a >= b
  }

  function Rd(regs: seq<u32>, i: RegIx): u32
    requires |regs| == 32
  {
    if i == 0 then 0 else regs[i]
  }

  function Wr(regs: seq<u32>, i: RegIx, v: u32): (r: seq<u32>)
    requires |regs| == 32
    ensures |r| == 32
  {
    if i == 0 then regs else regs[i := v]
  }

  /** Commit: advance to `next` and retire. */
  function Retire<W>(c: Cpu<W>, regs: seq<u32>, next: u32): Exec<W>
  {
    Next(c.(regs := regs, pc := next, retired := W64(c.retired + 1)))
  }

  /** One decoded instruction of length `ilen` at `c.pc`; a fault commits nothing but the world. */
  function ExecOne<W>(b: Bus<W>, inst: Inst, ilen: u32, c: Cpu<W>): (r: Exec<W>)
    requires c.Valid() && !inst.Other?
    ensures r.c.Valid()
  {
    var next := W32(c.pc + ilen);
    match inst
    case Lui(rd, imm) => Retire(c, Wr(c.regs, rd, imm), next)
    case Auipc(rd, imm) => Retire(c, Wr(c.regs, rd, W32(c.pc + imm)), next)
    case Jal(rd, imm) => Retire(c, Wr(c.regs, rd, next), W32(c.pc + imm))
    case Jalr(rd, rs1, imm) =>
      var target := Bits32(BitAnd, W32(Rd(c.regs, rs1) + imm), 0xffff_fffe);
      Retire(c, Wr(c.regs, rd, next), target)
    case Branch(op, rs1, rs2, imm) =>
      Retire(c, c.regs, if Taken(op, Rd(c.regs, rs1), Rd(c.regs, rs2)) then W32(c.pc + imm) else next)
    case Load(op, rd, rs1, imm) =>
      var (w, res) := b.load(c.world, W32(Rd(c.regs, rs1) + imm), LoadSize(op));
      (match res
       case Err(t) => Fault(c.(world := w), t)
       case Ok(v) => Retire(c.(world := w), Wr(c.regs, rd, Extend(op, v)), next))
    case Store(op, rs1, rs2, imm) =>
      var va, val := W32(Rd(c.regs, rs1) + imm), Rd(c.regs, rs2);
      var (w, res) := b.store(c.world, va, StoreSize(op), val);
      if res.Some? then Fault(c.(world := w), res.value)
      else
        var done := Retire(c.(world := w), c.regs, next);
        if op == Sw && c.htif == Some(va) && val % 2 == 1 then Halt(done.c, val / 2) else done
    case OpImm(op, rd, rs1, imm) => Retire(c, Wr(c.regs, rd, Alu(op, Rd(c.regs, rs1), imm)), next)
    case Op(op, rd, rs1, rs2) =>
      Retire(c, Wr(c.regs, rd, Alu(op, Rd(c.regs, rs1), Rd(c.regs, rs2))), next)
    case Fence => Retire(c, c.regs, next)
  }

  /** One decoded chain step and its byte offset from the chain's entry. */
  datatype Step = Step(inst: Inst, ilen: u32, offset: u32)

  predicate IsLink(i: Inst)
  {
    i.Lui? || i.Auipc? || i.OpImm? || i.Op? || i.Fence? || i.Load? || i.Store?
  }

  predicate IsTerminal(i: Inst) { i.Branch? || i.Jal? || i.Jalr? }

  const MAX_CHAIN_LEN: nat := 64

  /** Contiguous steps, links only, except that the last may be a terminal. */
  ghost predicate Contiguous(steps: seq<Step>)
  {
    && (forall k | 0 <= k < |steps| - 1 ::
          IsLink(steps[k].inst) && steps[k + 1].offset == steps[k].offset + steps[k].ilen)
    && (forall k | 0 <= k < |steps| :: IsLink(steps[k].inst) || IsTerminal(steps[k].inst))
  }

  /** The shape every decoded chain has. */
  ghost predicate ValidChain(steps: seq<Step>)
  {
    1 <= |steps| <= MAX_CHAIN_LEN && steps[0].offset == 0 && Contiguous(steps)
  }

  /** How a chain ends: ran out, trapped, halted, or stopped right after a store that the driver
      must look at. */
  datatype Outcome<!W> =
    | Done(c: Cpu<W>)
    | Trapped(c: Cpu<W>, trap: Trap)
    | Halted(c: Cpu<W>, code: u32)
    | Repoll(c: Cpu<W>)

  predicate MustRepoll<W>(b: Bus<W>, i: Inst, c: Cpu<W>)
    requires c.Valid()
  {
    i.Store? && b.mayAssert(W32(Rd(c.regs, i.rs1) + i.imm), StoreSize(i.sop))
  }

  /** The reference: the interpreter, one step at a time. */
  function Interp<W>(b: Bus<W>, steps: seq<Step>, c: Cpu<W>): Outcome<W>
    requires c.Valid()
    requires forall s | s in steps :: !s.inst.Other?
  {
    if steps == [] then Done(c)
    else
      match ExecOne(b, steps[0].inst, steps[0].ilen, c)
      case Fault(c', t) => Trapped(c', t)
      case Halt(c', code) => Halted(c', code)
      case Next(c') =>
        if MustRepoll(b, steps[0].inst, c) then Repoll(c') else Interp(b, steps[1..], c')
  }
}
