/** The x86-64 subset the chain compiler emits, as an abstract machine. Pointers are symbolic, so a
    program that confused one with a number, read undefined flags, called with the wrong arguments
    or a misaligned stack, or returned with an unbalanced stack would be stuck. */
module X86 {
  import opened Words
  import opened Rv32

  type Reg = x: int | 0 <= x < 16
  const RAX: Reg := 0
  const RCX: Reg := 1
  const RDX: Reg := 2
  const RSI: Reg := 6
  const RDI: Reg := 7
  const R8: Reg := 8
  const R9: Reg := 9
  const R10: Reg := 10
  const R11: Reg := 11

  datatype Alu2 = XAdd | XOr | XAnd | XSub | XXor | XCmp
  datatype Cc = E | Ne | L | Ge | B | Ae | Ns
  datatype ShiftKind = Shl | Shr | Sar

  /** Register-memory forms, all with a 32-bit displacement off one base register. */
  datatype MemOp = Load32 | Store32 | Lea32 | Zx8 | Sx8 | Zx16 | Sx16 | Store8 | Store16

  datatype Instr =
    | MovImm32(dst: Reg, imm: u32)
    | MovImm64(dst: Reg, imm64: u64)
    | Mem(mop: MemOp, reg: Reg, base: Reg, disp: u32)
    | AddQ(base: Reg, disp: u32, imm8: u8)
    | AluRR(aop: Alu2, dst: Reg, src: Reg)
    | AluRI(aop: Alu2, dst: Reg, imm: u32)
    | ShiftCl(kind: ShiftKind, dst: Reg)
    | ShiftImm(kind: ShiftKind, dst: Reg, imm8: u8)
    | SetCc(cc: Cc, dst: Reg)
    | CMov(cc: Cc, dst: Reg, src: Reg)
    | MovzxR8(dst: Reg, src: Reg)
    | TestQ(a: Reg, b: Reg)
    | Push(r: Reg)
    | Pop(r: Reg)
    | CallR(r: Reg)
    | Jcc(cc: Cc, rel: u32)
    | Jmp(rel: u32)
    | Ret

  /** A register's content. `Byte` is a register of which only the low byte is known. */
  datatype Val = Num(n: u64) | CpuPtr | BusData | BusVtable | HostPtr(p: nat) | Byte(b: u8)

  /** `None` when the last flag-writing instruction left the consulted flags unspecified here. */
  datatype Flags = Flags(zf: bool, sf: bool, cf: bool, of: bool)

  datatype X<!W> = X(r: seq<Val>, stack: seq<Val>, flags: Option<Flags>, cpu: Cpu<W>, calls: nat)

  /** Byte offsets of the fields of the `Cpu` record that emitted code touches. */
  datatype Layout = Layout(regs: u32, pc: u32, retired: u32, hits: u32, bails: u32)
  {
    ghost predicate Valid() {
      && regs + 128 < TWO32
      && FieldAt(pc) == PcF && FieldAt(retired) == RetiredF && FieldAt(hits) == HitsF && FieldAt(bails) == BailsF
      && forall i: RegIx :: FieldAt(RegOff(i)) == RegF(i)
    }

    function RegOff(i: RegIx): u32 { W32(regs + 4 * i) }

    function FieldAt(disp: u32): Field {
      if disp == pc then PcF
      else if disp == retired then RetiredF
      else if disp == hits then HitsF
      else if disp == bails then BailsF
      else if regs <= disp < regs + 128 && (disp - regs) % 4 == 0 then RegF((disp - regs) / 4)
      else NoField
    }
  }

  datatype Field = PcF | RetiredF | HitsF | BailsF | RegF(i: RegIx) | NoField

  /** The access sizes that have a fast-load shim of their own. */
  type Width = n: nat | n == 1 || n == 2 || n == 4 witness 1

  /** The fourteen functions that native code calls out to. */
  datatype Shim = LoadShim(lop: LoadOp) | StoreShim(sop: StoreOp) | FastLoadShim(len: Width) | FastStoreShim(fop: StoreOp)

  const TAG_TRAP: u64 := 0x8000_0000_0000_0000
  const TAG_HALT: u64 := 0x4000_0000_0000_0000
  const TAG_REPOLL: u64 := 0x2000_0000_0000_0000

  /** The surroundings of a run: the bus, the record layout, the shims' addresses, and what a call
      leaves in the registers it may clobber. */
  datatype Host<!W> = Host(bus: Bus<W>, t: Target, at: u64 -> Option<Shim>, junk: (nat, nat) -> Val)
  {
    ghost predicate Valid() {
      t.lay.Valid() && forall s: Shim :: at(t.addr(s)) == Some(s)
    }
  }

  /** What the compiler knows of its surroundings: record offsets and shim addresses. */
  datatype Target = Target(lay: Layout, addr: Shim -> u64)

  /** Caller-saved under the SysV ABI, other than RAX. */
  predicate Clobbered(r: int) { r == RCX || r == RDX || r == RSI || r == RDI || 8 <= r <= 11 }

  function Cond(cc: Cc, f: Flags): bool
  {
    match cc
    case E => f.zf
    case Ne => !f.zf
    case L => f.sf != f.of
    case Ge => f.sf == f.of
    case B => f.cf
    case Ae => !f.cf
    case Ns => !f.sf
  }

  /** Flags of the 32-bit subtraction `a - b`. */
  function CmpFlags(a: u32, b: u32): Flags
  {
    var d := W32(a - b);
    var sd := Signed(a) - Signed(b);
    Flags(d == 0, d >= 0x8000_0000, a < b, !(-0x8000_0000 <= sd < 0x8000_0000))
  }

  function SetNum<W>(x: X<W>, r: Reg, v: u64): X<W>
    requires |x.r| == 16
  {
    x.(r := x.r[r := Num(v)])
  }

  function Alu32(op: Alu2, a: u32, b: u32): u32
  {
    match op
    case XAdd => W32(a + b)
    case XSub => W32(a - b)
    case XOr => Bits32(BitOr, a, b)
    case XAnd => Bits32(BitAnd, a, b)
    case XXor => Bits32(BitXor, a, b)
    case XCmp => a
  }

  function Arith<W>(op: Alu2, x: X<W>, dst: Reg, a: u32, b: u32): X<W>
    requires |x.r| == 16
  {
    if op == XCmp then x.(flags := Some(CmpFlags(a, b)))
    else SetNum(x, dst, Alu32(op, a, b)).(flags := None)
  }

  function Shift32(k: ShiftKind, a: u32, count: nat): u32
  {
    var s := count % 32;
    match k
    case Shl => Shl32(a, s)
    case Shr => Shr32(a, s)
    case Sar => Sar32(a, s)
  }

  function ReadCpu<W>(l: Layout, c: Cpu<W>, disp: u32): Option<u32>
  {
    match l.FieldAt(disp)
    case PcF => Some(c.pc)
    case RegF(i) => if i < |c.regs| then Some(c.regs[i]) else None
    case _ => None
  }

  function WriteCpu<W>(l: Layout, c: Cpu<W>, disp: u32, v: u32): Option<Cpu<W>>
  {
    match l.FieldAt(disp)
    case PcF => Some(c.(pc := v))
    case RegF(i) => if i < |c.regs| then Some(c.(regs := c.regs[i := v])) else None
    case _ => None
  }

  function AddCpu<W>(l: Layout, c: Cpu<W>, disp: u32, v: nat): Option<Cpu<W>>
  {
    match l.FieldAt(disp)
    case RetiredF => Some(c.(retired := W64(c.retired + v)))
    case HitsF => Some(c.(hits := W64(c.hits + v)))
    case BailsF => Some(c.(bails := W64(c.bails + v)))
    case _ => None
  }

  function MemWidth(op: MemOp): nat
  {
    match op
    case Load32 => 4 case Store32 => 4 case Lea32 => 0
    case Zx8 => 1 case Sx8 => 1 case Store8 => 1
    case Zx16 => 2 case Sx16 => 2 case Store16 => 2
  }

  function DoMem<W>(h: Host<W>, op: MemOp, reg: Reg, base: Reg, disp: u32, x: X<W>): Option<X<W>>
    requires |x.r| == 16
  {
    match x.r[base]
    case Num(a) => if op == Lea32 then Some(SetNum(x, reg, W32(a + Signed(disp)))) else None
    case CpuPtr =>
      if op == Load32 then
        var v := ReadCpu(h.t.lay, x.cpu, disp);
        if v.Some? then Some(SetNum(x, reg, v.value)) else None
      else if op == Store32 && x.r[reg].Num? then
        var c := WriteCpu(h.t.lay, x.cpu, disp, W32(x.r[reg].n));
        if c.Some? then Some(x.(cpu := c.value)) else None
      else None
    case HostPtr(p) =>
      var n := MemWidth(op);
      if disp != 0 || n == 0 then None
      else if op.Store32? || op.Store16? || op.Store8? then
        if !x.r[reg].Num? then None
        else Some(x.(cpu := x.cpu.(world := h.bus.poke(x.cpu.world, p, n, LowBytes(W32(x.r[reg].n), n)))))
      else
        var v := LowBytes(h.bus.peek(x.cpu.world, p, n), n);
        Some(SetNum(x, reg, if op.Sx8? || op.Sx16? then SignExtend(v, n) else v))
    case _ => None
  }

  /** What a shim does to the hart, and its packed return value (crates/fs-jit/src/sys.rs). */
  function CallShim<W>(b: Bus<W>, s: Shim, c: Cpu<W>, va: u32, val: Option<u32>): Option<(Cpu<W>, Val)>
  {
    match s
    case LoadShim(op) =>
      var (w, res) := b.load(c.world, va, LoadSize(op));
      (match res
       case Ok(v) => Some((c.(world := w), Num(Extend(op, v))))
       case Err(t) => Some((c.(world := w, pending := Some(t)), Num(TAG_TRAP))))
    case StoreShim(op) =>
      if val.None? then None
      else
        var (w, res) := b.store(c.world, va, StoreSize(op), val.value);
        if res.Some? then Some((c.(world := w, pending := res), Num(TAG_TRAP)))
        else if op == Sw && c.htif == Some(va) && val.value % 2 == 1 then
          Some((c.(world := w), Num(TAG_HALT + val.value / 2)))
        else Some((c.(world := w), Num(if b.mayAssert(va, StoreSize(op)) then TAG_REPOLL else 0)))
    case FastLoadShim(n) =>
      if !Sized(n) || va % n != 0 then Some((c, Num(0)))
      else
        var p := b.fastLoad(c.world, va, n);
        Some((c, if p.Some? then HostPtr(p.value) else Num(0)))
    case FastStoreShim(op) =>
      var n := StoreSize(op);
      if va % n != 0 || (op == Sw && c.htif == Some(va)) then Some((c, Num(0)))
      else
        var (w, p) := b.fastStore(c.world, va, n);
        Some((c.(world := w), if p.Some? then HostPtr(p.value) else Num(0)))
  }

  /** An indirect call: arguments in place, stack 16-byte aligned (an odd number of words pushed
      since entry), every caller-saved register and the flags lost. */
  function DoCall<W>(h: Host<W>, r: Reg, x: X<W>): Option<X<W>>
    requires |x.r| == 16
  {
    if !x.r[r].Num? || h.at(x.r[r].n).None? || |x.stack| % 2 == 0 then None
    else if x.r[RDI] != CpuPtr || x.r[RSI] != BusData || x.r[RDX] != BusVtable || !x.r[RCX].Num? then None
    else
      var val := if x.r[R8].Num? then Some(W32(x.r[R8].n)) else None;
      match CallShim(h.bus, h.at(x.r[r].n).value, x.cpu, W32(x.r[RCX].n), val)
      case None => None
      case Some((c, rax)) =>
        var regs := seq(16, i requires 0 <= i < 16 =>
          if i == RAX then rax else if Clobbered(i) then h.junk(x.calls, i) else x.r[i]);
        Some(X(regs, x.stack, None, c, x.calls + 1))
  }

  /** One instruction other than a jump or `ret`; `None` when stuck. */
  function Do<W>(h: Host<W>, i: Instr, x: X<W>): (o: Option<X<W>>)
    requires |x.r| == 16
    ensures o.Some? ==> |o.value.r| == 16
  {
    match i
    case MovImm32(d, v) => Some(SetNum(x, d, v))
    case MovImm64(d, v) => Some(SetNum(x, d, v))
    case Mem(op, reg, base, disp) => DoMem(h, op, reg, base, disp, x)
    case AddQ(base, disp, v) =>
      if x.r[base] != CpuPtr || v >= 0x80 then None
      else
        var c := AddCpu(h.t.lay, x.cpu, disp, v);
        if c.Some? then Some(x.(cpu := c.value, flags := None)) else None
    case AluRR(op, d, s) =>
      if op == XXor && d == s then Some(SetNum(x, d, 0).(flags := None))
      else if x.r[d].Num? && x.r[s].Num? then Some(Arith(op, x, d, W32(x.r[d].n), W32(x.r[s].n)))
      else None
    case AluRI(op, d, v) =>
      if x.r[d].Num? then Some(Arith(op, x, d, W32(x.r[d].n), v)) else None
    case ShiftCl(k, d) =>
      if x.r[d].Num? && x.r[RCX].Num? then
        Some(SetNum(x, d, Shift32(k, W32(x.r[d].n), x.r[RCX].n % 256)).(flags := None))
      else None
    case ShiftImm(k, d, v) =>
      if x.r[d].Num? then Some(SetNum(x, d, Shift32(k, W32(x.r[d].n), v)).(flags := None)) else None
    case SetCc(cc, d) =>
      if x.flags.Some? then Some(x.(r := x.r[d := Byte(if Cond(cc, x.flags.value) then 1 else 0)])) else None
    case CMov(cc, d, s) =>
      if x.flags.Some? && x.r[d].Num? && x.r[s].Num? then
        Some(SetNum(x, d, W32(x.r[if Cond(cc, x.flags.value) then s else d].n)))
      else None
    case MovzxR8(d, s) =>
      (match x.r[s]
       case Byte(b) => Some(SetNum(x, d, b))
       case Num(n) => Some(SetNum(x, d, n % 256))
       case _ => None)
    case TestQ(a, b) =>
      if a != b then None
      else (match x.r[a]
            case Num(n) => Some(x.(flags := Some(Flags(n == 0, n >= TAG_TRAP, false, false))))
            case Byte(_) => None
            case _ => Some(x.(flags := Some(Flags(false, false, false, false)))))
    case Push(r) => Some(x.(stack := x.stack + [x.r[r]]))
    case Pop(r) =>
      if |x.stack| == 0 then None
      else Some(x.(r := x.r[r := x.stack[|x.stack| - 1]], stack := x.stack[..|x.stack| - 1]))
    case CallR(r) => DoCall(h, r, x)
    case Jcc(_, _) => None
    case Jmp(_) => None
    case Ret => None
  }

  /** Structured code: what `emit_skip` and `emit_if_else` build from straight-line pieces. */
  datatype Node = I(i: Instr) | Skip(cc: Cc, inner: seq<Node>) | IfElse(cc: Cc, thn: seq<Node>, els: seq<Node>)

  datatype Out<!W> = Go(x: X<W>) | Returned(x: X<W>) | Stuck

  function RunNode<W>(h: Host<W>, node: Node, x: X<W>): (o: Out<W>)
    requires |x.r| == 16
    ensures !o.Stuck? ==> |o.x.r| == 16
    decreases node
  {
    match node
    case I(i) =>
      if i.Ret? then (if x.stack == [] then Returned(x) else Stuck)
      else (match Do(h, i, x) case None => Stuck case Some(x') => Go(x'))
    case Skip(cc, inner) =>
      if x.flags.None? then Stuck else if Cond(cc, x.flags.value) then Go(x) else Run(h, inner, x)
    case IfElse(cc, thn, els) =>
      if x.flags.None? then Stuck else if Cond(cc, x.flags.value) then Run(h, thn, x) else Run(h, els, x)
  }

  function Run<W>(h: Host<W>, code: seq<Node>, x: X<W>): (o: Out<W>)
    requires |x.r| == 16
    ensures !o.Stuck? ==> |o.x.r| == 16
    decreases code
  {
    if code == [] then Go(x)
    else
      var first := RunNode(h, code[0], x);
      if first.Go? then Run(h, code[1..], first.x) else first
  }

  lemma {:induction false} RunAppend<W>(h: Host<W>, a: seq<Node>, b: seq<Node>, x: X<W>)
    requires |x.r| == 16
    ensures Run(h, a + b, x) == (var o := Run(h, a, x); if o.Go? then Run(h, b, o.x) else o)
    decreases |a|
  {
    if a == [] {
      assert a + b == b;
    } else {
      assert (a + b)[0] == a[0] && (a + b)[1..] == a[1..] + b;
      var one := RunNode(h, a[0], x);
      if one.Go? {
        RunAppend(h, a[1..], b, one.x);
      }
    }
  }
}
