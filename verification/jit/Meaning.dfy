/** What the interpreter's instructions mean, in arithmetic (crates/fs-riscv/src/lib.rs): shifts as products
    and quotients, bitwise operations bit by bit, narrow loads by range and remainder. */
module Meaning {
  import opened Words
  import opened Rv32

  /** `r` is what the operation gives on `a` and `b`. */
  ghost predicate AluLaw(op: AluOp, a: u32, b: u32, r: u32)
  {
    var p := Pow2(b % 32);
    match op
    case Add => (r - a - b) % TWO32 == 0
    case Sub => (r - a + b) % TWO32 == 0
    case Sll => r == a * p % TWO32
    case Srl => p * r <= a < p * (r + 1)
    case Sra => p * Signed(r) <= Signed(a) < p * (Signed(r) + 1)
    case Slt => r == if Signed(a) < Signed(b) then 1 else 0
    case Sltu => r == if a < b then 1 else 0
    case And => forall i | 0 <= i < 32 :: BitAt(r, i) == BitAt(a, i) * BitAt(b, i)
    case Or => forall i | 0 <= i < 32 :: BitAt(r, i) == BitAt(a, i) + BitAt(b, i) - BitAt(a, i) * BitAt(b, i)
    case Xor => forall i | 0 <= i < 32 :: BitAt(r, i) == (BitAt(a, i) + BitAt(b, i)) % 2
  }

  /** The law has exactly one solution, and it is the one the interpreter computes. */
  lemma AluIff(op: AluOp, a: u32, b: u32, r: u32)
    ensures AluLaw(op, a, b, r) <==> r == Alu(op, a, b)
  {
    hide BitAt, Pow2, Bits32, Shl32, Shr32, Sar32;
    AluObeys(op, a, b);
    if AluLaw(op, a, b, r) {
      AluOnly(op, a, b, r, Alu(op, a, b));
    }
  }

  lemma AluObeys(op: AluOp, a: u32, b: u32)
    ensures AluLaw(op, a, b, Alu(op, a, b))
  {
    hide BitAt, Pow2, Bits32, Shl32, Shr32, Sar32;
    match op {
      case Sll => ShlMeans(a, b % 32);
      case Srl => ShrMeans(a, b % 32);
                  Quotient(a, Pow2(b % 32));
      case Sra => SarMeans(a, b % 32);
      case And => forall i | 0 <= i < 32 { BitsMean(BitAnd, a, b, i); }
      case Or => forall i | 0 <= i < 32 { BitsMean(BitOr, a, b, i); }
      case Xor => forall i | 0 <= i < 32 { BitsMean(BitXor, a, b, i); }
      case _ => Sums(a, b);
    }
  }

  lemma Sums(a: u32, b: u32)
    ensures (W32(a + b) - a - b) % TWO32 == 0 && (W32(a - b) - a + b) % TWO32 == 0
  {
  }

  lemma Quotient(x: nat, p: nat)
    requires p > 0
    ensures p * (x / p) <= x < p * (x / p + 1)
  {
    assert x == p * (x / p) + x % p;
    assert p * (x / p + 1) == p * (x / p) + p;
  }

  lemma AluOnly(op: AluOp, a: u32, b: u32, r: u32, s: u32)
    requires AluLaw(op, a, b, r) && AluLaw(op, a, b, s)
    ensures r == s
  {
    hide BitAt, Pow2;
    match op {
      case Add => Congruent(r, s, a + b);
      case Sub => Congruent(r, s, a - b);
      case Srl => OneFloor(Pow2(b % 32), a, r, s);
      case Sra => OneFloor(Pow2(b % 32), Signed(a), Signed(r), Signed(s));
                  SignedMeans(r);
                  SignedMeans(s);
      case And => SameWord(r, s);
      case Or => SameWord(r, s);
      case Xor => SameWord(r, s);
      case _ =>
    }
  }

  lemma SameWord(r: u32, s: u32)
    requires forall i | 0 <= i < 32 :: BitAt(r, i) == BitAt(s, i)
    ensures r == s
  {
    WordIsBits(r, s);
  }

  lemma Congruent(r: u32, s: u32, x: int)
    requires (r - x) % TWO32 == 0 && (s - x) % TWO32 == 0
    ensures r == s
  {
  }

  lemma OneFloor(p: nat, x: int, q: int, q': int)
    requires p > 0 && p * q <= x < p * (q + 1) && p * q' <= x < p * (q' + 1)
    ensures q == q'
  {
    assert p * (q - q') == p * q - p * q';
    assert p * (q + 1) == p * q + p && p * (q' + 1) == p * q' + p;
    Multiples(p, q - q');
  }

  /** Every other register, the world and the position stand as they must. */
  ghost predicate OnlyRd<W>(c: Cpu<W>, d: Cpu<W>, rd: RegIx)
    requires c.Valid() && d.Valid()
  {
    d.retired == (c.retired + 1) % TWO64 && forall k | 0 <= k < 32 && (k != rd || k == 0) :: d.regs[k] == c.regs[k]
  }

  lemma OpMeans<W>(b: Bus<W>, i: Inst, ilen: u32, c: Cpu<W>)
    requires c.Valid() && (i.Op? || i.OpImm?)
    ensures var x := ExecOne(b, i, ilen, c);
      && x.Next? && x.c.world == c.world && x.c.pc == (c.pc + ilen) % TWO32 && OnlyRd(c, x.c, i.rd)
      && (i.rd != 0 ==> AluLaw(i.op, Rd(c.regs, i.rs1), if i.Op? then Rd(c.regs, i.rs2) else i.imm, x.c.regs[i.rd]))
  {
    hide Alu, AluLaw;
    AluIff(i.op, Rd(c.regs, i.rs1), if i.Op? then Rd(c.regs, i.rs2) else i.imm,
           Alu(i.op, Rd(c.regs, i.rs1), if i.Op? then Rd(c.regs, i.rs2) else i.imm));
  }

  /** A constant goes to the register as it is, or added to the pc; a fence does nothing. */
  lemma ConstantMeans<W>(b: Bus<W>, i: Inst, ilen: u32, c: Cpu<W>)
    requires c.Valid() && (i.Lui? || i.Auipc? || i.Fence?)
    ensures var x := ExecOne(b, i, ilen, c);
      && x.Next? && x.c.world == c.world && x.c.pc == (c.pc + ilen) % TWO32 && OnlyRd(c, x.c, if i.Fence? then 0 else i.rd)
      && (!i.Fence? && i.rd != 0 ==> x.c.regs[i.rd] == if i.Lui? then i.imm else (c.pc + i.imm) % TWO32)
  {
  }

  /** `r` is the loaded value as the register takes it: narrow signed loads by range and remainder. */
  predicate LoadLaw(op: LoadOp, v: u32, r: u32)
  {
    match op
    case Lb => -0x80 <= Signed(r) < 0x80 && (r - v) % 0x100 == 0
    case Lh => -0x8000 <= Signed(r) < 0x8000 && (r - v) % 0x1_0000 == 0
    case _ => r == v
  }

  function Width(op: LoadOp): nat { match op case Lw => 4 case Lh => 2 case Lhu => 2 case _ => 1 }

  /** A load asks for its width at the wrapped address; a fault changes nothing but the world. */
  lemma LoadMeans<W>(b: Bus<W>, i: Inst, ilen: u32, c: Cpu<W>)
    requires c.Valid() && i.Load?
    ensures var x, (w, res) := ExecOne(b, i, ilen, c), b.load(c.world, (Rd(c.regs, i.rs1) + i.imm) % TWO32, Width(i.lop));
      match res
      case Err(t) => x == Fault(c.(world := w), t)
      case Ok(v) => x.Next? && x.c.world == w && x.c.pc == (c.pc + ilen) % TWO32 && OnlyRd(c, x.c, i.rd) &&
                    (i.rd != 0 ==> LoadLaw(i.lop, v, x.c.regs[i.rd]))
  {
    var (w, res) := b.load(c.world, (Rd(c.regs, i.rs1) + i.imm) % TWO32, Width(i.lop));
    if res.Ok? {
      ExtendLaw(i.lop, res.value);
      hide Extend, LoadLaw;
    }
  }

  lemma ExtendLaw(op: LoadOp, v: u32)
    ensures LoadLaw(op, v, Extend(op, v))
  {
    hide SignExtend, Signed;
    ByteLaw(v);
    HalfLaw(v);
  }

  lemma ByteLaw(v: u32)
    ensures var r := SignExtend(v, 1); -0x80 <= Signed(r) < 0x80 && (r - v) % 0x100 == 0
  {
    var q := v / 0x100;
    RemIs(SignExtend(v, 1) - v, 0x100, if v % 0x100 < 0x80 then -q else 0xff_ffff - q, 0);
  }

  lemma HalfLaw(v: u32)
    ensures var r := SignExtend(v, 2); -0x8000 <= Signed(r) < 0x8000 && (r - v) % 0x1_0000 == 0
  {
    var q := v / 0x1_0000;
    RemIs(SignExtend(v, 2) - v, 0x1_0000, if v % 0x1_0000 < 0x8000 then -q else 0xffff - q, 0);
  }

  /** A store hands over the register and its width; it stops the machine iff it is a word store to the
      exit register of an odd value, whose upper bits are the code. */
  lemma StoreMeans<W>(b: Bus<W>, i: Inst, ilen: u32, c: Cpu<W>)
    requires c.Valid() && i.Store?
    ensures var va, val := (Rd(c.regs, i.rs1) + i.imm) % TWO32, Rd(c.regs, i.rs2);
      var x, (w, e) := ExecOne(b, i, ilen, c), b.store(c.world, va, match i.sop case Sb => 1 case Sh => 2 case Sw => 4, val);
      if e.Some? then x == Fault(c.(world := w), e.value)
      else
        x.c == c.(world := w, pc := (c.pc + ilen) % TWO32, retired := (c.retired + 1) % TWO64) &&
        (x.Halt? <==> i.sop == Sw && c.htif == Some(va) && val % 2 == 1) && (x.Halt? ==> 2 * x.code + 1 == val)
  {
  }

  /** A branch goes to its target iff the registers compare, and changes only the pc. */
  lemma BranchMeans<W>(b: Bus<W>, i: Inst, ilen: u32, c: Cpu<W>)
    requires c.Valid() && i.Branch?
    ensures var x, y, z := ExecOne(b, i, ilen, c), Rd(c.regs, i.rs1), Rd(c.regs, i.rs2);
      var goes := match i.bop
        case Eq => y == z case Ne => y != z case Ltu => y < z case Geu => z <= y
        case Lt => Signed(y) < Signed(z) case Ge => Signed(z) <= Signed(y);
      x == Next(c.(pc := (c.pc + if goes then i.imm else ilen) % TWO32, retired := (c.retired + 1) % TWO64))
  {
  }

  /** A jump links the address after it; a register jump clears the lowest bit of the sum. */
  lemma JumpMeans<W>(b: Bus<W>, i: Inst, ilen: u32, c: Cpu<W>)
    requires c.Valid() && (i.Jal? || i.Jalr?)
    ensures var x, to := ExecOne(b, i, ilen, c), if i.Jal? then c.pc + i.imm else Rd(c.regs, i.rs1) + i.imm;
      && x.Next? && x.c.world == c.world && OnlyRd(c, x.c, i.rd)
      && (i.rd != 0 ==> x.c.regs[i.rd] == (c.pc + ilen) % TWO32)
      && x.c.pc == to % TWO32 - if i.Jalr? then to % 2 else 0
  {
    hide Bits32;
    if i.Jalr? {
      EvenPart(W32(Rd(c.regs, i.rs1) + i.imm));
      EvenWrap(Rd(c.regs, i.rs1) + i.imm);
    }
  }

  lemma EvenWrap(x: int)
    ensures x % TWO32 % 2 == x % 2
  {
  }

  /** Clearing the lowest bit. */
  lemma EvenPart(x: u32)
    ensures Bits32(BitAnd, x, 0xffff_fffe) == x - x % 2
  {
    hide Bits32, BitAt;
    forall i | 0 <= i < 32 ensures BitAt(Bits32(BitAnd, x, 0xffff_fffe), i) == BitAt(x - x % 2, i) {
      BitsMean(BitAnd, x, 0xffff_fffe, i);
      BitDown(0xffff_fffe, i);
      BitDown(x, i);
      BitDown(x - x % 2, i);
      if i > 0 {
        Pow2At31();
        AllOnes(31, i - 1);
      }
    }
    WordIsBits(Bits32(BitAnd, x, 0xffff_fffe), x - x % 2);
  }

  lemma Pow2At31()
    ensures Pow2(31) == 0x8000_0000
  {
    Pow2At32();
  }

  lemma {:induction false} AllOnes(n: nat, i: nat)
    requires i < n
    ensures BitAt(Pow2(n) - 1, i) == 1
    decreases n
  {
    hide BitAt;
    BitDown(Pow2(n) - 1, i);
    if i > 0 {
      assert (Pow2(n) - 1) / 2 == Pow2(n - 1) - 1;
      AllOnes(n - 1, i - 1);
    }
  }
}
