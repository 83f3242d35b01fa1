/** Machine code: the byte encodings of crates/fs-jit/src/emit.rs, and a decoder for the same subset
    written from the instruction formats of the Intel SDM, volume 2. */
module Encode {
  import opened Words
  import opened X86

  function RexBits(w: bool, r: bool, b: bool): seq<u8>
  {
    if !w && !r && !b then [] else [0x40 + (if w then 8 else 0) + (if r then 4 else 0) + (if b then 1 else 0)]
  }

  function Rex(w: bool, r: Reg, b: Reg): seq<u8> { RexBits(w, r >= 8, b >= 8) }

  function ModRm(m: nat, reg: int, rm: int): u8
    requires m < 4
  {
    m * 64 + (reg % 8) * 8 + rm % 8
  }

  function AluBase(op: Alu2): u8
  {
    match op case XAdd => 0x00 case XOr => 0x08 case XAnd => 0x20 case XSub => 0x28 case XXor => 0x30 case XCmp => 0x38
  }

  function CcCode(cc: Cc): u8
  {
    match cc case E => 4 case Ne => 5 case B => 2 case Ae => 3 case L => 12 case Ge => 13 case Ns => 9
  }

  function ShiftDigit(k: ShiftKind): u8 { match k case Shl => 4 case Shr => 5 case Sar => 7 }

  function MemOpcode(op: MemOp): (s: seq<u8>)
    ensures 1 <= |s| <= 2
  {
    match op
    case Load32 => [0x8b]
    case Store32 => [0x89]
    case Lea32 => [0x8d]
    case Zx8 => [0x0f, 0xb6]
    case Sx8 => [0x0f, 0xbe]
    case Zx16 => [0x0f, 0xb7]
    case Sx16 => [0x0f, 0xbf]
    case Store8 => [0x88]
    case Store16 => [0x89]
  }

  /** What the prefixes must say: 16-bit operand size, 64-bit operand size, and the registers whose
      high bit goes into REX.R and REX.B. */
  datatype Needs = Needs(opsize: bool, w: bool, r: Reg, b: Reg)

  function PrefixNeeds(i: Instr): Needs
  {
    match i
    case MovImm32(d, _) => Needs(false, false, 0, d)
    case MovImm64(d, _) => Needs(false, true, 0, d)
    case Mem(op, reg, base, _) => Needs(op == Store16, false, reg, base)
    case AddQ(base, _, _) => Needs(false, true, 0, base)
    case AluRR(_, d, s) => Needs(false, false, s, d)
    case AluRI(_, d, _) => Needs(false, false, 0, d)
    case ShiftCl(_, d) => Needs(false, false, 0, d)
    case ShiftImm(_, d, _) => Needs(false, false, 0, d)
    case SetCc(_, d) => Needs(false, false, 0, d)
    case CMov(_, d, s) => Needs(false, false, d, s)
    case MovzxR8(d, s) => Needs(false, false, d, s)
    case TestQ(a, b) => Needs(false, true, b, a)
    case Push(r) => Needs(false, false, 0, r)
    case Pop(r) => Needs(false, false, 0, r)
    case CallR(r) => Needs(false, false, 0, r)
    case _ => Needs(false, false, 0, 0)
  }

  function Prefixes(n: Needs): seq<u8> { (if n.opsize then [0x66] else []) + Rex(n.w, n.r, n.b) }

  /** Opcode, ModRM, displacement and immediate. */
  function Body(i: Instr): (s: seq<u8>)
    ensures 0 < |s| <= 9
  {
    match i
    case MovImm32(d, v) => [0xb8 + d % 8] + Le(v, 4)
    case MovImm64(d, v) => [0xb8 + d % 8] + Le(v, 8)
    case Mem(op, reg, base, disp) => MemOpcode(op) + [ModRm(2, reg, base)] + Le(disp, 4)
    case AddQ(base, disp, v) => [0x83, ModRm(2, 0, base)] + Le(disp, 4) + [v]
    case AluRR(op, d, s) => [AluBase(op) + 1, ModRm(3, s, d)]
    case AluRI(op, d, v) => [0x81, ModRm(3, AluBase(op) / 8, d)] + Le(v, 4)
    case ShiftCl(k, d) => [0xd3, ModRm(3, ShiftDigit(k), d)]
    case ShiftImm(k, d, v) => [0xc1, ModRm(3, ShiftDigit(k), d), v]
    case SetCc(cc, d) => [0x0f, 0x90 + CcCode(cc), ModRm(3, 0, d)]
    case CMov(cc, d, s) => [0x0f, 0x40 + CcCode(cc), ModRm(3, d, s)]
    case MovzxR8(d, s) => [0x0f, 0xb6, ModRm(3, d, s)]
    case TestQ(a, b) => [0x85, ModRm(3, b, a)]
    case Push(r) => [0x50 + r % 8]
    case Pop(r) => [0x58 + r % 8]
    case CallR(r) => [0xff, ModRm(3, 2, r)]
    case Jcc(cc, rel) => [0x0f, 0x80 + CcCode(cc)] + Le(rel, 4)
    case Jmp(rel) => [0xe9] + Le(rel, 4)
    case Ret => [0xc3]
  }

  function Enc(i: Instr): (s: seq<u8>)
    ensures 0 < |s| <= 11
  {
    Prefixes(PrefixNeeds(i)) + Body(i)
  }

  /** Without a REX prefix, byte registers 4..7 mean AH, CH, DH, BH. */
  predicate ByteReg(r: Reg) { r < 4 || r >= 8 }

  /** The forms this emitter may be asked for: no base that would need a SIB byte, no byte register
      that would need a bare REX. */
  predicate Encodable(i: Instr)
  {
    match i
    case Mem(op, reg, base, _) => base % 8 != 4 && (op == Store8 ==> ByteReg(reg))
    case AddQ(base, _, _) => base % 8 != 4
    case SetCc(_, d) => ByteReg(d)
    case MovzxR8(_, s) => ByteReg(s)
    case _ => true
  }

  // ----- the decoder -----

  function CcOf(code: nat): Option<Cc>
  {
    if code == 4 then Some(E) else if code == 5 then Some(Ne) else if code == 2 then Some(B)
    else if code == 3 then Some(Ae) else if code == 12 then Some(L) else if code == 13 then Some(Ge)
    else if code == 9 then Some(Ns) else None
  }

  function AluOf(base: int): Option<Alu2>
  {
    if base == 0 then Some(XAdd) else if base == 0x08 then Some(XOr) else if base == 0x20 then Some(XAnd)
    else if base == 0x28 then Some(XSub) else if base == 0x30 then Some(XXor) else if base == 0x38 then Some(XCmp)
    else None
  }

  function ShiftKindOf(digit: int): Option<ShiftKind>
  {
    if digit == 4 then Some(Shl) else if digit == 5 then Some(Shr) else if digit == 7 then Some(Sar) else None
  }

  function U32At(s: seq<u8>, k: nat): u32
    requires k + 4 <= |s|
  {
    W32(FromLe(s[k..k + 4]))
  }

  function U64At(s: seq<u8>, k: nat): u64
    requires k + 8 <= |s|
  {
    W64(FromLe(s[k..k + 8]))
  }

  /** The prefixes of one instruction: operand-size override, then the REX bits W, R and B. */
  datatype Prefix = Prefix(opsize: bool, w: bool, r: nat, b: nat)

  function ParsePrefix(s: seq<u8>): (Prefix, nat)
  {
    var o := |s| > 0 && s[0] == 0x66;
    var k := if o then 1 else 0;
    if |s| > k && 0x40 <= s[k] < 0x50 then
      (Prefix(o, s[k] % 16 >= 8, s[k] / 4 % 2, s[k] % 2), k + 1)
    else (Prefix(o, false, 0, 0), k)
  }

  function RegField(p: Prefix, m: u8): Reg { (p.r % 2) * 8 + m / 8 % 8 }

  function RmField(p: Prefix, m: u8): Reg { (p.b % 2) * 8 + m % 8 }

  /** `[base + disp32]` operand at `s[k]`; an rm of 4 would announce a SIB byte. */
  function DecodeMem(op: MemOp, p: Prefix, s: seq<u8>, k: nat): Option<(Instr, nat)>
  {
    if |s| < k + 5 || s[k] / 64 != 2 || s[k] % 8 == 4 then None
    else Some((Mem(op, RegField(p, s[k]), RmField(p, s[k]), U32At(s, k + 1)), k + 5))
  }

  /** Two-byte opcodes, `s[0] == 0x0f`. */
  function Decode0F(p: Prefix, s: seq<u8>): Option<(Instr, nat)>
  {
    if |s| < 3 then None
    else
      var o: int := s[1];
      var m := s[2];
      var cc := CcOf(o % 16);
      if 0x80 <= o < 0x90 then
        if |s| < 6 || cc.None? then None else Some((Jcc(cc.value, U32At(s, 2)), 6))
      else if 0x90 <= o < 0xa0 then
        if m / 64 != 3 || cc.None? then None else Some((SetCc(cc.value, RmField(p, m)), 3))
      else if 0x40 <= o < 0x50 then
        if m / 64 != 3 || cc.None? then None else Some((CMov(cc.value, RegField(p, m), RmField(p, m)), 3))
      else if o == 0xb6 && m / 64 == 3 then Some((MovzxR8(RegField(p, m), RmField(p, m)), 3))
      else if o == 0xb6 then DecodeMem(Zx8, p, s, 2)
      else if o == 0xbe then DecodeMem(Sx8, p, s, 2)
      else if o == 0xb7 then DecodeMem(Zx16, p, s, 2)
      else if o == 0xbf then DecodeMem(Sx16, p, s, 2)
      else None
  }

  /** Opcodes followed by a register-direct ModRM byte. */
  function DecodeRm(p: Prefix, s: seq<u8>): Option<(Instr, nat)>
  {
    if |s| < 2 || s[1] / 64 != 3 then None
    else
      var o: int := s[0];
      var m := s[1];
      var digit := m / 8 % 8;
      if o == 0x85 then (if p.w then Some((TestQ(RmField(p, m), RegField(p, m)), 2)) else None)
      else if o == 0xff then (if digit == 2 then Some((CallR(RmField(p, m)), 2)) else None)
      else if o == 0xd3 then
        (if ShiftKindOf(digit).Some? then Some((ShiftCl(ShiftKindOf(digit).value, RmField(p, m)), 2)) else None)
      else if o == 0xc1 then
        (if ShiftKindOf(digit).Some? && |s| >= 3 then
           Some((ShiftImm(ShiftKindOf(digit).value, RmField(p, m), s[2]), 3))
         else None)
      else if o == 0x81 then
        (if AluOf(digit * 8).Some? && |s| >= 6 then Some((AluRI(AluOf(digit * 8).value, RmField(p, m), U32At(s, 2)), 6))
         else None)
      else if AluOf(o - 1).Some? then Some((AluRR(AluOf(o - 1).value, RmField(p, m), RegField(p, m)), 2))
      else None
  }

  function DecodeBody(p: Prefix, s: seq<u8>): Option<(Instr, nat)>
  {
    if s == [] then None
    else
      var o: int := s[0];
      if o == 0xc3 then Some((Ret, 1))
      else if o == 0xe9 then (if |s| >= 5 then Some((Jmp(U32At(s, 1)), 5)) else None)
      else if 0x50 <= o < 0x58 then Some((Push((p.b % 2) * 8 + o - 0x50), 1))
      else if 0x58 <= o < 0x60 then Some((Pop((p.b % 2) * 8 + o - 0x58), 1))
      else if 0xb8 <= o < 0xc0 then
        (if p.w then (if |s| >= 9 then Some((MovImm64((p.b % 2) * 8 + o - 0xb8, U64At(s, 1)), 9)) else None)
         else if |s| >= 5 then Some((MovImm32((p.b % 2) * 8 + o - 0xb8, U32At(s, 1)), 5)) else None)
      else if o == 0x8b then DecodeMem(Load32, p, s, 1)
      else if o == 0x89 then DecodeMem(if p.opsize then Store16 else Store32, p, s, 1)
      else if o == 0x8d then DecodeMem(Lea32, p, s, 1)
      else if o == 0x88 then DecodeMem(Store8, p, s, 1)
      else if o == 0x83 then
        (if p.w && |s| >= 7 && s[1] / 64 == 2 && s[1] / 8 % 8 == 0 && s[1] % 8 != 4 then
           Some((AddQ(RmField(p, s[1]), U32At(s, 2), s[6]), 7))
         else None)
      else if o == 0x0f then Decode0F(p, s)
      else DecodeRm(p, s)
  }

  function Decode(s: seq<u8>): Option<(Instr, nat)>
  {
    var (p, k) := ParsePrefix(s);
    if k > |s| then None
    else match DecodeBody(p, s[k..])
         case None => None
         case Some((i, n)) => Some((i, k + n))
  }
}
