/** Decoding what the emitter wrote gives back exactly what it was asked to write. */
module EncodeProof {
  import opened Words
  import opened X86
  import opened Encode

  lemma ModRmFields(m: nat, reg: int, rm: int)
    requires m < 4
    ensures ModRm(m, reg, rm) / 64 == m && ModRm(m, reg, rm) / 8 % 8 == reg % 8 && ModRm(m, reg, rm) % 8 == rm % 8
  {
    var a, b := reg % 8, rm % 8;
    assert ModRm(m, reg, rm) == 8 * (8 * m + a) + b;
    assert ModRm(m, reg, rm) == 64 * m + (8 * a + b);
  }

  /** A ModRM byte read under the prefixes it was written for. */
  lemma ModRmOk(n: Needs, m: nat, reg: Reg, rm: Reg)
    requires m < 4
    ensures var b := ModRm(m, reg, rm);
      b / 64 == m && b / 8 % 8 == reg % 8 && b % 8 == rm % 8 &&
      (n.r == reg ==> RegField(PrefixOf(n), b) == reg) && (n.b == rm ==> RmField(PrefixOf(n), b) == rm)
  {
    ModRmFields(m, reg, rm);
  }

  function PrefixOf(n: Needs): Prefix { Prefix(n.opsize, n.w, n.r / 8, n.b / 8) }

  /** What the prefix parser sees in front of an `s` that is no prefix itself. */
  lemma PrefixOk(n: Needs, s: seq<u8>)
    requires s != [] && s[0] != 0x66 && !(0x40 <= s[0] < 0x50)
    ensures ParsePrefix(Prefixes(n) + s) == (PrefixOf(n), |Prefixes(n)|)
    ensures (Prefixes(n) + s)[|Prefixes(n)|..] == s
  {
  }

  lemma Imm32(v: u32, pre: seq<u8>, post: seq<u8>)
    ensures |pre + Le(v, 4) + post| >= |pre| + 4 && U32At(pre + Le(v, 4) + post, |pre|) == v
  {
    LeWidths();
    LeRoundTrip(v, 4);
    assert (pre + Le(v, 4) + post)[|pre|..|pre| + 4] == Le(v, 4);
  }

  lemma Imm64(v: u64, pre: seq<u8>, post: seq<u8>)
    ensures |pre + Le(v, 8) + post| >= |pre| + 8 && U64At(pre + Le(v, 8) + post, |pre|) == v
  {
    LeWidths();
    LeRoundTrip(v, 8);
    assert (pre + Le(v, 8) + post)[|pre|..|pre| + 8] == Le(v, 8);
  }

  /** The body of `i` decodes to `i`, under the prefixes `i` needs. */
  ghost predicate BodyDecodes(i: Instr, rest: seq<u8>)
  {
    DecodeBody(PrefixOf(PrefixNeeds(i)), Body(i) + rest) == Some((i, |Body(i)|))
  }

  lemma BodyMov(i: Instr, rest: seq<u8>)
    requires i.MovImm32? || i.MovImm64?
    ensures BodyDecodes(i, rest)
  {
    if i.MovImm32? { Imm32(i.imm, [0xb8 + i.dst % 8], rest); } else { Imm64(i.imm64, [0xb8 + i.dst % 8], rest); }
  }

  lemma BodyAluRI(i: Instr, rest: seq<u8>)
    requires i.AluRI?
    ensures BodyDecodes(i, rest)
  {
    hide ModRm, RegField, RmField;
    var m := ModRm(3, AluBase(i.aop) / 8, i.dst);
    Imm32(i.imm, [0x81, m], rest);
    ModRmOk(PrefixNeeds(i), 3, AluBase(i.aop) / 8, i.dst);
  }

  lemma BodyJump(i: Instr, rest: seq<u8>)
    requires i.Jcc? || i.Jmp?
    ensures BodyDecodes(i, rest)
  {
    hide ModRm, RegField, RmField;
    if i.Jcc? { Imm32(i.rel, [0x0f, 0x80 + CcCode(i.cc)], rest); } else { Imm32(i.rel, [0xe9], rest); }
  }

  lemma BodyAddQ(i: Instr, rest: seq<u8>)
    requires i.AddQ? && Encodable(i)
    ensures BodyDecodes(i, rest)
  {
    hide ModRm, RegField, RmField;
    var m := ModRm(2, 0, i.base);
    Imm32(i.disp, [0x83, m], [i.imm8] + rest);
    ModRmOk(PrefixNeeds(i), 2, 0, i.base);
    assert Body(i) + rest == [0x83, m] + Le(i.disp, 4) + ([i.imm8] + rest);
  }

  lemma BodyMem(i: Instr, rest: seq<u8>)
    requires i.Mem? && Encodable(i)
    ensures BodyDecodes(i, rest)
  {
    hide ModRm, RegField, RmField;
    var m := ModRm(2, i.reg, i.base);
    ModRmOk(PrefixNeeds(i), 2, i.reg, i.base);
    Imm32(i.disp, MemOpcode(i.mop) + [m], rest);
    var s := Body(i) + rest;
    var k := |MemOpcode(i.mop)|;
    assert s[k] == m;
    assert DecodeMem(i.mop, PrefixOf(PrefixNeeds(i)), s, k) == Some((i, k + 5));
  }

  lemma BodyAluRR(i: Instr, rest: seq<u8>)
    requires i.AluRR?
    ensures BodyDecodes(i, rest)
  {
    hide ModRm, RegField, RmField;
    ModRmOk(PrefixNeeds(i), 3, i.src, i.dst);
  }

  lemma BodyShift(i: Instr, rest: seq<u8>)
    requires i.ShiftCl? || i.ShiftImm?
    ensures BodyDecodes(i, rest)
  {
    hide ModRm, RegField, RmField;
    ModRmOk(PrefixNeeds(i), 3, ShiftDigit(i.kind), i.dst);
  }

  lemma BodyOneReg(i: Instr, rest: seq<u8>)
    requires i.TestQ? || i.CallR?
    ensures BodyDecodes(i, rest)
  {
    hide ModRm, RegField, RmField;
    if i.TestQ? { ModRmOk(PrefixNeeds(i), 3, i.b, i.a); } else { ModRmOk(PrefixNeeds(i), 3, 2, i.r); }
  }

  lemma BodySetCc(i: Instr, rest: seq<u8>)
    requires (i.SetCc? || i.MovzxR8?) && Encodable(i)
    ensures BodyDecodes(i, rest)
  {
    hide ModRm, RegField, RmField;
    if i.SetCc? { ModRmOk(PrefixNeeds(i), 3, 0, i.dst); } else { ModRmOk(PrefixNeeds(i), 3, i.dst, i.src); }
  }

  lemma BodyCMov(i: Instr, rest: seq<u8>)
    requires i.CMov?
    ensures BodyDecodes(i, rest)
  {
    hide ModRm, RegField, RmField;
    ModRmOk(PrefixNeeds(i), 3, i.dst, i.src);
  }

  lemma BodyOneByte(i: Instr, rest: seq<u8>)
    requires i.Push? || i.Pop? || i.Ret?
    ensures BodyDecodes(i, rest)
  {
    hide ModRm, RegField, RmField;
  }

  lemma BodyOk(i: Instr, rest: seq<u8>)
    requires Encodable(i)
    ensures BodyDecodes(i, rest)
  {
    hide BodyDecodes, Encodable;
    match i {
      case MovImm32(_, _) => BodyMov(i, rest);
      case MovImm64(_, _) => BodyMov(i, rest);
      case Mem(_, _, _, _) => BodyMem(i, rest);
      case AddQ(_, _, _) => BodyAddQ(i, rest);
      case AluRR(_, _, _) => BodyAluRR(i, rest);
      case AluRI(_, _, _) => BodyAluRI(i, rest);
      case ShiftCl(_, _) => BodyShift(i, rest);
      case ShiftImm(_, _, _) => BodyShift(i, rest);
      case SetCc(_, _) => BodySetCc(i, rest);
      case CMov(_, _, _) => BodyCMov(i, rest);
      case MovzxR8(_, _) => BodySetCc(i, rest);
      case TestQ(_, _) => BodyOneReg(i, rest);
      case CallR(_) => BodyOneReg(i, rest);
      case Jcc(_, _) => BodyJump(i, rest);
      case Jmp(_) => BodyJump(i, rest);
      case _ => BodyOneByte(i, rest);
    }
  }

  lemma NoPrefixInBody(i: Instr)
    ensures Body(i)[0] != 0x66 && !(0x40 <= Body(i)[0] < 0x50)
  {
  }

  /** Machine code round trip: whatever follows, the first instruction decoded is the one encoded. */
  lemma RoundTrip(i: Instr, rest: seq<u8>)
    requires Encodable(i)
    ensures Decode(Enc(i) + rest) == Some((i, |Enc(i)|))
  {
    hide Prefixes, Body, DecodeBody, ParsePrefix, PrefixNeeds, Encodable;
    NoPrefixInBody(i);
    var n, s := PrefixNeeds(i), Body(i) + rest;
    PrefixOk(n, s);
    assert Enc(i) + rest == Prefixes(n) + s;
    BodyOk(i, rest);
  }
}
