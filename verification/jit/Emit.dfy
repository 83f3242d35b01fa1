/** The append-only assembler (crates/fs-jit/src/emit.rs): each encoder pushes its bytes. */
module Emit {
  import opened Words
  import opened X86
  import opened Encode
  import opened Flat

  /** Bytes appended piece by piece after the REX prefix are the instruction's encoding. */
  lemma Pieces(was: seq<u8>, i: Instr, a: seq<u8>, b: seq<u8>, c: seq<u8>)
    requires var n := PrefixNeeds(i); !n.opsize && Body(i) == a + b + c
    ensures var n := PrefixNeeds(i); was + Rex(n.w, n.r, n.b) + a + b + c == was + Enc(i)
  {
    hide Body, Rex, PrefixNeeds;
    var n := PrefixNeeds(i);
    var rex := Rex(n.w, n.r, n.b);
    assert Prefixes(n) == [] + rex == rex;
    Regroup(was, rex, a, b, c);
  }

  lemma Regroup(w: seq<u8>, r: seq<u8>, a: seq<u8>, b: seq<u8>, c: seq<u8>)
    ensures w + r + a + b + c == w + (r + (a + b + c))
  {
  }

  /** The same for a memory operand, whose 16-bit store has the operand-size prefix in front. */
  lemma MemPieces(was: seq<u8>, op: MemOp, reg: Reg, base: Reg, disp: u32)
    ensures var pre := if op == Store16 then was + [0x66] else was;
      pre + RexBits(false, reg >= 8, base >= 8) + MemOpcode(op) + [ModRm(2, reg, base)] + Le(disp, 4) ==
      was + Enc(Mem(op, reg, base, disp))
  {
    hide MemOpcode, Le, RexBits, ModRm;
    var rex, tail := Rex(false, reg, base), Body(Mem(op, reg, base, disp));
    var pre := if op == Store16 then was + [0x66] else was;
    Regroup(pre, rex, MemOpcode(op), [ModRm(2, reg, base)], Le(disp, 4));
    assert Enc(Mem(op, reg, base, disp)) == (if op == Store16 then [0x66] else []) + rex + tail;
    Shift(was, if op == Store16 then [0x66] else [], rex, tail);
  }

  lemma Shift(w: seq<u8>, p: seq<u8>, a: seq<u8>, b: seq<u8>)
    ensures w + p + (a + b) == w + (p + a + b)
    ensures w + [] == w
  {
  }

  lemma Splice(w: seq<u8>, r: seq<u8>, a: seq<u8>, b: seq<u8>, c: seq<u8>)
    ensures w + r + a + b + c == w + (r + a + b + c)
  {
  }

  class Asm {
    var buf: seq<u8>
    /** The structured code whose assembly `buf` is. */
    ghost var code: seq<Node>

    ghost predicate Valid()
      reads this
    {
      buf == Assemble(code)
    }

    constructor ()
      ensures Valid() && code == [] && buf == []
    {
      buf, code := [], [];
    }

    /** The bytes of `n` are in place after `was`: take note of it. */
    ghost method Note(was: seq<u8>, n: Node)
      requires was == Assemble(code) && buf == was + NodeBytes(n)
      modifies this`code
      ensures Valid() && code == old(code) + [n]
    {
      hide Assemble, NodeBytes;
      AssembleAppend(code, [n]);
      Single(n);
      code := code + [n];
    }

    method PushRex(w: bool, r: bool, b: bool)
      modifies this`buf
      ensures buf == old(buf) + RexBits(w, r, b)
    {
      if w || r || b {
        buf := buf + [0x40 + (if w then 8 else 0) + (if r then 4 else 0) + (if b then 1 else 0)];
      }
    }

    method MovR32Imm32(dst: Reg, imm: u32)
      requires Valid()
      modifies this
      ensures Valid() && code == old(code) + [I(MovImm32(dst, imm))]
    {
      hide Assemble, Enc, Le, RexBits;
      PushRex(false, false, dst >= 8);
      buf := buf + [0xb8 + dst % 8];
      buf := buf + Le(imm, 4);
      Pieces(old(buf), MovImm32(dst, imm), [0xb8 + dst % 8], Le(imm, 4), []);
      Note(old(buf), I(MovImm32(dst, imm)));
    }

    method MovR64Imm64(dst: Reg, imm: u64)
      requires Valid()
      modifies this
      ensures Valid() && code == old(code) + [I(MovImm64(dst, imm))]
    {
      hide Assemble, Enc, Le, RexBits;
      PushRex(true, false, dst >= 8);
      buf := buf + [0xb8 + dst % 8];
      buf := buf + Le(imm, 8);
      Pieces(old(buf), MovImm64(dst, imm), [0xb8 + dst % 8], Le(imm, 8), []);
      Note(old(buf), I(MovImm64(dst, imm)));
    }

    /** The nine `[base + disp32]` forms differ in opcode bytes and in the 16-bit store's prefix. */
    method MemOperand(op: MemOp, reg: Reg, base: Reg, disp: u32)
      requires Valid() && Encodable(Mem(op, reg, base, disp))
      modifies this
      ensures Valid() && code == old(code) + [I(Mem(op, reg, base, disp))]
    {
      hide Assemble, Enc, Le, RexBits, MemOpcode, ModRm;
      if op == Store16 {
        buf := buf + [0x66];
      }
      PushRex(false, reg >= 8, base >= 8);
      buf := buf + MemOpcode(op);
      buf := buf + [ModRm(2, reg, base)];
      buf := buf + Le(disp, 4);
      MemPieces(old(buf), op, reg, base, disp);
      Note(old(buf), I(Mem(op, reg, base, disp)));
    }

    method AddQwordMemImm8(base: Reg, disp: u32, imm: u8)
      requires Valid() && Encodable(AddQ(base, disp, imm))
      modifies this
      ensures Valid() && code == old(code) + [I(AddQ(base, disp, imm))]
    {
      hide Assemble, Enc, Le, RexBits;
      PushRex(true, false, base >= 8);
      buf := buf + [0x83, ModRm(2, 0, base)];
      buf := buf + Le(disp, 4);
      buf := buf + [imm];
      Pieces(old(buf), AddQ(base, disp, imm), [0x83, ModRm(2, 0, base)], Le(disp, 4), [imm]);
      Note(old(buf), I(AddQ(base, disp, imm)));
    }

    method AluR32R32(op: Alu2, dst: Reg, src: Reg)
      requires Valid()
      modifies this
      ensures Valid() && code == old(code) + [I(AluRR(op, dst, src))]
    {
      hide Assemble, Enc, Le, RexBits;
      PushRex(false, src >= 8, dst >= 8);
      buf := buf + [AluBase(op) + 1, ModRm(3, src, dst)];
      Pieces(old(buf), AluRR(op, dst, src), [AluBase(op) + 1, ModRm(3, src, dst)], [], []);
      Note(old(buf), I(AluRR(op, dst, src)));
    }

    method AluR32Imm32(op: Alu2, dst: Reg, imm: u32)
      requires Valid()
      modifies this
      ensures Valid() && code == old(code) + [I(AluRI(op, dst, imm))]
    {
      hide Assemble, Enc, Le, RexBits;
      PushRex(false, false, dst >= 8);
      buf := buf + [0x81, ModRm(3, AluBase(op) / 8, dst)];
      buf := buf + Le(imm, 4);
      Pieces(old(buf), AluRI(op, dst, imm), [0x81, ModRm(3, AluBase(op) / 8, dst)], Le(imm, 4), []);
      Note(old(buf), I(AluRI(op, dst, imm)));
    }

    method ShiftByCl(kind: ShiftKind, dst: Reg)
      requires Valid()
      modifies this
      ensures Valid() && code == old(code) + [I(ShiftCl(kind, dst))]
    {
      hide Assemble, Enc, Le, RexBits;
      PushRex(false, false, dst >= 8);
      buf := buf + [0xd3, ModRm(3, ShiftDigit(kind), dst)];
      Pieces(old(buf), ShiftCl(kind, dst), [0xd3, ModRm(3, ShiftDigit(kind), dst)], [], []);
      Note(old(buf), I(ShiftCl(kind, dst)));
    }

    method ShiftByImm8(kind: ShiftKind, dst: Reg, imm: u8)
      requires Valid()
      modifies this
      ensures Valid() && code == old(code) + [I(ShiftImm(kind, dst, imm))]
    {
      hide Assemble, Enc, Le, RexBits;
      PushRex(false, false, dst >= 8);
      buf := buf + [0xc1, ModRm(3, ShiftDigit(kind), dst), imm];
      Pieces(old(buf), ShiftImm(kind, dst, imm), [0xc1, ModRm(3, ShiftDigit(kind), dst), imm], [], []);
      Note(old(buf), I(ShiftImm(kind, dst, imm)));
    }

    method SetByte(cc: Cc, dst: Reg)
      requires Valid() && Encodable(SetCc(cc, dst))
      modifies this
      ensures Valid() && code == old(code) + [I(SetCc(cc, dst))]
    {
      hide Assemble, Enc, Le, RexBits;
      PushRex(false, false, dst >= 8);
      buf := buf + [0x0f, 0x90 + CcCode(cc), ModRm(3, 0, dst)];
      Pieces(old(buf), SetCc(cc, dst), [0x0f, 0x90 + CcCode(cc), ModRm(3, 0, dst)], [], []);
      Note(old(buf), I(SetCc(cc, dst)));
    }

    method CMovCc(cc: Cc, dst: Reg, src: Reg)
      requires Valid()
      modifies this
      ensures Valid() && code == old(code) + [I(CMov(cc, dst, src))]
    {
      hide Assemble, Enc, Le, RexBits;
      PushRex(false, dst >= 8, src >= 8);
      buf := buf + [0x0f, 0x40 + CcCode(cc), ModRm(3, dst, src)];
      Pieces(old(buf), CMov(cc, dst, src), [0x0f, 0x40 + CcCode(cc), ModRm(3, dst, src)], [], []);
      Note(old(buf), I(CMov(cc, dst, src)));
    }

    method MovzxR32R8(dst: Reg, src: Reg)
      requires Valid() && Encodable(MovzxR8(dst, src))
      modifies this
      ensures Valid() && code == old(code) + [I(MovzxR8(dst, src))]
    {
      hide Assemble, Enc, Le, RexBits;
      PushRex(false, dst >= 8, src >= 8);
      buf := buf + [0x0f, 0xb6, ModRm(3, dst, src)];
      Pieces(old(buf), MovzxR8(dst, src), [0x0f, 0xb6, ModRm(3, dst, src)], [], []);
      Note(old(buf), I(MovzxR8(dst, src)));
    }

    method TestR64R64(a: Reg, b: Reg)
      requires Valid()
      modifies this
      ensures Valid() && code == old(code) + [I(TestQ(a, b))]
    {
      hide Assemble, Enc, Le, RexBits;
      PushRex(true, b >= 8, a >= 8);
      buf := buf + [0x85, ModRm(3, b, a)];
      Pieces(old(buf), TestQ(a, b), [0x85, ModRm(3, b, a)], [], []);
      Note(old(buf), I(TestQ(a, b)));
    }

    method PushR64(r: Reg)
      requires Valid()
      modifies this
      ensures Valid() && code == old(code) + [I(Push(r))]
    {
      hide Assemble, Enc, Le, RexBits;
      PushRex(false, false, r >= 8);
      buf := buf + [0x50 + r % 8];
      Pieces(old(buf), Push(r), [0x50 + r % 8], [], []);
      Note(old(buf), I(Push(r)));
    }

    method PopR64(r: Reg)
      requires Valid()
      modifies this
      ensures Valid() && code == old(code) + [I(Pop(r))]
    {
      hide Assemble, Enc, Le, RexBits;
      PushRex(false, false, r >= 8);
      buf := buf + [0x58 + r % 8];
      Pieces(old(buf), Pop(r), [0x58 + r % 8], [], []);
      Note(old(buf), I(Pop(r)));
    }

    method CallR64(r: Reg)
      requires Valid()
      modifies this
      ensures Valid() && code == old(code) + [I(CallR(r))]
    {
      hide Assemble, Enc, Le, RexBits;
      PushRex(false, false, r >= 8);
      buf := buf + [0xff, ModRm(3, 2, r)];
      Pieces(old(buf), CallR(r), [0xff, ModRm(3, 2, r)], [], []);
      Note(old(buf), I(CallR(r)));
    }

    method EmitRet()
      requires Valid()
      modifies this
      ensures Valid() && code == old(code) + [I(Ret)]
    {
      buf := buf + [0xc3];
      Note(old(buf), I(Ret));
    }

    /** The two raw jumps; only `EmitSkip` and `EmitIfElse` use them. */
    method JccRel32(cc: Cc, rel: u32)
      modifies this`buf
      ensures buf == old(buf) + Enc(Jcc(cc, rel))
    {
      hide Enc, Le;
      JccBytes(cc, rel);
      buf := buf + [0x0f];
      buf := buf + [0x80 + CcCode(cc)];
      buf := buf + Le(rel, 4);
    }

    static lemma JccBytes(cc: Cc, rel: u32)
      ensures Enc(Jcc(cc, rel)) == [0x0f] + [0x80 + CcCode(cc)] + Le(rel, 4)
    {
      hide Le;
    }

    method JmpRel32(rel: u32)
      modifies this`buf
      ensures buf == old(buf) + Enc(Jmp(rel))
    {
      hide Le;
      buf := buf + [0xe9];
      buf := buf + Le(rel, 4);
    }

    /** `jcc` over `inner`, whose length is known because it was built in a buffer of its own. */
    method EmitSkip(cc: Cc, inner: Asm)
      requires Valid() && inner.Valid() && inner != this
      modifies this
      ensures Valid() && code == old(code) + [Skip(cc, inner.code)]
    {
      hide Assemble, Enc, W32;
      JccRel32(cc, W32(|inner.buf|));
      buf := buf + inner.buf;
      Note(old(buf), Skip(cc, inner.code));
    }

    /** `jcc` to `thn` over `els` and the `jmp` that follows it; `jmp` over `thn`. */
    method EmitIfElse(cc: Cc, thn: Asm, els: Asm)
      requires Valid() && thn.Valid() && els.Valid() && thn != this && els != this
      modifies this
      ensures Valid() && code == old(code) + [IfElse(cc, thn.code, els.code)]
    {
      hide Assemble, Enc, W32;
      JccRel32(cc, W32(|els.buf| + JMP_LEN));
      buf := buf + els.buf;
      JmpRel32(W32(|thn.buf|));
      buf := buf + thn.buf;
      ghost var n := IfElse(cc, thn.code, els.code);
      Splice(old(buf), Enc(Jcc(cc, W32(|els.buf| + JMP_LEN))), els.buf, Enc(Jmp(W32(|thn.buf|))), thn.buf);
      Note(old(buf), n);
    }
  }
}
