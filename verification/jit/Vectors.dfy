/** Machine code of every instruction form, byte for byte, after the Intel 64 manual (volume 2) and the tests
    of crates/fs-jit/src/emit.rs. */
module Vectors {
  import opened Words
  import opened X86
  import opened Encode

  // ----- putting an encoding together -----

  lemma Shown(i: Instr, p: seq<u8>, b: seq<u8>)
    requires Prefixes(PrefixNeeds(i)) == p && Body(i) == b
    ensures Enc(i) == p + b
  {
  }

  lemma NoPrefix(n: Needs)
    requires !n.opsize && !n.w && n.r < 8 && n.b < 8
    ensures Prefixes(n) == []
  {
  }

  lemma OnePrefix(n: Needs)
    requires !n.opsize && (n.w || n.r >= 8 || n.b >= 8)
    ensures Prefixes(n) == [0x40 + (if n.w then 8 else 0) + (if n.r >= 8 then 4 else 0) + (if n.b >= 8 then 1 else 0)]
  {
  }

  /** A form without a prefix is its body. */
  lemma Bare(i: Instr)
    requires var n := PrefixNeeds(i); !n.opsize && !n.w && n.r < 8 && n.b < 8
    ensures Enc(i) == Body(i)
  {
    hide Enc, Body, PrefixNeeds;
    NoPrefix(PrefixNeeds(i));
    Shown(i, [], Body(i));
  }

  lemma Prefixed(i: Instr)
    requires var n := PrefixNeeds(i); !n.opsize && (n.w || n.r >= 8 || n.b >= 8)
    ensures var n := PrefixNeeds(i);
      Enc(i) == [0x40 + (if n.w then 8 else 0) + (if n.r >= 8 then 4 else 0) + (if n.b >= 8 then 1 else 0)] + Body(i)
  {
    hide Enc, Body, PrefixNeeds, Prefixes;
    OnePrefix(PrefixNeeds(i));
    Shown(i, Prefixes(PrefixNeeds(i)), Body(i));
  }

  // ----- arithmetic -----

  lemma AluRegister(op: Alu2)
    ensures Enc(AluRR(op, RAX, RCX)) ==
      [match op case XAdd => 0x01 case XOr => 0x09 case XAnd => 0x21 case XSub => 0x29 case XXor => 0x31 case XCmp => 0x39, 0xc8]
  {
    hide Enc;
    Bare(AluRR(op, RAX, RCX));
  }

  lemma AluImmediate(op: Alu2)
    ensures Enc(AluRI(op, RCX, 0xffff_fffe)) ==
      [0x81, match op case XAdd => 0xc1 case XOr => 0xc9 case XAnd => 0xe1 case XSub => 0xe9 case XXor => 0xf1 case XCmp => 0xf9] +
      [0xfe, 0xff, 0xff, 0xff]
  {
    hide Enc, Le;
    Bare(AluRI(op, RCX, 0xffff_fffe));
    FourLe(0xfe, 0xff, 0xff, 0xff);
  }

  lemma FourLe(a: u8, b: u8, c: u8, d: u8)
    ensures Le(a + 0x100 * b + 0x1_0000 * c + 0x100_0000 * d, 4) == [a, b, c, d]
  {
    hide Le;
    var z: nat, y: nat := c + 0x100 * d, b + 0x100 * c + 0x1_0000 * d;
    LeMore(0, 0, 0);
    LeMore(d, 0, 1);
    LeMore(c, d, 2);
    LeMore(b, z, 3);
    LeMore(a, y, 4);
  }

  lemma LeMore(low: u8, high: nat, n: nat)
    ensures Le(low + 0x100 * high, n) == if n == 0 then [] else [low] + Le(high, n - 1)
  {
    RemIs(low + 0x100 * high, 0x100, high, low);
  }

  lemma Shifts(k: ShiftKind)
    ensures Enc(ShiftCl(k, RAX)) == [0xd3, match k case Shl => 0xe0 case Shr => 0xe8 case Sar => 0xf8]
    ensures Enc(ShiftImm(k, RAX, 4)) == [0xc1, match k case Shl => 0xe0 case Shr => 0xe8 case Sar => 0xf8, 4]
  {
    hide Enc;
    Bare(ShiftCl(k, RAX));
    Bare(ShiftImm(k, RAX, 4));
  }

  lemma Counters()
    ensures Enc(AddQ(RDI, 0x20, 1)) == [0x48, 0x83, 0x87] + [0x20, 0, 0, 0] + [1]
  {
    hide Enc, Le;
    Prefixed(AddQ(RDI, 0x20, 1));
    FourLe(0x20, 0, 0, 0);
  }

  // ----- moves -----

  lemma Constants()
    ensures Enc(MovImm32(RAX, 0x1234_5678)) == [0xb8] + [0x78, 0x56, 0x34, 0x12]
    ensures Enc(MovImm32(R9, 42)) == [0x41, 0xb9] + [42, 0, 0, 0]
  {
    hide Enc, Le;
    Bare(MovImm32(RAX, 0x1234_5678));
    Prefixed(MovImm32(R9, 42));
    FourLe(0x78, 0x56, 0x34, 0x12);
    FourLe(42, 0, 0, 0);
  }

  lemma WideConstant(v: u64)
    ensures Enc(MovImm64(R11, v)) == [0x49, 0xbb] + Le(v, 8)
  {
    hide Enc, Le;
    Prefixed(MovImm64(R11, v));
  }

  /** To and from the hart's record, and the address form. */
  lemma RecordMoves()
    ensures Enc(Mem(Load32, RAX, RDI, 0x10)) == [0x8b, 0x87] + [0x10, 0, 0, 0]
    ensures Enc(Mem(Store32, RCX, RDI, 4)) == [0x89, 0x8f] + [4, 0, 0, 0]
    ensures Enc(Mem(Lea32, RAX, R8, 0x100)) == [0x41, 0x8d, 0x80] + [0, 1, 0, 0]
  {
    hide Enc, Le;
    Bare(Mem(Load32, RAX, RDI, 0x10));
    Bare(Mem(Store32, RCX, RDI, 4));
    Prefixed(Mem(Lea32, RAX, R8, 0x100));
    FourLe(0x10, 0, 0, 0);
    FourLe(4, 0, 0, 0);
    FourLe(0, 1, 0, 0);
  }

  /** Through a fast location: the narrow loads extend with zeros or the sign, the narrow stores cut. */
  lemma NarrowLoads()
    ensures Enc(Mem(Zx8, RCX, RAX, 0)) == [0x0f, 0xb6, 0x88] + [0, 0, 0, 0]
    ensures Enc(Mem(Sx8, RCX, RAX, 0)) == [0x0f, 0xbe, 0x88] + [0, 0, 0, 0]
    ensures Enc(Mem(Zx16, RCX, RAX, 0)) == [0x0f, 0xb7, 0x88] + [0, 0, 0, 0]
    ensures Enc(Mem(Sx16, RCX, RAX, 0)) == [0x0f, 0xbf, 0x88] + [0, 0, 0, 0]
  {
    hide Enc, Le;
    Bare(Mem(Zx8, RCX, RAX, 0));
    Bare(Mem(Sx8, RCX, RAX, 0));
    Bare(Mem(Zx16, RCX, RAX, 0));
    Bare(Mem(Sx16, RCX, RAX, 0));
    FourLe(0, 0, 0, 0);
  }

  lemma NarrowStores()
    ensures Enc(Mem(Store8, RCX, RAX, 0)) == [0x88, 0x88] + [0, 0, 0, 0]
    ensures Enc(Mem(Store16, RCX, RAX, 0)) == [0x66, 0x89, 0x88] + [0, 0, 0, 0]
  {
    hide Enc, Le;
    Bare(Mem(Store8, RCX, RAX, 0));
    var i := Mem(Store16, RCX, RAX, 0);
    assert Prefixes(PrefixNeeds(i)) == [0x66];
    Shown(i, [0x66], Body(i));
    FourLe(0, 0, 0, 0);
  }

  // ----- conditions, jumps, calls -----

  lemma SetBytes(cc: Cc)
    ensures Enc(SetCc(cc, R9)) ==
      [0x41, 0x0f, match cc case E => 0x94 case Ne => 0x95 case B => 0x92 case Ae => 0x93 case L => 0x9c case Ge => 0x9d case Ns => 0x99, 0xc1]
  {
    hide Enc;
    Prefixed(SetCc(cc, R9));
  }

  lemma CondMoves(cc: Cc)
    ensures Enc(CMov(cc, R9, R10)) ==
      [0x45, 0x0f, match cc case E => 0x44 case Ne => 0x45 case B => 0x42 case Ae => 0x43 case L => 0x4c case Ge => 0x4d case Ns => 0x49, 0xca]
  {
    hide Enc;
    Prefixed(CMov(cc, R9, R10));
  }

  lemma Jumps(cc: Cc)
    ensures Enc(Jcc(cc, 0x10)) ==
      [0x0f, match cc case E => 0x84 case Ne => 0x85 case B => 0x82 case Ae => 0x83 case L => 0x8c case Ge => 0x8d case Ns => 0x89] +
      [0x10, 0, 0, 0]
    ensures Enc(Jmp(0x10)) == [0xe9] + [0x10, 0, 0, 0]
  {
    hide Enc, Le;
    Bare(Jcc(cc, 0x10));
    Bare(Jmp(0x10));
    FourLe(0x10, 0, 0, 0);
  }

  lemma Tests()
    ensures Enc(TestQ(RAX, RAX)) == [0x48, 0x85, 0xc0] && Enc(MovzxR8(RAX, R9)) == [0x41, 0x0f, 0xb6, 0xc1]
  {
    hide Enc;
    Prefixed(TestQ(RAX, RAX));
    Prefixed(MovzxR8(RAX, R9));
  }

  lemma Stack()
    ensures Enc(Push(RDI)) == [0x57] && Enc(Pop(RDI)) == [0x5f] && Enc(Push(R8)) == [0x41, 0x50] && Enc(Pop(R8)) == [0x41, 0x58]
    ensures Enc(Push(RCX)) == [0x51] && Enc(Push(RDX)) == [0x52] && Enc(Push(RSI)) == [0x56]
  {
    hide Enc;
    Bare(Push(RDI));
    Bare(Pop(RDI));
    Prefixed(Push(R8));
    Prefixed(Pop(R8));
    Bare(Push(RCX));
    Bare(Push(RDX));
    Bare(Push(RSI));
  }

  lemma Calls()
    ensures Enc(CallR(R11)) == [0x41, 0xff, 0xd3] && Enc(Ret) == [0xc3]
  {
    hide Enc;
    Prefixed(CallR(R11));
    Bare(Ret);
  }
}
