/** What the x86 instruction kinds compute, in arithmetic, after the Intel 64 manual (volume 2): so that a
    condition, shift or arithmetic kind means what its encoding in `Vectors` makes the processor do. */
module Machine {
  import opened Words
  import opened Rv32
  import opened X86
  import opened Meaning
  import opened Encode
  import opened Flat
  import EncodeProof

  /** After comparing `a` with `b`: equal, unequal, below, at least (unsigned), less, not less (signed). */
  lemma ConditionsMean(a: u32, b: u32)
    ensures Cond(E, CmpFlags(a, b)) <==> a == b
    ensures Cond(Cc.Ne, CmpFlags(a, b)) <==> a != b
    ensures Cond(B, CmpFlags(a, b)) <==> a < b
    ensures Cond(Ae, CmpFlags(a, b)) <==> b <= a
    ensures Cond(L, CmpFlags(a, b)) <==> Signed(a) < Signed(b)
    ensures Cond(Cc.Ge, CmpFlags(a, b)) <==> Signed(b) <= Signed(a)
    ensures Cond(Ns, CmpFlags(a, b)) <==> (a - b) % TWO32 < 0x8000_0000
  {
    var sd := Signed(a) - Signed(b);
    assert W32(a - b) == W32(sd);
  }

  /** The order each condition names after comparing `a` with `b`. */
  predicate Ordered(cc: Cc, a: u32, b: u32)
  {
    match cc
    case E => a == b case Ne => a != b case B => a < b case Ae => b <= a
    case L => Signed(a) < Signed(b) case Ge => Signed(b) <= Signed(a) case Ns => (a - b) % TWO32 < 0x8000_0000
  }

  /** After a comparison a conditional move takes the source, and a set-byte is 1, exactly in that order. */
  lemma SelectsMean<W>(h: Host<W>, cc: Cc, d: Reg, s: Reg, a: u32, b: u32, x: X<W>)
    requires |x.r| == 16 && x.flags == Some(CmpFlags(a, b)) && x.r[d].Num? && x.r[s].Num?
    ensures Do(h, CMov(cc, d, s), x) == Some(x.(r := x.r[d := Num((if Ordered(cc, a, b) then x.r[s].n else x.r[d].n) % TWO32)]))
    ensures Do(h, SetCc(cc, d), x) == Some(x.(r := x.r[d := Byte(if Ordered(cc, a, b) then 1 else 0)]))
  {
    ConditionsMean(a, b);
    hide Cond, CmpFlags;
  }

  /** A jump after the test of a register with itself: on zero, on any other content, on a clear top bit. */
  lemma TestsMean<W>(h: Host<W>, cc: Cc, rel: u32, r: Reg, bytes: seq<u8>, rest: seq<u8>, ip: nat, x: X<W>)
    requires |x.r| == 16 && (x.r[r].Num? || x.r[r].HostPtr?) && (cc == E || cc == Cc.Ne || cc == Ns)
    requires ip <= |bytes| && bytes[ip..] == Enc(Jcc(cc, rel)) + rest
    ensures var y, zero := Do(h, TestQ(r, r), x), x.r[r] == Num(0);
      var goes := if cc == E then zero else if cc == Cc.Ne then !zero else x.r[r].HostPtr? || x.r[r].n < 0x8000_0000_0000_0000;
      y.Some? && y.value.r == x.r && FlatStep(h, bytes, ip, y.value) == At(ip + JCC_LEN + (if goes then Signed(rel) else 0), y.value)
  {
    hide FlatStep, Enc;
    var y := Tested(h, r, x);
    assert x.r[r].Num? && x.r[r].n == 0 ==> x.r[r] == Num(0);
    JccGoes(h, cc, rel, bytes, rest, ip, y);
  }

  /** The flags that the test of a register with itself leaves. */
  lemma Tested<W>(h: Host<W>, r: Reg, x: X<W>) returns (y: X<W>)
    requires |x.r| == 16 && (x.r[r].Num? || x.r[r].HostPtr?)
    ensures Do(h, TestQ(r, r), x) == Some(y) && y.r == x.r && y.flags.Some?
    ensures y.flags.value.zf == (x.r[r].Num? && x.r[r].n == 0) && y.flags.value.sf == (x.r[r].Num? && x.r[r].n >= 0x8000_0000_0000_0000)
  {
    hide DoMem, DoCall, Arith, Shift32;
    y := Do(h, TestQ(r, r), x).value;
  }

  lemma JccGoes<W>(h: Host<W>, cc: Cc, rel: u32, bytes: seq<u8>, rest: seq<u8>, ip: nat, x: X<W>)
    requires |x.r| == 16 && x.flags.Some? && ip <= |bytes| && bytes[ip..] == Enc(Jcc(cc, rel)) + rest
    ensures FlatStep(h, bytes, ip, x) == At(ip + JCC_LEN + (if Cond(cc, x.flags.value) then Signed(rel) else 0), x)
  {
    hide Decode, Enc, Cond, Do;
    EncodeProof.RoundTrip(Jcc(cc, rel), rest);
    JccLen(cc, rel);
  }

  lemma JccLen(cc: Cc, rel: u32)
    ensures |Enc(Jcc(cc, rel))| == JCC_LEN
  {
  }

  /** An address form adds modulo 2^32. */
  lemma SumsMean<W>(h: Host<W>, d: Reg, b: Reg, disp: u32, x: X<W>)
    requires |x.r| == 16 && x.r[b].Num?
    ensures Do(h, Mem(Lea32, d, b, disp), x) == Some(x.(r := x.r[d := Num((x.r[b].n + disp) % TWO32)]))
  {
    var a := x.r[b].n;
    assert W32(a + Signed(disp)) == W32(a + disp);
  }

  lemma ShiftsMean(a: u32, n: nat)
    ensures Shift32(Shl, a, n) == a * Pow2(n % 32) % TWO32
    ensures Shift32(Shr, a, n) == a / Pow2(n % 32)
    ensures var p, q := Pow2(n % 32), Signed(Shift32(Sar, a, n)); p * q <= Signed(a) < p * (q + 1)
  {
    hide Pow2, Shl32, Shr32, Sar32, Signed;
    ShlMeans(a, n % 32);
    ShrMeans(a, n % 32);
    SarMeans(a, n % 32);
  }

  /** Each arithmetic kind obeys the law of the interpreter's operation of that name; a comparison changes no
      register. */
  lemma ArithmeticMeans(op: Alu2, a: u32, b: u32)
    ensures var r := Alu32(op, a, b);
      match op
      case XAdd => AluLaw(Add, a, b, r) case XSub => AluLaw(Sub, a, b, r) case XAnd => AluLaw(And, a, b, r)
      case XOr => AluLaw(Or, a, b, r) case XXor => AluLaw(Xor, a, b, r) case XCmp => r == a
  {
    hide AluLaw, Bits32;
    AluIff(Add, a, b, Alu(Add, a, b));
    AluIff(Sub, a, b, Alu(Sub, a, b));
    AluIff(And, a, b, Alu(And, a, b));
    AluIff(Or, a, b, Alu(Or, a, b));
    AluIff(Xor, a, b, Alu(Xor, a, b));
  }

  /** A load through a host location puts a number in the register: the low bytes there, extended with zeros or
      with the sign. */
  lemma NarrowMeans<W>(h: Host<W>, op: MemOp, reg: Reg, base: Reg, p: nat, x: X<W>)
    requires |x.r| == 16 && x.r[base] == HostPtr(p) && !op.Store32? && !op.Store16? && !op.Store8? && !op.Lea32?
    ensures var y, n := Do(h, Mem(op, reg, base, 0), x), if op.Load32? then 4 else if op.Zx16? || op.Sx16? then 2 else 1;
      && y.Some? && y.value.r[reg].Num? && y.value.r[reg].n < TWO32
      && var v: u32, r: u32 := h.bus.peek(x.cpu.world, p, n), y.value.r[reg].n;
        && (op.Load32? ==> r == v)
        && (op.Zx8? ==> r == v % 0x100) && (op.Zx16? ==> r == v % 0x1_0000)
        && (op.Sx8? ==> LoadLaw(Lb, v, r)) && (op.Sx16? ==> LoadLaw(Lh, v, r))
  {
    hide CallShim, DoCall, Arith, Shift32, LowBytes, SignExtend, LoadLaw;
    var n := if op.Load32? then 4 else if op.Zx16? || op.Sx16? then 2 else 1;
    var v := h.bus.peek(x.cpu.world, p, n);
    var r := if op.Sx8? || op.Sx16? then SignExtend(LowBytes(v, n), n) else LowBytes(v, n);
    assert Do(h, Mem(op, reg, base, 0), x) == Some(SetNum(x, reg, r));
    NarrowValue(op, v);
  }

  lemma NarrowValue(op: MemOp, v: u32)
    ensures LowBytes(v, 4) == v && LowBytes(v, 1) == v % 0x100 && LowBytes(v, 2) == v % 0x1_0000
    ensures LoadLaw(Lb, v, SignExtend(LowBytes(v, 1), 1)) && LoadLaw(Lh, v, SignExtend(LowBytes(v, 2), 2))
  {
    hide SignExtend, Signed;
    var b: u32, h: u32 := v % 0x100, v % 0x1_0000;
    ExtendLaw(Lb, b);
    ExtendLaw(Lh, h);
    assert Extend(Lb, b) == SignExtend(b, 1) && Extend(Lh, h) == SignExtend(h, 2);
    SameLow(SignExtend(b, 1), v);
    SameLow(SignExtend(h, 2), v);
  }

  lemma SameLow(r: int, v: int)
    ensures (r - v % 0x100) % 0x100 == 0 ==> (r - v) % 0x100 == 0
    ensures (r - v % 0x1_0000) % 0x1_0000 == 0 ==> (r - v) % 0x1_0000 == 0
  {
    Whole(r, v, 0x100);
    Whole(r, v, 0x1_0000);
  }

  lemma Whole(r: int, v: int, m: int)
    requires m > 0
    ensures (r - v % m) % m == 0 ==> (r - v) % m == 0
  {
    var q, k := v / m, (r - v % m) / m;
    if (r - v % m) % m == 0 {
      assert r - v == m * k - m * q;
      assert m * k - m * q == m * (k - q);
      RemIs(r - v, m, k - q, 0);
    }
  }
}
