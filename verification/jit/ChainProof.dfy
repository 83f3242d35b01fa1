/** Compiling a chain preserves its meaning. */
module ChainProof {
  import opened Words
  import opened Rv32
  import opened X86
  import opened ChainCode

  /** Equal but for `pc` and the two fast-path counters. */
  ghost predicate Agree<W>(a: Cpu<W>, b: Cpu<W>) { a.(pc := b.pc, hits := b.hits, bails := b.bails) == b }

  /** Equal but for the two fast-path counters. */
  ghost predicate Same<W>(a: Cpu<W>, b: Cpu<W>) { a.(hits := b.hits, bails := b.bails) == b }

  ghost predicate Args<W>(x: X<W>)
  {
    |x.r| == 16 && x.r[RDI] == CpuPtr && x.r[RSI] == BusData && x.r[RDX] == BusVtable
  }

  /** The state between two steps: argument registers intact, entry pc pinned in R8, stack as on entry. */
  ghost predicate Ready<W>(x: X<W>, c: Cpu<W>, entry: u32)
  {
    Args(x) && x.r[R8] == Num(entry) && x.stack == [] && c.Valid() && Agree(x.cpu, c)
  }

  /** `y` is `x` with new contents in RAX, RCX, R9, R10, R11 and the flags, if any. */
  ghost predicate Scratch<W>(x: X<W>, y: X<W>)
  {
    |x.r| == 16 && |y.r| == 16 && x.stack == y.stack &&
    x.r[RDI] == y.r[RDI] && x.r[RSI] == y.r[RSI] && x.r[RDX] == y.r[RDX] && x.r[R8] == y.r[R8]
  }

  lemma One<W>(h: Host<W>, i: Instr, x: X<W>)
    requires |x.r| == 16 && !i.Ret? && Do(h, i, x).Some?
    ensures Run(h, [I(i)], x) == Go(Do(h, i, x).value)
  {
    assert [I(i)][1..] == [];
  }

  lemma Then<W>(h: Host<W>, a: seq<Node>, b: seq<Node>, x: X<W>, y: X<W>)
    requires |x.r| == 16 && Run(h, a, x) == Go(y)
    ensures Run(h, a + b, x) == Run(h, b, y)
  {
    hide Do;
    RunAppend(h, a, b, x);
  }

  lemma Then2<W>(h: Host<W>, a: seq<Node>, b: seq<Node>, c: seq<Node>, x: X<W>, y: X<W>, z: X<W>)
    requires |x.r| == 16 && Run(h, a, x) == Go(y) && |y.r| == 16 && Run(h, b, y) == Go(z)
    ensures Run(h, a + b + c, x) == Run(h, c, z)
  {
    hide Do;
    Then(h, a, b, x, y);
    Then(h, a + b, c, x, z);
  }

  lemma LoadRegOk<W>(h: Host<W>, dst: Reg, i: RegIx, x: X<W>) returns (y: X<W>)
    requires h.Valid() && |x.r| == 16 && x.r[RDI] == CpuPtr && x.cpu.Valid()
    ensures Run(h, LoadReg(h.t, dst, i), x) == Go(y)
    ensures y == x.(r := x.r[dst := Num(Rd(x.cpu.regs, i))], flags := y.flags)
  {
    hide CallShim, Shift32, DoCall, Arith;
    var n := LoadReg(h.t, dst, i)[0].i;
    One(h, n, x);
    y := Do(h, n, x).value;
  }

  lemma StoreRegOk<W>(h: Host<W>, i: RegIx, src: Reg, v: u32, x: X<W>) returns (y: X<W>)
    requires h.Valid() && |x.r| == 16 && x.r[RDI] == CpuPtr && x.cpu.Valid() && x.r[src] == Num(v)
    ensures Run(h, StoreReg(h.t, i, src), x) == Go(y)
    ensures y == x.(cpu := x.cpu.(regs := Wr(x.cpu.regs, i, v)))
  {
    hide CallShim, Shift32, DoCall, Arith;
    if i == 0 {
      y := x;
    } else {
      var n := StoreReg(h.t, i, src)[0].i;
      One(h, n, x);
      y := Do(h, n, x).value;
    }
  }

  lemma AluRhsOk<W>(h: Host<W>, op: Alu2, imm: Option<u32>, a: u32, b: u32, x: X<W>) returns (y: X<W>)
    requires |x.r| == 16 && x.r[RAX] == Num(a) && (if imm.Some? then imm.value == b else x.r[RCX] == Num(b))
    ensures Run(h, AluRhs(op, imm), x) == Go(y)
    ensures y == Arith(op, x, RAX, a, b)
  {
    hide CallShim, DoMem, Shift32, DoCall, Alu32;
    var n := AluRhs(op, imm)[0].i;
    One(h, n, x);
    y := Do(h, n, x).value;
  }

  /** The flags of `cmp` decide signed and unsigned order. */
  lemma CmpDecides(a: u32, b: u32)
    ensures Cond(L, CmpFlags(a, b)) == (Signed(a) < Signed(b))
    ensures Cond(Cc.Ge, CmpFlags(a, b)) == (Signed(a) >= Signed(b))
    ensures Cond(E, CmpFlags(a, b)) == (a == b)
  {
    var sd := Signed(a) - Signed(b);
    assert W32(a - b) == W32(sd);
  }

  lemma SetOk<W>(h: Host<W>, cc: Cc, x: X<W>) returns (y: X<W>)
    requires |x.r| == 16 && x.flags.Some?
    ensures Run(h, [I(SetCc(cc, R9))] + [I(MovzxR8(RAX, R9))], x) == Go(y)
    ensures Scratch(x, y) && y.cpu == x.cpu && y.r[RAX] == Num(if Cond(cc, x.flags.value) then 1 else 0)
  {
    var s1 := Do(h, SetCc(cc, R9), x).value;
    One(h, SetCc(cc, R9), x);
    Then(h, [I(SetCc(cc, R9))], [I(MovzxR8(RAX, R9))], x, s1);
    y := Do(h, MovzxR8(RAX, R9), s1).value;
    One(h, MovzxR8(RAX, R9), s1);
  }

  lemma CompareOk<W>(h: Host<W>, op: AluOp, imm: Option<u32>, a: u32, b: u32, x: X<W>) returns (y: X<W>)
    requires |x.r| == 16 && x.r[RAX] == Num(a) && (if imm.Some? then imm.value == b else x.r[RCX] == Num(b))
    requires op == Slt || op == Sltu
    ensures Run(h, AluCode(op, imm), x) == Go(y)
    ensures Scratch(x, y) && y.cpu == x.cpu && y.r[RAX] == Num(Alu(op, a, b))
  {
    hide Do, Run, AluCode, AluRhs, Alu, Cond, CmpFlags;
    var s0 := AluRhsOk(h, XCmp, imm, a, b, x);
    CompareMeans(op, a, b);
    var cc := CompareCc(op);
    y := SetOk(h, cc, s0);
    Then(h, AluRhs(XCmp, imm), [I(SetCc(cc, R9))] + [I(MovzxR8(RAX, R9))], x, s0);
    CompareCode(op, imm);
  }

  function CompareCc(op: AluOp): Cc { if op == Slt then L else B }

  lemma CompareMeans(op: AluOp, a: u32, b: u32)
    requires op == Slt || op == Sltu
    ensures Alu(op, a, b) == if Cond(CompareCc(op), CmpFlags(a, b)) then 1 else 0
  {
    CmpDecides(a, b);
  }

  lemma CompareCode(op: AluOp, imm: Option<u32>)
    requires op == Slt || op == Sltu
    ensures AluCode(op, imm) == AluRhs(XCmp, imm) + ([I(SetCc(CompareCc(op), R9))] + [I(MovzxR8(RAX, R9))])
  {
  }

  /** The count register's low byte, masked to 5 bits, is `rs2` masked to 5 bits. */
  lemma LowFive(b: nat)
    ensures b % 256 % 32 == b % 32 && b % 32 % 32 == b % 32
  {
    var q, h, l := b / 256, b % 256 / 32, b % 256 % 32;
    Rest32(b, 8 * q + h, l);
    Rest32(l, 0, l);
  }

  lemma Rest32(b: nat, k: nat, l: nat)
    requires b == 32 * k + l && l < 32
    ensures b % 32 == l
  {
  }

  lemma ShiftMeans(op: AluOp, a: u32, b: u32)
    requires op == Sll || op == Srl || op == Sra
    ensures Shift32(ShiftOf(op), a, b % 256) == Alu(op, a, b)
    ensures Shift32(ShiftOf(op), a, b % 32) == Alu(op, a, b)
  {
    hide Shl32, Shr32, Sar32;
    LowFive(b);
  }

  lemma ShiftRun<W>(h: Host<W>, n: Instr, k: ShiftKind, a: u32, v: u32, x: X<W>) returns (y: X<W>)
    requires |x.r| == 16 && x.r[RAX] == Num(a)
    requires
      || (n == ShiftCl(k, RAX) && x.r[RCX].Num? && v == Shift32(k, a, x.r[RCX].n % 256))
      || (n.ShiftImm? && n.kind == k && n.dst == RAX && v == Shift32(k, a, n.imm8))
    ensures Run(h, [I(n)], x) == Go(y)
    ensures Scratch(x, y) && y.cpu == x.cpu && y.r[RAX] == Num(v)
  {
    hide Shift32, Alu32, Bits32, CallShim, DoMem, DoCall;
    One(h, n, x);
    y := Do(h, n, x).value;
  }

  lemma ShiftOk<W>(h: Host<W>, op: AluOp, imm: Option<u32>, a: u32, b: u32, x: X<W>) returns (y: X<W>)
    requires |x.r| == 16 && x.r[RAX] == Num(a) && (if imm.Some? then imm.value == b else x.r[RCX] == Num(b))
    requires op == Sll || op == Srl || op == Sra
    ensures Run(h, AluCode(op, imm), x) == Go(y)
    ensures Scratch(x, y) && y.cpu == x.cpu && y.r[RAX] == Num(Alu(op, a, b))
  {
    hide Do;
    ShiftMeans(op, a, b);
    var n := if imm.Some? then ShiftImm(ShiftOf(op), RAX, b % 32) else ShiftCl(ShiftOf(op), RAX);
    y := ShiftRun(h, n, ShiftOf(op), a, Alu(op, a, b), x);
    assert AluCode(op, imm) == [I(n)];
  }

  lemma BinMeans(op: AluOp, a: u32, b: u32)
    requires Bin(op).Some?
    ensures Bin(op).value != XCmp && Alu32(Bin(op).value, a, b) == Alu(op, a, b)
  {
  }

  lemma AluOk<W>(h: Host<W>, op: AluOp, imm: Option<u32>, a: u32, b: u32, x: X<W>) returns (y: X<W>)
    requires |x.r| == 16 && x.r[RAX] == Num(a) && (if imm.Some? then imm.value == b else x.r[RCX] == Num(b))
    ensures Run(h, AluCode(op, imm), x) == Go(y)
    ensures Scratch(x, y) && y.cpu == x.cpu && y.r[RAX] == Num(Alu(op, a, b))
  {
    hide Run, Do, Alu, Alu32, AluRhs;
    if Bin(op).Some? {
      BinMeans(op, a, b);
      y := AluRhsOk(h, Bin(op).value, imm, a, b, x);
    } else if op == Slt || op == Sltu {
      y := CompareOk(h, op, imm, a, b, x);
    } else {
      y := ShiftOk(h, op, imm, a, b, x);
    }
  }

  lemma BumpOk<W>(h: Host<W>, x: X<W>) returns (y: X<W>)
    requires h.Valid() && |x.r| == 16 && x.r[RDI] == CpuPtr
    ensures Run(h, Bump(h.t.lay.retired), x) == Go(y)
    ensures y == x.(cpu := x.cpu.(retired := W64(x.cpu.retired + 1)), flags := None)
  {
    hide CallShim, Shift32, DoCall, Arith;
    var n := AddQ(RDI, h.t.lay.retired, 1);
    One(h, n, x);
    y := Do(h, n, x).value;
  }

  lemma CountOk<W>(h: Host<W>, off: u32, x: X<W>) returns (y: X<W>)
    requires h.Valid() && |x.r| == 16 && x.r[RDI] == CpuPtr && (off == h.t.lay.hits || off == h.t.lay.bails)
    ensures Run(h, Bump(off), x) == Go(y)
    ensures y == x.(cpu := y.cpu, flags := None) && Same(y.cpu, x.cpu)
  {
    hide CallShim, Shift32, DoCall, Arith;
    var n := AddQ(RDI, off, 1);
    One(h, n, x);
    y := Do(h, n, x).value;
  }

  /** `lea` off the pinned entry pc. */
  lemma LeaOk<W>(h: Host<W>, dst: Reg, off: u32, entry: u32, x: X<W>) returns (y: X<W>)
    requires |x.r| == 16 && x.r[R8] == Num(entry)
    ensures Run(h, [I(Mem(Lea32, dst, R8, off))], x) == Go(y)
    ensures y == SetNum(x, dst, W32(entry + off))
  {
    hide CallShim, Shift32, DoCall, Arith;
    var n := Mem(Lea32, dst, R8, off);
    One(h, n, x);
    y := Do(h, n, x).value;
  }

  lemma PutPcOk<W>(h: Host<W>, src: Reg, v: u32, x: X<W>) returns (y: X<W>)
    requires h.Valid() && |x.r| == 16 && x.r[RDI] == CpuPtr && x.r[src] == Num(v)
    ensures Run(h, [I(Mem(Store32, src, RDI, h.t.lay.pc))], x) == Go(y)
    ensures y == x.(cpu := x.cpu.(pc := v))
  {
    hide CallShim, Shift32, DoCall, Arith;
    var n := Mem(Store32, src, RDI, h.t.lay.pc);
    One(h, n, x);
    y := Do(h, n, x).value;
  }

  lemma SetPcOk<W>(h: Host<W>, scratch: Reg, off: u32, entry: u32, x: X<W>) returns (y: X<W>)
    requires h.Valid() && |x.r| == 16 && x.r[RDI] == CpuPtr && x.r[R8] == Num(entry)
    requires scratch == RAX || scratch == RCX
    ensures Run(h, SetPc(h.t, scratch, off), x) == Go(y)
    ensures y == SetNum(x, scratch, W32(entry + off)).(cpu := x.cpu.(pc := W32(entry + off)))
  {
    hide Do;
    var s := LeaOk(h, scratch, off, entry, x);
    y := PutPcOk(h, scratch, W32(entry + off), s);
    Then(h, [I(Mem(Lea32, scratch, R8, off))], [I(Mem(Store32, scratch, RDI, h.t.lay.pc))], x, s);
  }

  lemma LinkOk<W>(h: Host<W>, rd: RegIx, off: u32, entry: u32, x: X<W>) returns (y: X<W>)
    requires h.Valid() && Args(x) && x.r[R8] == Num(entry) && x.cpu.Valid()
    ensures Run(h, Link(h.t, rd, off), x) == Go(y)
    ensures Scratch(x, y) && y.r[RCX] == x.r[RCX]
    ensures y.cpu == x.cpu.(regs := Wr(x.cpu.regs, rd, W32(entry + off)))
  {
    hide Do;
    if rd == 0 {
      y := x;
    } else {
      var s := LeaOk(h, RAX, off, entry, x);
      y := StoreRegOk(h, rd, RAX, W32(entry + off), s);
      Then(h, [I(Mem(Lea32, RAX, R8, off))], StoreReg(h.t, rd, RAX), x, s);
    }
  }

  lemma VaOk<W>(h: Host<W>, rs1: RegIx, imm: u32, x: X<W>) returns (y: X<W>)
    requires h.Valid() && Args(x) && x.cpu.Valid()
    ensures Run(h, VaCode(h.t, rs1, imm), x) == Go(y)
    ensures Scratch(x, y) && y.cpu == x.cpu && y.r[RCX] == Num(W32(Rd(x.cpu.regs, rs1) + imm))
  {
    hide CallShim, DoMem, Shift32, DoCall, LoadReg;
    var s := LoadRegOk(h, RCX, rs1, x);
    var n := AluRI(XAdd, RCX, imm);
    One(h, n, s);
    y := Do(h, n, s).value;
    Then(h, LoadReg(h.t, RCX, rs1), [I(n)], x, s);
  }

  lemma PushOk<W>(h: Host<W>, r: Reg, x: X<W>) returns (y: X<W>)
    requires |x.r| == 16
    ensures Run(h, [I(Push(r))], x) == Go(y)
    ensures y == x.(stack := x.stack + [x.r[r]])
  {
    hide CallShim, Shift32, DoCall, Arith, DoMem;
    One(h, Push(r), x);
    y := Do(h, Push(r), x).value;
  }

  lemma PopOk<W>(h: Host<W>, r: Reg, x: X<W>, rest: seq<Val>, v: Val) returns (y: X<W>)
    requires |x.r| == 16 && x.stack == rest + [v]
    ensures Run(h, [I(Pop(r))], x) == Go(y)
    ensures y == x.(r := x.r[r := v], stack := rest)
  {
    hide CallShim, Shift32, DoCall, Arith, DoMem;
    One(h, Pop(r), x);
    y := Do(h, Pop(r), x).value;
  }

  function Saved<W>(first: Reg, x: X<W>): seq<Val>
    requires |x.r| == 16
  {
    [x.r[first], x.r[RDI], x.r[RSI], x.r[RDX], x.r[R8]]
  }

  lemma SavesOk<W>(h: Host<W>, first: Reg, x: X<W>) returns (y: X<W>)
    requires |x.r| == 16
    ensures Run(h, Saves(first), x) == Go(y)
    ensures y == x.(stack := x.stack + Saved(first, x))
  {
    hide Do;
    var a := PushOk(h, first, x);
    var b := PushOk(h, RDI, a);
    var c := PushOk(h, RSI, b);
    var d := PushOk(h, RDX, c);
    y := PushOk(h, R8, d);
    var p1, p2, p3, p4, p5 := [I(Push(first))], [I(Push(RDI))], [I(Push(RSI))], [I(Push(RDX))], [I(Push(R8))];
    Then(h, p1, p2, x, a);
    Then(h, p1 + p2, p3, x, b);
    Then(h, p1 + p2 + p3, p4, x, c);
    Then(h, p1 + p2 + p3 + p4, p5, x, d);
  }

  lemma RestoresOk<W>(h: Host<W>, first: Reg, x: X<W>, v: seq<Val>) returns (y: X<W>)
    requires |x.r| == 16 && |v| == 5 && x.stack == v && (first == RCX || first == R9)
    ensures Run(h, Restores(first), x) == Go(y)
    ensures |y.r| == 16 && y.stack == [] && y.cpu == x.cpu && y.r[RAX] == x.r[RAX]
    ensures [y.r[first], y.r[RDI], y.r[RSI], y.r[RDX], y.r[R8]] == v
  {
    hide Do, Run;
    var a := PopOk(h, R8, x, v[..4], v[4]);
    var b := PopOk(h, RDX, a, v[..3], v[3]);
    var c := PopOk(h, RSI, b, v[..2], v[2]);
    var d := PopOk(h, RDI, c, v[..1], v[1]);
    y := PopOk(h, first, d, [], v[0]);
    var p1, p2, p3, p4, p5 := [I(Pop(R8))], [I(Pop(RDX))], [I(Pop(RSI))], [I(Pop(RDI))], [I(Pop(first))];
    Then(h, p1, p2, x, a);
    Then(h, p1 + p2, p3, x, b);
    Then(h, p1 + p2 + p3, p4, x, c);
    Then(h, p1 + p2 + p3 + p4, p5, x, d);
  }

  lemma DoCallOk<W>(h: Host<W>, s: Shim, va: u32, val: Option<u32>, x: X<W>)
    requires h.Valid() && Args(x) && x.r[RCX] == Num(va) && |x.stack| % 2 == 1
    requires val == if x.r[R8].Num? then Some(W32(x.r[R8].n)) else None
    requires CallShim(h.bus, s, x.cpu, va, val).Some? && x.r[R11] == Num(h.t.addr(s))
    ensures DoCall(h, R11, x).Some?
    ensures var y := DoCall(h, R11, x).value;
      |y.r| == 16 && y.stack == x.stack && (y.cpu, y.r[RAX]) == CallShim(h.bus, s, x.cpu, va, val).value
  {
    hide CallShim;
    assert h.at(x.r[R11].n) == Some(s);
  }

  lemma CallOk<W>(h: Host<W>, s: Shim, va: u32, val: Option<u32>, x: X<W>) returns (y: X<W>)
    requires h.Valid() && Args(x) && x.r[RCX] == Num(va) && |x.stack| % 2 == 1
    requires val == if x.r[R8].Num? then Some(W32(x.r[R8].n)) else None
    requires CallShim(h.bus, s, x.cpu, va, val).Some?
    ensures Run(h, CallCode(h.t, s), x) == Go(y)
    ensures |y.r| == 16 && y.stack == x.stack && (y.cpu, y.r[RAX]) == CallShim(h.bus, s, x.cpu, va, val).value
  {
    hide CallShim, DoMem, Shift32, Arith;
    var m := SetNum(x, R11, h.t.addr(s));
    One(h, MovImm64(R11, h.t.addr(s)), x);
    DoCallOk(h, s, va, val, m);
    y := DoCall(h, R11, m).value;
    One(h, CallR(R11), m);
    Then(h, [I(MovImm64(R11, h.t.addr(s)))], [I(CallR(R11))], x, m);
  }

  lemma SameFive<W>(first: Reg, x: X<W>, y: X<W>)
    requires |x.r| == 16 && |y.r| == 16 && Saved(first, x) == [y.r[first], y.r[RDI], y.r[RSI], y.r[RDX], y.r[R8]]
    ensures x.r[first] == y.r[first] && x.r[RDI] == y.r[RDI] && x.r[RSI] == y.r[RSI]
    ensures x.r[RDX] == y.r[RDX] && x.r[R8] == y.r[R8]
  {
    var v := Saved(first, x);
    assert v[0] == x.r[first] && v[1] == x.r[RDI] && v[2] == x.r[RSI] && v[3] == x.r[RDX] && v[4] == x.r[R8];
  }

  /** Whatever runs between the saves and the restores, the pinned registers survive it. */
  lemma ProtectedOk<W>(h: Host<W>, first: Reg, mid: seq<Node>, x: X<W>, s1: X<W>, s2: X<W>) returns (y: X<W>)
    requires |x.r| == 16 && x.stack == [] && (first == RCX || first == R9)
    requires s1 == x.(stack := Saved(first, x)) && Run(h, mid, s1) == Go(s2) && s2.stack == s1.stack && |s2.r| == 16
    ensures Run(h, Protect(first, mid), x) == Go(y)
    ensures Scratch(x, y) && y.r[first] == x.r[first] && y.cpu == s2.cpu && y.r[RAX] == s2.r[RAX]
  {
    hide Do;
    var s := SavesOk(h, first, x);
    assert [] + Saved(first, x) == Saved(first, x);
    var v := Saved(first, x);
    y := RestoresOk(h, first, s2, v);
    SameFive(first, x, y);
    Then2(h, Saves(first), mid, Restores(first), x, s1, s2);
  }

  lemma FastCallOk<W>(h: Host<W>, s: Shim, va: u32, x: X<W>, c: Cpu<W>, rax: Val) returns (y: X<W>)
    requires h.Valid() && Args(x) && x.r[RCX] == Num(va) && x.stack == []
    requires forall val :: CallShim(h.bus, s, x.cpu, va, val) == Some((c, rax))
    ensures Run(h, FastCall(h.t, s), x) == Go(y)
    ensures Scratch(x, y) && y.r[RCX] == Num(va) && y.cpu == c && y.r[RAX] == rax
  {
    hide Do;
    var s1 := x.(stack := Saved(RCX, x));
    var s2 := CallOk(h, s, va, if x.r[R8].Num? then Some(W32(x.r[R8].n)) else None, s1);
    y := ProtectedOk(h, RCX, CallCode(h.t, s), x, s1, s2);
  }

  lemma TestOk<W>(h: Host<W>, x: X<W>) returns (y: X<W>)
    requires |x.r| == 16 && (x.r[RAX].Num? || x.r[RAX].HostPtr?)
    ensures Run(h, [I(TestQ(RAX, RAX))], x) == Go(y)
    ensures y.flags.Some? && y == x.(flags := y.flags)
    ensures y.flags.value.zf == (x.r[RAX] == Num(0))
    ensures y.flags.value.sf == (x.r[RAX].Num? && x.r[RAX].n >= TAG_TRAP)
  {
    hide CallShim, Shift32, DoCall, Arith, DoMem;
    One(h, TestQ(RAX, RAX), x);
    y := Do(h, TestQ(RAX, RAX), x).value;
  }

  lemma BranchOk<W>(h: Host<W>, n: Node, x: X<W>)
    requires |x.r| == 16 && n.IfElse? && x.flags.Some?
    ensures Run(h, [n], x) == Run(h, if Cond(n.cc, x.flags.value) then n.thn else n.els, x)
  {
    hide Do;
    assert [n][1..] == [];
  }

  lemma SkipOk<W>(h: Host<W>, n: Node, x: X<W>)
    requires |x.r| == 16 && n.Skip? && x.flags.Some?
    ensures Run(h, [n], x) == if Cond(n.cc, x.flags.value) then Go(x) else Run(h, n.inner, x)
  {
    hide Do;
    assert [n][1..] == [];
  }

  function Tag<W>(o: Outcome<W>): u64
  {
    match o
    case Done(_) => 0
    case Trapped(_, _) => TAG_TRAP
    case Halted(_, code) => W64(TAG_HALT + code)
    case Repoll(_) => TAG_REPOLL
  }

  /** The hart as the driver finds it: a trap waits in `pending`. */
  function Final<W>(o: Outcome<W>): Cpu<W>
  {
    match o
    case Trapped(c, t) => c.(pending := Some(t))
    case _ => o.c
  }

  /** The native call returned what outcome `o` demands, with the argument registers, the pinned
      entry pc and the stack as it found them. */
  ghost predicate Delivered<W>(r: Out<W>, o: Outcome<W>, entry: u32)
  {
    r.Returned? && Args(r.x) && r.x.r[R8] == Num(entry) && r.x.stack == [] &&
    r.x.r[RAX] == Num(Tag(o)) && Same(r.x.cpu, Final(o))
  }

  lemma RetOk<W>(h: Host<W>, x: X<W>)
    requires |x.r| == 16 && x.stack == []
    ensures Run(h, [I(Ret)], x) == Returned(x)
  {
    hide Do;
  }

  lemma StopsHere<W>(h: Host<W>, a: seq<Node>, b: seq<Node>, x: X<W>)
    requires |x.r| == 16 && Run(h, a, x).Returned?
    ensures Run(h, a + b, x) == Run(h, a, x)
  {
    hide Do;
    RunAppend(h, a, b, x);
  }
}
