/** The time register as loads see it (crates/fs-platform/src/lib.rs): which loads read it, what they take in
    of it, and that nothing else depends on it. */
module TimeReads {
  import opened Words
  import opened Rv32
  import opened Decoding
  import opened System

  function AtTime<R>(w: World<R>, m: u64): World<R> { w.(clint := w.clint.(mtime := m)) }

  function CpuAt<R>(c: Cpu<World<R>>, m: u64): Cpu<World<R>> { c.(world := AtTime(c.world, m)) }

  /** The two addresses at which the time can be read. */
  predicate MtimeAt(a: u32) { a == CLINT_BASE + MTIME || a == CLINT_BASE + MTIME + 4 }

  function Byte(a: u32, i: int): u32 { W32(a + i) }

  ghost predicate Sees(a: u32, n: nat)
  {
    if Misaligned(a, n) then exists i | 0 <= i < n :: MtimeAt(Byte(a, i)) else MtimeAt(a)
  }

  lemma {:induction false} LoadBytesBlind<R>(ram: Bus<R>, w: World<R>, a: u32, n: nat, m: u64)
    requires forall i | 0 <= i < n :: !MtimeAt(Byte(a, i))
    ensures var (w', res) := LoadBytes(ram, w, a, n); LoadBytes(ram, AtTime(w, m), a, n) == (AtTime(w', m), res)
    decreases n
  {
    if n > 0 {
      assert Byte(a, 0) == a;
      var (w1, b) := Route(ram, w, a, 1);
      assert Route(ram, AtTime(w, m), a, 1) == (AtTime(w1, m), b);
      var a1 := W32(a + 1);
      forall i | 0 <= i < n - 1 ensures !MtimeAt(Byte(a1, i)) {
        WrapShift(a, 1, i);
        assert !MtimeAt(Byte(a, i + 1));
      }
      LoadBytesBlind(ram, w1, a1, n - 1, m);
    }
  }

  lemma LoadBlind<R>(ram: Bus<R>, w: World<R>, a: u32, n: nat, m: u64)
    requires !Sees(a, n)
    ensures var (w', res) := LoadVa(ram, w, a, n); LoadVa(ram, AtTime(w, m), a, n) == (AtTime(w', m), res)
  {
    hide W32;
    if Misaligned(a, n) {
      LoadBytesBlind(ram, w, a, n, m);
    }
  }

  lemma {:induction false} StoreBytesBlind<R>(ram: Bus<R>, w: World<R>, a: u32, n: nat, v: u32, m: u64)
    ensures var (w', res) := StoreBytes(ram, w, a, n, v); StoreBytes(ram, AtTime(w, m), a, n, v) == (AtTime(w', m), res)
    decreases n
  {
    hide W32;
    if n > 0 {
      var (w1, e) := RouteStore(ram, w, a, 1, v % 256);
      assert RouteStore(ram, AtTime(w, m), a, 1, v % 256) == (AtTime(w1, m), e);
      if e.None? {
        StoreBytesBlind(ram, w1, W32(a + 1), n - 1, v / 256, m);
      }
    }
  }

  lemma StoreBlind<R>(ram: Bus<R>, w: World<R>, a: u32, n: nat, v: u32, m: u64)
    ensures var (w', res) := StoreVa(ram, w, a, n, v); StoreVa(ram, AtTime(w, m), a, n, v) == (AtTime(w', m), res)
  {
    if Misaligned(a, n) {
      StoreBytesBlind(ram, w, a, n, v, m);
    }
  }

  function ExecAt<R>(x: Exec<World<R>>, m: u64): Exec<World<R>>
  {
    match x
    case Next(c) => Next(CpuAt(c, m))
    case Halt(c, code) => Halt(CpuAt(c, m), code)
    case Fault(c, t) => Fault(CpuAt(c, m), t)
  }

  ghost predicate ReadsMtime<R>(i: Inst, c: Cpu<World<R>>)
    requires c.Valid()
  {
    i.Load? && Sees(W32(Rd(c.regs, i.rs1) + i.imm), LoadSize(i.lop))
  }

  /** An instruction that does not read the time does the same at any time. */
  lemma ExecBlind<R>(ram: Bus<R>, i: Inst, ilen: u32, c: Cpu<World<R>>, m: u64)
    requires c.Valid() && !i.Other? && !ReadsMtime(i, c)
    ensures ExecOne(SysBus(ram), i, ilen, CpuAt(c, m)) == ExecAt(ExecOne(SysBus(ram), i, ilen, c), m)
  {
    hide W32, Alu, Bits32, LoadVa, StoreVa, Sees, Rd, Wr;
    if i.Load? {
      LoadBlind(ram, c.world, W32(Rd(c.regs, i.rs1) + i.imm), LoadSize(i.lop), m);
    } else if i.Store? {
      StoreBlind(ram, c.world, W32(Rd(c.regs, i.rs1) + i.imm), StoreSize(i.sop), Rd(c.regs, i.rs2), m);
    } else {
      PlainBlind(ram, i, ilen, c, m);
    }
  }

  lemma PlainBlind<R>(ram: Bus<R>, i: Inst, ilen: u32, c: Cpu<World<R>>, m: u64)
    requires c.Valid() && !i.Other? && !i.Load? && !i.Store?
    ensures ExecOne(SysBus(ram), i, ilen, CpuAt(c, m)) == ExecAt(ExecOne(SysBus(ram), i, ilen, c), m)
  {
    hide W32, Alu, SysBus;
  }

  // ----- reading the time -----

  /** The half of the time at offset 0 or 4, as a load of it sees it. */
  function Half(t: u64, low: bool): u32 { if low then W32(t) else W32(t / TWO32) }

  /** What a load that reads the time takes in of time `t`: one half, or the part of it that survives the
      load's width. The device ignores the width; only sign extension and byte-wise access cut the word. */
  function Glimpse(op: LoadOp, a: u32, t: u64): u32
  {
    var low := a <= CLINT_BASE + MTIME < a + LoadSize(op);
    if Misaligned(a, LoadSize(op)) then Half(t, low) % 0x100
    else
      match op
      case Lb => Half(t, low) % 0x100
      case Lh => Half(t, low) % 0x1_0000
      case _ => Half(t, low)
  }

  /** A byte of the CLINT's window. */
  function ClintByte(k: Clint, a: u32): u32
    requires InClint(a)
  {
    ClintLoad(k, a - CLINT_BASE) % 256
  }

  lemma OneMore<R>(ram: Bus<R>, w: World<R>, a: u32, n: nat, v: u32)
    requires InClint(a) && a + 1 < TWO32 && v < 0x100_0000
    requires LoadBytes(ram, w, a + 1, n) == (w, Ok(v))
    ensures LoadBytes(ram, w, a, n + 1) == (w, Ok(ClintByte(w.clint, a) + 256 * v))
  {
    hide W32, ClintByte, Route, ClintLoad;
    assert W32(a + 1) == a + 1 by { Within(a + 1); }
    ByteRoute(ram, w, a);
    SmallBytes(w.clint, a);
    var b := ClintByte(w.clint, a);
    assert W32(b + 256 * v) == b + 256 * v by { Within(b + 256 * v); }
  }

  lemma Within(x: int)
    requires 0 <= x < TWO32
    ensures W32(x) == x
  {
  }

  lemma ByteRoute<R>(ram: Bus<R>, w: World<R>, a: u32)
    requires InClint(a)
    ensures var (w1, b) := Route(ram, w, a, 1); w1 == w && b.Ok? && b.value % 256 == ClintByte(w.clint, a)
  {
    hide ClintLoad;
  }

  lemma TwoBytes<R>(ram: Bus<R>, w: World<R>, a: u32)
    requires InClint(a) && a + 2 < CLINT_BASE + CLINT_SIZE
    ensures LoadBytes(ram, w, a, 2) == (w, Ok(ClintByte(w.clint, a) + 256 * ClintByte(w.clint, a + 1)))
  {
    hide ClintByte, Route;
    assert LoadBytes(ram, w, a + 2, 0) == (w, Ok(0));
    SmallBytes(w.clint, a + 1);
    OneMore(ram, w, a + 1, 0, 0);
    OneMore(ram, w, a, 1, ClintByte(w.clint, a + 1));
  }

  lemma FourBytes<R>(ram: Bus<R>, w: World<R>, a: u32)
    requires InClint(a) && a + 4 < CLINT_BASE + CLINT_SIZE
    ensures LoadBytes(ram, w, a, 4) == (w, Ok(ClintByte(w.clint, a) + 256 * ClintByte(w.clint, a + 1) +
      0x1_0000 * ClintByte(w.clint, a + 2) + 0x100_0000 * ClintByte(w.clint, a + 3)))
  {
    hide LoadBytes, ClintByte, Route, W32;
    var b1, b2, b3 := ClintByte(w.clint, a + 1), ClintByte(w.clint, a + 2), ClintByte(w.clint, a + 3);
    SmallBytes(w.clint, a);
    SmallBytes(w.clint, a + 1);
    SmallBytes(w.clint, a + 2);
    SmallBytes(w.clint, a + 3);
    TwoBytes(ram, w, a + 2);
    OneMore(ram, w, a + 1, 2, b2 + 256 * b3);
    OneMore(ram, w, a, 3, b1 + 256 * (b2 + 256 * b3));
  }

  lemma SmallBytes(k: Clint, a: u32)
    requires InClint(a)
    ensures ClintByte(k, a) < 256
  {
  }

  /** The value of a load that reads the time, as a function of the time. */
  function TimeRead(op: LoadOp, k: Clint, a: u32): u32
    requires Sees(a, LoadSize(op))
  {
    if !Misaligned(a, LoadSize(op)) then (NearTime(a, LoadSize(op)); ClintLoad(k, a - CLINT_BASE))
    else
      NearTime(a, LoadSize(op));
      if LoadSize(op) == 2 then ClintByte(k, a) + 256 * ClintByte(k, a + 1)
      else ClintByte(k, a) + 256 * ClintByte(k, a + 1) + 0x1_0000 * ClintByte(k, a + 2) + 0x100_0000 * ClintByte(k, a + 3)
  }

  lemma NearTime(a: u32, n: nat)
    requires Sees(a, n) && n <= 4
    ensures CLINT_BASE + MTIME - 3 <= a <= CLINT_BASE + MTIME + 4
  {
  }

  lemma TimeLoad<R>(ram: Bus<R>, op: LoadOp, w: World<R>, a: u32)
    requires Sees(a, LoadSize(op))
    ensures LoadVa(ram, w, a, LoadSize(op)) == (w, Ok(TimeRead(op, w.clint, a)))
  {
    hide LoadBytes, ClintByte;
    NearTime(a, LoadSize(op));
    if Misaligned(a, LoadSize(op)) {
      if LoadSize(op) == 2 {
        TwoBytes(ram, w, a);
      } else {
        FourBytes(ram, w, a);
      }
    }
  }

  /** What is around the one byte of the time that an unaligned load takes in, and where that byte goes. */
  function Around(a: u32, b: u32): int
  {
    var d := a - (CLINT_BASE + MTIME);
    if d == -3 then 0xff_ffff + 0x100_0000 * b
    else if d == -2 then 0xffff + 0x1_0000 * b
    else if d == -1 then 0xff + 0x100 * b
    else if d == 1 then 0x100_0000 * b
    else if d == 2 then 0x1_0000 * b
    else 0x100 * b
  }

  lemma UnalignedRead(op: LoadOp, k: Clint, a: u32)
    requires Sees(a, LoadSize(op)) && Misaligned(a, LoadSize(op))
    ensures var low := a <= CLINT_BASE + MTIME < a + LoadSize(op);
      TimeRead(op, k, a) == Around(a, Half(k.mtime, low) % 0x100)
  {
    hide W32;
    NearTime(a, LoadSize(op));
    Bytes(k);
    WhichByte(a, LoadSize(op));
  }

  lemma WhichByte(a: u32, n: nat)
    requires Sees(a, n) && Misaligned(a, n) && (n == 2 || n == 4)
    ensures var d := a - (CLINT_BASE + MTIME);
      if n == 2 then d == -1 || d == 3 else d == -3 || d == -2 || d == -1 || d == 1 || d == 2 || d == 3
  {
    NearTime(a, n);
  }

  lemma Bytes(k: Clint)
    ensures var t := CLINT_BASE + MTIME;
      && ClintByte(k, t - 3) == ClintByte(k, t - 2) == ClintByte(k, t - 1) == 0xff
      && ClintByte(k, t) == Half(k.mtime, true) % 0x100 && ClintByte(k, t + 4) == Half(k.mtime, false) % 0x100
      && ClintByte(k, t + 1) == ClintByte(k, t + 2) == ClintByte(k, t + 3) == 0
      && ClintByte(k, t + 5) == ClintByte(k, t + 6) == 0
  {
    hide W32;
  }

  lemma AlignedRead(op: LoadOp, k: Clint, a: u32)
    requires Sees(a, LoadSize(op)) && !Misaligned(a, LoadSize(op))
    ensures TimeRead(op, k, a) == Half(k.mtime, a <= CLINT_BASE + MTIME < a + LoadSize(op))
  {
    hide W32;
  }

  /** Extension keeps apart what the load's width does. */
  lemma ExtendDecides(op: LoadOp, u: u32, v: u32)
    ensures Extend(op, u) == Extend(op, v) <==>
      match op case Lb => u % 0x100 == v % 0x100 case Lh => u % 0x1_0000 == v % 0x1_0000 case _ => u == v
  {
  }

  lemma AroundDecides(op: LoadOp, a: u32, b: u32, c: u32)
    requires Sees(a, LoadSize(op)) && Misaligned(a, LoadSize(op)) && b < 0x100 && c < 0x100
    ensures 0 <= Around(a, b) < TWO32 && 0 <= Around(a, c) < TWO32
    ensures Extend(op, Around(a, b)) == Extend(op, Around(a, c)) <==> b == c
  {
    hide Sees, SignExtend, Extend;
    WhichByte(a, LoadSize(op));
    ExtendDecides(op, Around(a, b), Around(a, c));
  }

  /** Two times give such a load the same result iff it takes in the same of both. */
  lemma GlimpseDecides(op: LoadOp, k: Clint, a: u32, m: u64, t: u64)
    requires Sees(a, LoadSize(op))
    ensures Extend(op, TimeRead(op, k.(mtime := m), a)) == Extend(op, TimeRead(op, k.(mtime := t), a)) <==>
      Glimpse(op, a, m) == Glimpse(op, a, t)
  {
    hide Sees, SignExtend, Extend, TimeRead, W32, Around, Half;
    var low := a <= CLINT_BASE + MTIME < a + LoadSize(op);
    if Misaligned(a, LoadSize(op)) {
      UnalignedRead(op, k.(mtime := m), a);
      UnalignedRead(op, k.(mtime := t), a);
      AroundDecides(op, a, Half(m, low) % 0x100, Half(t, low) % 0x100);
    } else {
      AlignedRead(op, k.(mtime := m), a);
      AlignedRead(op, k.(mtime := t), a);
      ExtendDecides(op, Half(m, low), Half(t, low));
    }
  }

  /** A load that reads the time never faults, and at two times it leaves the same hart, but for the time
      itself, iff it discards its result or takes in the same of both. */
  lemma TimedLoad<R>(ram: Bus<R>, i: Inst, ilen: u32, c: Cpu<World<R>>, m: u64)
    requires c.Valid() && !i.Other? && ReadsMtime(i, c)
    ensures var x, y := ExecOne(SysBus(ram), i, ilen, c), ExecOne(SysBus(ram), i, ilen, CpuAt(c, m));
      && x.Next? && y.Next? && x.c.world == c.world && y.c.(regs := x.c.regs) == CpuAt(x.c, m)
      && (y.c == CpuAt(x.c, m) <==>
           i.rd == 0 || Glimpse(i.lop, Address(i, c), c.world.clint.mtime) == Glimpse(i.lop, Address(i, c), m))
  {
    hide W32, TimeRead, Glimpse, Sees, Extend, LoadVa;
    var a, k := Address(i, c), c.world.clint;
    TimeLoad(ram, i.lop, c.world, a);
    TimeLoad(ram, i.lop, AtTime(c.world, m), a);
    GlimpseDecides(i.lop, k, a, k.mtime, m);
    assert k.(mtime := k.mtime) == k;
    var v, u := Extend(i.lop, TimeRead(i.lop, k, a)), Extend(i.lop, TimeRead(i.lop, k.(mtime := m), a));
    WriteSame(c.regs, i.rd, v, u);
  }

  function Address<W>(i: Inst, c: Cpu<W>): u32
    requires c.Valid() && i.Load?
  {
    W32(Rd(c.regs, i.rs1) + i.imm)
  }

  lemma WriteSame(regs: seq<u32>, rd: RegIx, v: u32, u: u32)
    requires |regs| == 32
    ensures Wr(regs, rd, v) == Wr(regs, rd, u) <==> rd == 0 || v == u
  {
    assert rd != 0 ==> Wr(regs, rd, v)[rd] == v && Wr(regs, rd, u)[rd] == u;
  }
}
