/** Every compiled chain is encodable and short, so its bytes run like its structured code. */
module ChainBytes {
  import opened Words
  import opened Rv32
  import opened X86
  import opened ChainCode
  import opened ChainProof
  import opened Encode
  import opened Flat
  import ChainTheorem

  /** Fit for the flat machine and at most `m` bytes long. */
  ghost predicate Fit(n: Node, m: nat) { NodeOk(n) && |NodeBytes(n)| <= m }

  ghost predicate AllFit(code: seq<Node>, m: nat) { forall k | 0 <= k < |code| :: Fit(code[k], m) }

  lemma {:induction false} FitCode(code: seq<Node>, m: nat)
    requires AllFit(code, m)
    ensures CodeOk(code) && |Assemble(code)| <= m * |code|
  {
    hide NodeOk, NodeBytes;
    if code != [] {
      FitCode(code[1..], m);
      assert Fit(code[0], m);
    }
  }

  lemma Weaken(code: seq<Node>, m: nat, m': nat)
    requires AllFit(code, m) && m <= m'
    ensures AllFit(code, m')
  {
    hide NodeOk, NodeBytes;
    forall k | 0 <= k < |code| ensures Fit(code[k], m') {
      assert Fit(code[k], m);
    }
  }

  lemma SkipFit(cc: Cc, inner: seq<Node>, m: nat, a: nat)
    requires AllFit(inner, m) && a == m * |inner| && a < MAX_BLOCK
    ensures Fit(Skip(cc, inner), a + 11)
  {
    FitCode(inner, m);
  }

  lemma IfElseFit(cc: Cc, thn: seq<Node>, els: seq<Node>, m: nat, a: nat, b: nat)
    requires AllFit(thn, m) && AllFit(els, m) && a == m * |thn| && b == m * |els| && a < MAX_BLOCK && b < MAX_BLOCK
    ensures Fit(IfElse(cc, thn, els), a + b + 22)
  {
    FitCode(thn, m);
    FitCode(els, m);
  }

  /** Every straight-line instruction the compiler uses fits in 11 bytes. */
  lemma InstrFit()
    ensures forall i: Instr {:trigger I(i)} :: Encodable(i) && !i.Jcc? && !i.Jmp? ==> Fit(I(i), 11)
  {
    hide Enc, Encodable;
  }

  lemma PieceFit(t: Target)
    ensures forall dst: Reg, i: RegIx :: AllFit(LoadReg(t, dst, i), 11) && AllFit(StoreReg(t, i, dst), 11)
    ensures forall op, imm :: AllFit(AluCode(op, imm), 11)
    ensures forall rd, off :: AllFit(Link(t, rd, off), 11)
    ensures forall off: u32 {:trigger Bump(off)} :: AllFit(Bump(off), 11)
  {
    hide Fit;
    InstrFit();
  }

  lemma CallFit(t: Target, s: Shim, first: Reg, r: RegIx)
    ensures AllFit(Protect(first, CallCode(t, s)), 11)
    ensures AllFit(Protect(first, LoadReg(t, R8, r) + CallCode(t, s)), 11)
    ensures |Protect(first, CallCode(t, s))| == 12 && |Protect(first, LoadReg(t, R8, r) + CallCode(t, s))| == 13
  {
    hide Fit;
    InstrFit();
  }

  lemma FastFit(t: Target, lop: LoadOp, sop: StoreOp, r: RegIx)
    ensures AllFit(FastLoad(t, lop, r), 11) && AllFit(FastStore(t, sop, r), 11)
    ensures |FastLoad(t, lop, r)| <= 4 && |FastStore(t, sop, r)| <= 4
  {
    hide Fit;
    InstrFit();
  }

  lemma SlowLoadFit(t: Target, op: LoadOp, rd: RegIx, off: u32)
    ensures AllFit(SlowLoad(t, op, rd, off), 60) && |SlowLoad(t, op, rd, off)| <= 20
  {
    hide Fit, Protect, CallCode;
    InstrFit();
    CallFit(t, LoadShim(op), R9, 0);
    assert AllFit([I(Ret)], 11);
    SkipFit(Ns, [I(Ret)], 11, 11);
    var call := Protect(R9, CallCode(t, LoadShim(op)));
    Weaken(Bail(t, off) + call + [I(TestQ(RAX, RAX))], 11, 60);
    Weaken([Skip(Ns, [I(Ret)])], 22, 60);
    var rest := Bump(t.lay.retired) + StoreReg(t, rd, RAX);
    Weaken(rest, 11, 60);
    assert SlowLoad(t, op, rd, off) == Bail(t, off) + call + [I(TestQ(RAX, RAX))] + [Skip(Ns, [I(Ret)])] + rest;
  }

  lemma SlowStoreFit(t: Target, op: StoreOp, rs2: RegIx, off: u32, next: u32)
    ensures AllFit(SlowStore(t, op, rs2, off, next), 60) && |SlowStore(t, op, rs2, off, next)| <= 20
  {
    hide Fit, Protect, CallCode, LoadReg;
    InstrFit();
    CallFit(t, StoreShim(op), R9, rs2);
    assert AllFit([I(Ret)], 11) && AllFit(StopAfterStore(t, next), 11);
    SkipFit(Ns, [I(Ret)], 11, 11);
    SkipFit(E, StopAfterStore(t, next), 11, 11 * |StopAfterStore(t, next)|);
    var call := Protect(R9, LoadReg(t, R8, rs2) + CallCode(t, StoreShim(op)));
    Weaken(Bail(t, off) + call + [I(TestQ(RAX, RAX))], 11, 60);
    Weaken([Skip(Ns, [I(Ret)])], 22, 60);
    Weaken([Skip(E, StopAfterStore(t, next))], 55, 60);
    Weaken(Bump(t.lay.retired), 11, 60);
  }

  const MAX_NODE: nat := 2000

  lemma PlainStepFit(t: Target, s: Rv32.Step)
    requires (IsLink(s.inst) || IsTerminal(s.inst)) && !s.inst.Load? && !s.inst.Store?
    ensures AllFit(StepCode(t, s), 11) && |StepCode(t, s)| <= 10
  {
    hide AllFit, InstCode;
    if s.inst.Jal? || s.inst.Jalr? || s.inst.Branch? {
      JumpFit(t, s);
    } else {
      ResultFit(t, s);
    }
    BumpFit(t, InstCode(t, s));
  }

  lemma BumpFit(t: Target, a: seq<Node>)
    requires AllFit(a, 11)
    ensures AllFit(a + Bump(t.lay.retired), 11)
  {
    hide Fit;
    InstrFit();
  }

  lemma JumpFit(t: Target, s: Rv32.Step)
    requires s.inst.Jal? || s.inst.Jalr? || s.inst.Branch?
    ensures AllFit(InstCode(t, s), 11) && |InstCode(t, s)| <= 9
  {
    hide Fit, W32, LoadReg, StoreReg, AluCode, Link;
    InstrFit();
    PieceFit(t);
    PieceLen(t);
  }

  lemma ResultFit(t: Target, s: Rv32.Step)
    requires s.inst.Lui? || s.inst.Auipc? || s.inst.OpImm? || s.inst.Op? || s.inst.Fence?
    ensures AllFit(InstCode(t, s), 11) && |InstCode(t, s)| <= 9
  {
    hide Fit, W32, LoadReg, StoreReg, AluCode, Link;
    InstrFit();
    PieceFit(t);
    PieceLen(t);
  }

  lemma PieceLen(t: Target)
    ensures forall dst: Reg, i: RegIx :: |LoadReg(t, dst, i)| == 1 && |StoreReg(t, i, dst)| <= 1
    ensures forall op, imm :: |AluCode(op, imm)| <= 3
    ensures forall rd, off :: |Link(t, rd, off)| <= 2
  {
  }

  lemma StepFit(t: Target, s: Rv32.Step)
    requires IsLink(s.inst) || IsTerminal(s.inst)
    ensures AllFit(StepCode(t, s), MAX_NODE) && |StepCode(t, s)| <= 20
  {
    hide Fit, W32, FastLoad, SlowLoad, FastStore, SlowStore, Protect, CallCode;
    var next := W32(s.offset + s.ilen);
    InstrFit();
    match s.inst {
      case Load(op, rd, rs1, imm) =>
        var slow := SlowLoad(t, op, rd, s.offset);
        FastFit(t, op, Sw, rd);
        SlowLoadFit(t, op, rd, s.offset);
        MemFit(t, rs1, imm, FastLoadShim(LoadSize(op)), FastLoad(t, op, rd), slow);
      case Store(op, rs1, rs2, imm) =>
        var slow := SlowStore(t, op, rs2, s.offset, next);
        FastFit(t, Lw, op, rs2);
        SlowStoreFit(t, op, rs2, s.offset, next);
        MemFit(t, rs1, imm, FastStoreShim(op), FastStore(t, op, rs2), slow);
      case _ =>
        PlainStepFit(t, s);
        Weaken(StepCode(t, s), 11, MAX_NODE);
    }
  }

  lemma MemFit(t: Target, rs1: RegIx, imm: u32, s: Shim, fast: seq<Node>, slow: seq<Node>)
    requires AllFit(fast, 11) && |fast| <= 4 && AllFit(slow, 60) && |slow| <= 20
    ensures var code := VaCode(t, rs1, imm) + FastCall(t, s) + [I(TestQ(RAX, RAX))] + [IfElse(Cc.Ne, fast, slow)];
      AllFit(code, MAX_NODE) && |code| <= 20
  {
    hide Fit, Protect, CallCode;
    InstrFit();
    CallFit(t, s, RCX, 0);
    Weaken(fast, 11, 60);
    IfElseFit(Cc.Ne, fast, slow, 60, 60 * |fast|, 60 * |slow|);
    Weaken(VaCode(t, rs1, imm) + FastCall(t, s) + [I(TestQ(RAX, RAX))], 11, MAX_NODE);
    Weaken([IfElse(Cc.Ne, fast, slow)], 60 * |fast| + 60 * |slow| + 22, MAX_NODE);
  }

  lemma {:induction false} StepsFit(t: Target, steps: seq<Rv32.Step>)
    requires Contiguous(steps)
    ensures AllFit(StepsCode(t, steps), MAX_NODE)
  {
    hide Fit, StepCode;
    if steps != [] {
      StepFit(t, steps[0]);
      StepsFit(t, steps[1..]);
    }
  }

  /** A whole chain is fit for the flat machine. */
  lemma CodeFits(t: Target, steps: seq<Rv32.Step>)
    requires ValidChain(steps)
    ensures CodeOk(Code(t, steps))
  {
    hide Fit, W32, StepsCode;
    InstrFit();
    StepsFit(t, steps);
    var head, tail := [I(Mem(Load32, R8, RDI, t.lay.pc))], Tail(t, steps[|steps| - 1]) + Epilogue();
    Weaken(head, 11, MAX_NODE);
    Weaken(tail, 11, MAX_NODE);
    assert Code(t, steps) == head + StepsCode(t, steps) + tail;
    FitCode(Code(t, steps), MAX_NODE);
  }

  /** The machine code a chain compiles to. */
  function ChainBytes(t: Target, steps: seq<Rv32.Step>): seq<u8>
    requires steps != []
  {
    Assemble(Code(t, steps))
  }

  /** End to end, in bytes: calling the compiled bytes wherever they lie in the arena returns, and
      delivers what interpreting the chain delivers. */
  lemma BytesCorrect<W(!new)>(h: Host<W>, arena: seq<u8>, off: nat, steps: seq<Rv32.Step>, x: X<W>) returns (k: nat)
    requires h.Valid() && Lawful(h.bus) && ValidChain(steps)
    requires Args(x) && x.stack == [] && x.cpu.Valid()
    requires Placed(arena, off, ChainBytes(h.t, steps))
    ensures var f := FlatRun(h, arena, At(off, x), k);
      f.Finished? && Delivered(Returned(f.x), Interp(h.bus, steps, x.cpu), x.cpu.pc)
  {
    hide Run, Code, Assemble, FlatRun, Interp, Lawful;
    ChainTheorem.ChainCorrect(h, steps, x);
    CodeFits(h.t, steps);
    k := Sim(h, arena, off, Code(h.t, steps), x);
  }
}
