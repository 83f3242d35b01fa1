/** LR/SC, AMO and plain stores as a hart's steps (crates/fs-riscv/src/lib.rs): what each instruction asks of
    the bus and does to the reservation. Addresses are physical. */
module Atomics {
  import opened Words
  import opened Harts

  datatype AmoOp = Swap | AddW | XorW | AndW | OrW | Min | Max | Minu | Maxu

  function AmoResult(op: AmoOp, old_: u32, src: u32): u32
  {
    match op
    case Swap => src
    case AddW => W32(old_ + src)
    case XorW => Bits32(BitXor, old_, src)
    case AndW => Bits32(BitAnd, old_, src)
    case OrW => Bits32(BitOr, old_, src)
    case Min => if Signed(old_) <= Signed(src) then old_ else src
    case Max => if Signed(old_) >= Signed(src) then old_ else src
    case Minu => if old_ <= src then old_ else src
    case Maxu => if old_ >= src then old_ else src
  }

  datatype Insn =
    | LrW(rd: nat, va: u32)
    | ScW(rd: nat, va: u32, v: u32)
    | AmoW(op: AmoOp, rd: nat, va: u32, src: u32)
    | StoreN(va: u32, n: nat, v: u32)

  /** What follows once the outstanding accesses have been answered. */
  datatype Then = ThenReserve(rd: nat, va: u32) | ThenPut(op: AmoOp, rd: nat, va: u32, src: u32) | ThenDrop(rd: nat, x: u32) | ThenDone

  datatype Phase =
    | Begin(insn: Insn)
    | Accessing(todo: seq<Req>, got: seq<u32>, after: Then)
    | Reserving(rd: nat, va: u32, v: u32)
    | Dropping(rd: nat, x: u32)
    | Retired
    | Trapped

  datatype Core = Core(regs: map<nat, u32>, phase: Phase)

  function WriteReg(c: Core, rd: nat, x: u32): Core { if rd == 0 then c else c.(regs := c.regs[rd := x]) }

  /** Unaligned accesses go byte by byte. */
  function Loads(va: u32, n: nat): seq<Req>
  {
    if n > 1 && va % n != 0 then seq(n, (i: nat) => Load(W32(va + i), 1)) else [Load(va, n)]
  }

  function Puts(va: u32, n: nat, v: u32): seq<Req>
  {
    if n > 1 && va % n != 0 then seq(n, (i: nat) => Put(W32(va + i), 1, Shr32(v, 8 * i) % 0x100)) else [Put(va, n, v)]
  }

  /** The answers of the loads, put together. */
  function Value(got: seq<u32>): u32
  {
    if |got| == 1 then got[0] else W32(FromBytes(got))
  }

  function FromBytes(got: seq<u32>): nat { if got == [] then 0 else got[0] % 0x100 + 0x100 * FromBytes(got[1..]) }

  function Doing(reqs: seq<Req>, got: seq<u32>, after: Then): Phase
  {
    if reqs != [] then Accessing(reqs, got, after)
    else
      match after
      case ThenReserve(rd, va) => Reserving(rd, va, Value(got))
      case ThenPut(op, rd, va, src) => Accessing([Put(va, 4, AmoResult(op, Value(got), src))], [], ThenDrop(rd, Value(got)))
      case ThenDrop(rd, x) => Dropping(rd, x)
      case ThenDone => Retired
  }

  function NextAct(c: Core): Act
  {
    match c.phase
    case Begin(LrW(_, va)) => Ask(Loads(va, 4)[0])
    case Begin(ScW(_, va, _)) => Check(va)
    case Begin(AmoW(_, _, va, _)) => Ask(Load(va, 4))
    case Begin(StoreN(va, n, v)) => Ask(Puts(va, n, v)[0])
    case Accessing(todo, _, _) => if todo == [] then Finish(Continue, true) else Ask(todo[0])
    case Reserving(_, va, _) => Reserve(va)
    case Dropping(_, _) => Drop
    case Retired => Finish(Continue, true)
    case Trapped => Finish(Continue, false)
  }

  function Told(c: Core, a: Ans): Core
  {
    match c.phase
    case Begin(LrW(rd, va)) => Answered(c, Loads(va, 4), [], ThenReserve(rd, va), a)
    case Begin(ScW(rd, va, v)) =>
      if a == Good(1) then c.(phase := Accessing(Puts(va, 4, v), [], ThenDrop(rd, 0))) else c.(phase := Dropping(rd, 1))
    case Begin(AmoW(op, rd, va, src)) => Answered(c, [Load(va, 4)], [], ThenPut(op, rd, va, src), a)
    case Begin(StoreN(va, n, v)) => Answered(c, Puts(va, n, v), [], ThenDone, a)
    case Accessing(todo, got, after) => if todo == [] then c else Answered(c, todo, got, after, a)
    case Reserving(rd, _, v) => WriteReg(c, rd, v).(phase := Retired)
    case Dropping(rd, x) => WriteReg(c, rd, x).(phase := Retired)
    case _ => c
  }

  function Answered(c: Core, todo: seq<Req>, got: seq<u32>, after: Then, a: Ans): Core
    requires todo != []
  {
    match a
    case Bad(_) => c.(phase := Trapped)
    case Good(v) => c.(phase := Doing(todo[1..], got + [v], after))
  }

  /** Accesses still to be made, and the actions after them. */
  function Left(p: Phase): nat
  {
    match p
    case Begin(LrW(_, va)) => |Loads(va, 4)| + 5
    case Begin(ScW(_, va, v)) => |Puts(va, 4, v)| + 5
    case Begin(AmoW(_, _, _, _)) => 6
    case Begin(StoreN(va, n, v)) => |Puts(va, n, v)| + 5
    case Accessing(todo, _, after) => |todo| + if after.ThenPut? then 4 else 1
    case Reserving(_, _, _) => 1
    case Dropping(_, _) => 1
    case _ => 0
  }

  /** A hart that runs one such instruction each step; `start` is what precedes it: the poll, the fetch. */
  function Atomic<M>(start: (Core, nat, u64, bool) -> Core, serve: (Machine<M>, Req) -> (Machine<M>, Ans)): Guest<Core, M>
  {
    Guest(start, NextAct, Told, (c: Core) => Left(c.phase), serve)
  }

  lemma AtomicEnds<M>(start: (Core, nat, u64, bool) -> Core, serve: (Machine<M>, Req) -> (Machine<M>, Ans))
    ensures Ends(Atomic(start, serve))
  {
    var g := Atomic(start, serve);
    forall c: Core, a: Ans ensures Sinks(g, c, a) {
      LeftSinks(c, a);
    }
  }

  lemma LeftSinks(c: Core, a: Ans)
    ensures NextAct(c).Finish? || Left(Told(c, a).phase) < Left(c.phase)
  {
  }

  // ----- one instruction -----

  predicate At<M>(s: Local<Core, M>, i: Insn) { s.cpu.core.phase == Begin(i) }

  /** `s` with the instruction finished: `rd` written, retired, `res` and the rest as given. */
  function Retires<M>(s: Local<Core, M>, rd: nat, x: u32, res: Option<u32>, m: Machine<M>, log: Log, ev: seq<Event>): Local<Core, M>
  {
    Local(s.cpu.(core := WriteReg(s.cpu.core, rd, x).(phase := Retired), reservation := res, retired := s.cpu.retired + 1), m, s.log + log, s.ev + ev)
  }

  function Traps<M>(s: Local<Core, M>, m: Machine<M>, ev: seq<Event>): Local<Core, M>
  {
    Local(s.cpu.(core := s.cpu.core.(phase := Trapped)), m, s.log, s.ev + ev)
  }

  lemma Unfold<M>(g: Guest<Core, M>, h: nat, s: Local<Core, M>)
    requires Ends(g)
    ensures ExecLocal(g, h, s) ==
      if g.next(s.cpu.core).Finish? then
        (s.(cpu := s.cpu.(retired := s.cpu.retired + if g.next(s.cpu.core).retires then 1 else 0)), g.next(s.cpu.core).exit)
      else ExecLocal(g, h, LocalAct(g, h, s))
  {
  }

  /** A store-conditional stores, and answers 0, iff its reservation is held; either way the reservation is
      given up, except when the store faults. */
  lemma ConditionalStep<M>(g: Guest<Core, M>, h: nat, s: Local<Core, M>, rd: nat, va: u32, v: u32)
    requires g == Atomic(g.start, g.serve) && Ends(g) && At(s, ScW(rd, va, v)) && va % 4 == 0
    ensures var (m, ans) := g.serve(s.m, Put(va, 4, v));
      ExecLocal(g, h, s) == (
        if s.cpu.reservation != Some(va) then Retires(s, rd, 1, None, s.m, [], [Checked(h, va, false), Dropped(h)])
        else if ans.Good? then Retires(s, rd, 0, None, m, [(va, 4)], [Checked(h, va, true), Wrote(h, va, 4), Dropped(h)])
        else Traps(s, m, [Checked(h, va, true)]), Continue)
  {
    hide Ends, ExecLocal;
    var s1 := LocalAct(g, h, s);
    Unfold(g, h, s);
    Unfold(g, h, s1);
    var s2 := LocalAct(g, h, s1);
    Unfold(g, h, s2);
    if s.cpu.reservation == Some(va) && g.serve(s.m, Put(va, 4, v)).1.Good? {
      var s3 := LocalAct(g, h, s2);
      Unfold(g, h, s3);
      assert s.ev + [Checked(h, va, true)] + [Wrote(h, va, 4)] + [Dropped(h)] == s.ev + [Checked(h, va, true), Wrote(h, va, 4), Dropped(h)];
    } else if s.cpu.reservation != Some(va) {
      assert s.ev + [Checked(h, va, false)] + [Dropped(h)] == s.ev + [Checked(h, va, false), Dropped(h)];
    }
    assert s.log + [] == s.log;
  }

  /** A load-reserved takes the reservation only once its load has succeeded. */
  lemma ReservedStep<M>(g: Guest<Core, M>, h: nat, s: Local<Core, M>, rd: nat, va: u32)
    requires g == Atomic(g.start, g.serve) && Ends(g) && At(s, LrW(rd, va)) && va % 4 == 0
    ensures var (m, ans) := g.serve(s.m, Load(va, 4));
      ExecLocal(g, h, s) == (
        if ans.Good? then Retires(s, rd, ans.v, Some(va), m, [], [Reserved(h, va)]) else Traps(s, m, []), Continue)
  {
    hide Ends, ExecLocal;
    var s1 := LocalAct(g, h, s);
    Unfold(g, h, s);
    Unfold(g, h, s1);
    if g.serve(s.m, Load(va, 4)).1.Good? {
      Unfold(g, h, LocalAct(g, h, s1));
    }
    assert s.log + [] == s.log && s.ev + [] == s.ev;
  }

  /** An AMO loads, stores the combined value and gives up its hart's own reservation. */
  lemma AmoStep<M>(g: Guest<Core, M>, h: nat, s: Local<Core, M>, op: AmoOp, rd: nat, va: u32, src: u32)
    requires g == Atomic(g.start, g.serve) && Ends(g) && At(s, AmoW(op, rd, va, src))
    ensures var (m, ans) := g.serve(s.m, Load(va, 4));
      ans.Bad? ==> ExecLocal(g, h, s) == (Traps(s, m, []), Continue)
    ensures var (m, ans) := g.serve(s.m, Load(va, 4));
      ans.Good? ==>
        var (m', ok) := g.serve(m, Put(va, 4, AmoResult(op, ans.v, src)));
        ExecLocal(g, h, s) == (
          if ok.Good? then Retires(s, rd, ans.v, None, m', [(va, 4)], [Wrote(h, va, 4), Dropped(h)]) else Traps(s, m', []), Continue)
  {
    hide Ends, ExecLocal, AmoResult;
    var s1 := LocalAct(g, h, s);
    Unfold(g, h, s);
    Unfold(g, h, s1);
    var (m, ans) := g.serve(s.m, Load(va, 4));
    if ans.Good? {
      assert [ans.v][0] == ans.v;
      var s2 := LocalAct(g, h, s1);
      Unfold(g, h, s2);
      if g.serve(m, Put(va, 4, AmoResult(op, ans.v, src))).1.Good? {
        Unfold(g, h, LocalAct(g, h, s2));
        assert s.ev + [Wrote(h, va, 4)] + [Dropped(h)] == s.ev + [Wrote(h, va, 4), Dropped(h)];
      }
    }
    assert s.log + [] == s.log && s.ev + [] == s.ev;
  }

  // ----- what is stored -----

  /** The value an AMO stores: one of the two for the selecting ones, no larger or no smaller than either. */
  ghost predicate AmoLaw(op: AmoOp, old_: u32, src: u32, r: u32)
  {
    match op
    case Swap => r == src
    case AddW => (r - old_ - src) % TWO32 == 0
    case XorW => forall i | 0 <= i < 32 :: BitAt(r, i) == (BitAt(old_, i) + BitAt(src, i)) % 2
    case AndW => forall i | 0 <= i < 32 :: BitAt(r, i) == BitAt(old_, i) * BitAt(src, i)
    case OrW => forall i | 0 <= i < 32 :: BitAt(r, i) == BitAt(old_, i) + BitAt(src, i) - BitAt(old_, i) * BitAt(src, i)
    case Min => (r == old_ || r == src) && Signed(r) <= Signed(old_) && Signed(r) <= Signed(src)
    case Max => (r == old_ || r == src) && Signed(r) >= Signed(old_) && Signed(r) >= Signed(src)
    case Minu => (r == old_ || r == src) && r <= old_ && r <= src
    case Maxu => (r == old_ || r == src) && r >= old_ && r >= src
  }

  lemma AmoMeans(op: AmoOp, old_: u32, src: u32)
    ensures AmoLaw(op, old_, src, AmoResult(op, old_, src))
  {
    hide BitAt, Bits32, W32, Signed;
    match op {
      case AddW => SumLaw(old_, src);
      case XorW => forall i | 0 <= i < 32 { BitsMean(BitXor, old_, src, i); }
      case AndW => forall i | 0 <= i < 32 { BitsMean(BitAnd, old_, src, i); }
      case OrW => forall i | 0 <= i < 32 { BitsMean(BitOr, old_, src, i); }
      case _ =>
    }
  }

  lemma SumLaw(a: u32, b: u32)
    ensures (W32(a + b) - a - b) % TWO32 == 0
  {
  }

  /** An unaligned store puts its bytes one by one, lowest first; an unaligned load asks for them in that
      order; any other access is one request. */
  lemma BytewiseMeans(va: u32, n: nat, v: u32)
    ensures n > 1 && va % n != 0 ==>
      && |Puts(va, n, v)| == n && |Loads(va, n)| == n
      && forall i | 0 <= i < n :: Puts(va, n, v)[i] == Put((va + i) % TWO32, 1, v / Pow2(8 * i) % 0x100) &&
                                  Loads(va, n)[i] == Load((va + i) % TWO32, 1)
    ensures n <= 1 || va % n == 0 ==> Puts(va, n, v) == [Put(va, n, v)] && Loads(va, n) == [Load(va, n)]
  {
    hide Shr32, Pow2;
    if n > 1 && va % n != 0 {
      forall i | 0 <= i < n ensures Puts(va, n, v)[i] == Put((va + i) % TWO32, 1, v / Pow2(8 * i) % 0x100) {
        ShrMeans(v, 8 * i);
      }
    }
  }

  /** Four bytes read back make the word they were cut from. */
  lemma WordBack(v: u32)
    ensures Value([v % 0x100, v / 0x100 % 0x100, v / 0x1_0000 % 0x100, v / 0x100_0000]) == v
  {
    hide Value;
    CutWord(v);
    FourBack(v % 0x100, v / 0x100 % 0x100, v / 0x1_0000 % 0x100, v / 0x100_0000);
  }

  lemma FourBack(a: u32, b: u32, c: u32, d: u32)
    requires a < 0x100 && b < 0x100 && c < 0x100 && d < 0x100
    ensures Value([a, b, c, d]) == a + 0x100 * (b + 0x100 * (c + 0x100 * d))
  {
    hide FromBytes, W32;
    NoneOf();
    OneMore(d, []);
    OneMore(c, [d]);
    OneMore(b, [c, d]);
    OneMore(a, [b, c, d]);
    assert [d] + [] == [d] && [c] + [d] == [c, d] && [b] + [c, d] == [b, c, d] && [a] + [b, c, d] == [a, b, c, d];
    InWord(a + 0x100 * (b + 0x100 * (c + 0x100 * d)));
  }

  lemma InWord(x: nat)
    requires x < TWO32
    ensures W32(x) == x
  {
  }

  lemma OneMore(b: u32, s: seq<u32>)
    requires b < 0x100
    ensures FromBytes([b] + s) == b + 0x100 * FromBytes(s)
  {
    assert ([b] + s)[1..] == s;
  }

  lemma NoneOf()
    ensures FromBytes([]) == 0
  {
  }

  lemma CutWord(v: u32)
    ensures v == v % 0x100 + 0x100 * (v / 0x100 % 0x100 + 0x100 * (v / 0x1_0000 % 0x100 + 0x100 * (v / 0x100_0000)))
    ensures v / 0x100_0000 < 0x100
  {
    HalfThen8(v);
    HalfThen8(v / 0x100);
  }

  lemma HalfThen8(v: nat)
    ensures v / 0x100 / 0x100 == v / 0x1_0000
  {
    var q, h, l := v / 0x1_0000, v % 0x1_0000 / 0x100, v % 0x100;
    assert v / 0x100 == 0x100 * q + h;
  }
}
