/** Harts that share one machine, and what one of them does in a step (crates/fs-platform/src/lib.rs,
    crates/fs-riscv/src/lib.rs). A step is a finite run of bus accesses and reservation actions; what a
    core computes in between, and how the machine answers, are oracles. */
module Harts {
  import opened Words

  /** The bus trait. A plain store, the store of a successful `sc.w`, an AMO's write and a page walk's
      update of a page-table entry are all `Put`. */
  datatype Req =
    | Load(a: u32, n: nat)
    | Ifetch(a: u32)
    | Put(a: u32, n: nat, v: u32)
    | ReadRaw(a: u32, n: nat)
    | WriteShadow(a: u32, n: nat, mask: u32)

  datatype Ans = Good(v: u32) | Bad(fault: nat)

  datatype Exit = Continue | HaltExit(code: u32) | HypercallExit(code: u32)

  /** What a core does next: `Reserve` ends an `lr.w`, `Check` opens an `sc.w`, `Drop` ends an `sc.w` or an
      AMO. A step that takes an interrupt or traps finishes without retiring. */
  datatype Act = Ask(req: Req) | Reserve(va: u32) | Check(va: u32) | Drop | Finish(exit: Exit, retires: bool)

  datatype Clint = Clint(mtime: nat, msip: u32, mtimecmp: u64, msipExtra: seq<u32>, mtimecmpExtra: seq<u64>)

  datatype Machine<M> = Machine(clint: Clint, rest: M)

  datatype Hart<C> = Hart(core: C, reservation: Option<u32>, retired: nat, mtimecmp: u64, msip: bool)

  datatype Guest<!C, !M> = Guest(
    start: (C, nat, u64, bool) -> C,
    next: C -> Act,
    told: (C, Ans) -> C,
    rank: C -> nat,
    serve: (Machine<M>, Req) -> (Machine<M>, Ans))

  /** Every step ends. */
  ghost predicate Ends<C(!new), M>(g: Guest<C, M>)
  {
    forall c: C, a: Ans :: Sinks(g, c, a)
  }

  predicate Sinks<C, M>(g: Guest<C, M>, c: C, a: Ans) { g.next(c).Finish? || g.rank(g.told(c, a)) < g.rank(c) }

  /** What the core hears back from its next action. */
  function Answer<C, M>(g: Guest<C, M>, cpu: Hart<C>, m: Machine<M>): Ans
  {
    match g.next(cpu.core)
    case Ask(req) => g.serve(m, req).1
    case Check(va) => Good(if cpu.reservation == Some(va) then 1 else 0)
    case _ => Good(0)
  }

  /** What happened, in order. */
  datatype Event = Reserved(h: nat, a: u32) | Dropped(h: nat) | Checked(h: nat, a: u32, ok: bool) | Wrote(h: nat, a: u32, n: nat)

  /** `apply_clint_hart`: hart 0 reads the scalar registers, the others the extra ones, absent ones as idle. */
  function ApplyClint<C>(c: Hart<C>, k: Clint, h: nat): Hart<C>
  {
    var msip := if h == 0 then k.msip else if h - 1 < |k.msipExtra| then k.msipExtra[h - 1] else 0;
    var cmp := if h == 0 then k.mtimecmp else if h - 1 < |k.mtimecmpExtra| then k.mtimecmpExtra[h - 1] else 0xffff_ffff_ffff_ffff;
    c.(mtimecmp := cmp, msip := msip % 2 == 1)
  }

  // ----- reservations -----

  predicate Covers(s: u32, n: nat, r: u32) { s <= r < s + n }

  function Invalidate<C>(c: Hart<C>, a: u32, n: nat): Hart<C>
  {
    if c.reservation.Some? && Covers(a, n, c.reservation.value) then c.(reservation := None) else c
  }

  function ClearOthers<C>(harts: seq<Hart<C>>, h: nat, a: u32, n: nat): (r: seq<Hart<C>>)
    ensures |r| == |harts| && forall i | 0 <= i < |harts| :: r[i] == if i == h then harts[i] else Invalidate(harts[i], a, n)
  {
    seq(|harts|, i requires 0 <= i < |harts| => if i == h then harts[i] else Invalidate(harts[i], a, n))
  }

  type Log = seq<(u32, nat)>

  function ClearAll<C>(harts: seq<Hart<C>>, h: nat, log: Log): (r: seq<Hart<C>>)
    ensures |r| == |harts| && (h < |harts| ==> r[h] == harts[h])
  {
    if log == [] then harts
    else
      var (a, n) := log[|log| - 1];
      ClearOthers(ClearAll(harts, h, log[..|log| - 1]), h, a, n)
  }

  // ----- a step on a recording bus -----

  /** The running hart, the machine, the stores recorded in this turn, and all events so far. */
  datatype Local<C, M> = Local(cpu: Hart<C>, m: Machine<M>, log: Log, ev: seq<Event>)

  function LocalAct<C(!new), M>(g: Guest<C, M>, h: nat, s: Local<C, M>): Local<C, M>
    requires !g.next(s.cpu.core).Finish?
  {
    match g.next(s.cpu.core)
    case Ask(req) =>
      var (m, ans) := g.serve(s.m, req);
      var cpu := s.cpu.(core := g.told(s.cpu.core, ans));
      if req.Put? && ans.Good? then Local(cpu, m, s.log + [(req.a, req.n)], s.ev + [Wrote(h, req.a, req.n)])
      else s.(cpu := cpu, m := m)
    case Reserve(va) =>
      s.(cpu := s.cpu.(core := g.told(s.cpu.core, Good(0)), reservation := Some(va)), ev := s.ev + [Reserved(h, va)])
    case Check(va) =>
      var ok := s.cpu.reservation == Some(va);
      s.(cpu := s.cpu.(core := g.told(s.cpu.core, Good(if ok then 1 else 0))), ev := s.ev + [Checked(h, va, ok)])
    case Drop =>
      s.(cpu := s.cpu.(core := g.told(s.cpu.core, Good(0)), reservation := None), ev := s.ev + [Dropped(h)])
  }

  lemma ActDown<C(!new), M>(g: Guest<C, M>, h: nat, s: Local<C, M>)
    requires Ends(g) && !g.next(s.cpu.core).Finish?
    ensures g.rank(LocalAct(g, h, s).cpu.core) < g.rank(s.cpu.core)
  {
    var c := s.cpu.core;
    assert Sinks(g, c, Answer(g, s.cpu, s.m));
  }

  function ExecLocal<C(!new), M>(g: Guest<C, M>, h: nat, s: Local<C, M>): (Local<C, M>, Exit)
    requires Ends(g)
    decreases g.rank(s.cpu.core)
  {
    match g.next(s.cpu.core)
    case Finish(exit, retires) => (s.(cpu := s.cpu.(retired := s.cpu.retired + if retires then 1 else 0)), exit)
    case _ =>
      ActDown(g, h, s);
      ExecLocal(g, h, LocalAct(g, h, s))
  }

  /** `mtime` set to the scheduler's tick, the CLINT applied, and the step begun. */
  function BeginLocal<C(!new), M>(g: Guest<C, M>, h: nat, s: Local<C, M>, tick: nat): Local<C, M>
  {
    var m := s.m.(clint := s.m.clint.(mtime := tick));
    var cpu := ApplyClint(s.cpu, m.clint, h);
    s.(m := m, cpu := cpu.(core := g.start(cpu.core, cpu.retired, cpu.mtimecmp, cpu.msip)))
  }

  // ----- the same step when every store invalidates at once -----

  datatype All<C, M> = All(harts: seq<Hart<C>>, m: Machine<M>, ev: seq<Event>)

  function NowAct<C(!new), M>(g: Guest<C, M>, h: nat, w: All<C, M>): (r: All<C, M>)
    requires h < |w.harts| && !g.next(w.harts[h].core).Finish?
    ensures |r.harts| == |w.harts|
  {
    var cpu := w.harts[h];
    match g.next(cpu.core)
    case Ask(req) =>
      var (m, ans) := g.serve(w.m, req);
      var harts := w.harts[h := cpu.(core := g.told(cpu.core, ans))];
      if req.Put? && ans.Good? then All(ClearOthers(harts, h, req.a, req.n), m, w.ev + [Wrote(h, req.a, req.n)])
      else All(harts, m, w.ev)
    case Reserve(va) =>
      All(w.harts[h := cpu.(core := g.told(cpu.core, Good(0)), reservation := Some(va))], w.m, w.ev + [Reserved(h, va)])
    case Check(va) =>
      var ok := cpu.reservation == Some(va);
      All(w.harts[h := cpu.(core := g.told(cpu.core, Good(if ok then 1 else 0)))], w.m, w.ev + [Checked(h, va, ok)])
    case Drop =>
      All(w.harts[h := cpu.(core := g.told(cpu.core, Good(0)), reservation := None)], w.m, w.ev + [Dropped(h)])
  }

  lemma NowDown<C(!new), M>(g: Guest<C, M>, h: nat, w: All<C, M>)
    requires Ends(g) && h < |w.harts| && !g.next(w.harts[h].core).Finish?
    ensures g.rank(NowAct(g, h, w).harts[h].core) < g.rank(w.harts[h].core)
  {
    var c := w.harts[h].core;
    assert Sinks(g, c, Answer(g, w.harts[h], w.m));
  }

  function ExecNow<C(!new), M>(g: Guest<C, M>, h: nat, w: All<C, M>): (r: (All<C, M>, Exit))
    requires Ends(g) && h < |w.harts|
    ensures |r.0.harts| == |w.harts|
    decreases g.rank(w.harts[h].core)
  {
    var cpu := w.harts[h];
    match g.next(cpu.core)
    case Finish(exit, retires) =>
      (w.(harts := w.harts[h := cpu.(retired := cpu.retired + if retires then 1 else 0)]), exit)
    case _ =>
      NowDown(g, h, w);
      ExecNow(g, h, NowAct(g, h, w))
  }

  function BeginNow<C(!new), M>(g: Guest<C, M>, h: nat, w: All<C, M>, tick: nat): (r: All<C, M>)
    requires h < |w.harts|
    ensures |r.harts| == |w.harts|
  {
    var m := w.m.(clint := w.m.clint.(mtime := tick));
    var cpu := ApplyClint(w.harts[h], m.clint, h);
    All(w.harts[h := cpu.(core := g.start(cpu.core, cpu.retired, cpu.mtimecmp, cpu.msip))], m, w.ev)
  }

  // ----- deferred is immediate, for one step -----

  /** All harts as they would be if the recorded stores had invalidated already. */
  function Seen<C(!new), M>(base: seq<Hart<C>>, h: nat, s: Local<C, M>): All<C, M>
    requires h < |base|
  {
    All(ClearAll(base, h, s.log)[h := s.cpu], s.m, s.ev)
  }

  lemma BeginAgrees<C(!new), M>(g: Guest<C, M>, base: seq<Hart<C>>, h: nat, s: Local<C, M>, tick: nat)
    requires h < |base|
    ensures BeginNow(g, h, Seen(base, h, s), tick) == Seen(base, h, BeginLocal(g, h, s, tick))
  {
    hide ClearAll;
  }

  lemma StoreAgrees<C(!new)>(base: seq<Hart<C>>, h: nat, log: Log, cpu: Hart<C>, a: u32, n: nat)
    requires h < |base|
    ensures ClearOthers(ClearAll(base, h, log)[h := cpu], h, a, n) == ClearAll(base, h, log + [(a, n)])[h := cpu]
  {
    var more := log + [(a, n)];
    assert more[..|more| - 1] == log;
  }

  lemma ActAgrees<C(!new), M>(g: Guest<C, M>, base: seq<Hart<C>>, h: nat, s: Local<C, M>)
    requires h < |base| && !g.next(s.cpu.core).Finish?
    ensures NowAct(g, h, Seen(base, h, s)) == Seen(base, h, LocalAct(g, h, s))
  {
    hide ClearAll, ClearOthers;
    var was := ClearAll(base, h, s.log);
    if g.next(s.cpu.core).Ask? {
      var req := g.next(s.cpu.core).req;
      var (m, ans) := g.serve(s.m, req);
      var cpu := s.cpu.(core := g.told(s.cpu.core, ans));
      assert was[h := s.cpu][h := cpu] == was[h := cpu];
      if req.Put? && ans.Good? {
        StoreAgrees(base, h, s.log, cpu, req.a, req.n);
      }
    } else {
      var t := LocalAct(g, h, s);
      assert was[h := s.cpu][h := t.cpu] == was[h := t.cpu];
    }
  }

  lemma {:induction false} ExecAgrees<C(!new), M>(g: Guest<C, M>, base: seq<Hart<C>>, h: nat, s: Local<C, M>)
    requires Ends(g) && h < |base|
    ensures var (t, exit) := ExecLocal(g, h, s);
      ExecNow(g, h, Seen(base, h, s)) == (Seen(base, h, t), exit)
    decreases g.rank(s.cpu.core)
  {
    hide ClearAll, NowAct, LocalAct;
    if g.next(s.cpu.core).Finish? {
      var was, t := ClearAll(base, h, s.log), ExecLocal(g, h, s).0;
      assert was[h := s.cpu][h := t.cpu] == was[h := t.cpu];
    } else {
      ActAgrees(g, base, h, s);
      ActDown(g, h, s);
      ExecAgrees(g, base, h, LocalAct(g, h, s));
    }
  }
}
