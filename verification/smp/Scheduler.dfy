/** `run_smp` (crates/fs-platform/src/lib.rs): round-robin turns over one machine. A turn's stores are
    recorded and invalidate the other harts' reservations when it ends; the run is the one in which every
    store invalidates at once. */
module Scheduler {
  import opened Words
  import opened Harts

  datatype Stop = Halt(code: u32) | Hypercall(code: u32) | Budget

  /** A run so far; `called` says whether the current turn met a hypercall. */
  datatype Run<C, M> = Run(w: All<C, M>, stops: seq<Option<Stop>>, tick: nat, called: bool)
  {
    predicate Fits() { |stops| == |w.harts| }
  }

  function StopOf(e: Exit): Option<Stop>
  {
    match e case Continue => None case HaltExit(c) => Some(Halt(c)) case HypercallExit(c) => Some(Hypercall(c))
  }

  // ----- the scheduler with immediate invalidation -----

  function StepNow<C(!new), M>(g: Guest<C, M>, h: nat, r: Run<C, M>): (r': Run<C, M>)
    requires Ends(g) && r.Fits() && h < |r.stops|
    ensures r'.Fits() && |r'.stops| == |r.stops| && r'.tick == r.tick + 1
  {
    var (w, exit) := ExecNow(g, h, BeginNow(g, h, r.w, r.tick));
    var stop := StopOf(exit);
    Run(w, if stop.Some? then r.stops[h := stop] else r.stops, r.tick + 1, r.called || exit.HypercallExit?)
  }

  predicate TurnOver<C, M>(r: Run<C, M>, h: nat, until: nat, deadline: nat)
    requires r.Fits() && h < |r.stops|
  {
    r.stops[h].Some? || r.w.harts[h].retired >= until || r.tick >= deadline
  }

  function TurnNow<C(!new), M>(g: Guest<C, M>, h: nat, r: Run<C, M>, until: nat, deadline: nat): (r': Run<C, M>)
    requires Ends(g) && r.Fits() && h < |r.stops|
    ensures r'.Fits() && |r'.stops| == |r.stops| && r.tick < r'.tick && TurnOver(r', h, until, deadline)
    ensures r'.tick <= if deadline <= r.tick then r.tick + 1 else deadline
    decreases deadline - r.tick
  {
    var r1 := StepNow(g, h, r);
    if TurnOver(r1, h, until, deadline) then r1 else TurnNow(g, h, r1, until, deadline)
  }

  predicate AllStopped(stops: seq<Option<Stop>>) { forall i | 0 <= i < |stops| :: stops[i].Some? }

  predicate LiveFrom(stops: seq<Option<Stop>>, k: nat) { exists i :: k <= i < |stops| && stops[i].None? }

  predicate Over<C, M>(r: Run<C, M>, deadline: nat, freeze: bool)
  {
    (freeze && r.called) || AllStopped(r.stops) || r.tick >= deadline
  }

  /** From hart `k` of a round to the end of the run; `freeze` is `stop_on_hypercall`. */
  function RunFrom<C(!new), M>(g: Guest<C, M>, r: Run<C, M>, k: nat, quantum: nat, deadline: nat, freeze: bool): (r': Run<C, M>)
    requires Ends(g) && r.Fits() && k <= |r.stops| && LiveFrom(r.stops, 0)
    ensures r'.Fits() && |r'.stops| == |r.stops| && Over(r', deadline, freeze)
    ensures r'.tick <= if deadline <= r.tick then r.tick + 1 else deadline
    decreases deadline - r.tick, if LiveFrom(r.stops, k) then 0 else 1, |r.stops| - k
  {
    if k == |r.stops| then RunFrom(g, r, 0, quantum, deadline, freeze)
    else if r.stops[k].Some? then RunFrom(g, r, k + 1, quantum, deadline, freeze)
    else
      var r1 := TurnNow(g, k, r.(called := false), r.w.harts[k].retired + quantum, deadline);
      if Over(r1, deadline, freeze) then r1 else RunFrom(g, r1, k + 1, quantum, deadline, freeze)
  }

  function Opening<C, M>(harts: seq<Hart<C>>, m: Machine<M>): (r: Run<C, M>)
    ensures r.Fits()
  {
    Run(All(harts, m, []), seq(|harts|, (i: nat) => None), 0, false)
  }

  /** The reference run. */
  function RunNow<C(!new), M>(g: Guest<C, M>, harts: seq<Hart<C>>, m: Machine<M>, quantum: nat, deadline: nat, freeze: bool): Run<C, M>
    requires Ends(g)
  {
    var r := Opening(harts, m);
    if harts == [] then r
    else
      assert LiveFrom(r.stops, 0) by { assert r.stops[0].None?; }
      RunFrom(g, r, 0, quantum, deadline, freeze)
  }

  // ----- the scheduler itself -----

  /** Forwards every request and records the successful stores. */
  class RecordingBus<M> {
    var machine: Machine<M>
    var writes: Log

    constructor (m: Machine<M>)
      ensures machine == m && writes == []
    {
      machine, writes := m, [];
    }

    method Serve<C>(g: Guest<C, M>, req: Req) returns (ans: Ans)
      modifies this
      ensures (machine, ans) == g.serve(old(machine), req)
      ensures writes == old(writes) + if req.Put? && ans.Good? then [(req.a, req.n)] else []
    {
      var (m, a) := g.serve(machine, req);
      machine, ans := m, a;
      if req.Put? && ans.Good? {
        writes := writes + [(req.a, req.n)];
      }
    }
  }

  /** `step_system` on a recording bus. */
  method StepSystem<C(!new), M>(g: Guest<C, M>, h: nat, begun: Hart<C>, rec: RecordingBus<M>, ghost ev: seq<Event>)
    returns (cpu: Hart<C>, exit: Exit, ghost ev': seq<Event>)
    requires Ends(g)
    modifies rec
    ensures (Local(cpu, rec.machine, rec.writes, ev'), exit) == ExecLocal(g, h, Local(begun, old(rec.machine), old(rec.writes), ev))
  {
    hide Ends;
    cpu, ev' := begun, ev;
    ghost var full := ExecLocal(g, h, Local(begun, rec.machine, rec.writes, ev));
    while !g.next(cpu.core).Finish?
      invariant ExecLocal(g, h, Local(cpu, rec.machine, rec.writes, ev')) == full
      decreases g.rank(cpu.core)
    {
      ghost var s := Local(cpu, rec.machine, rec.writes, ev');
      ActDown(g, h, s);
      match g.next(cpu.core) {
        case Ask(req) =>
          var ans := rec.Serve(g, req);
          cpu := cpu.(core := g.told(cpu.core, ans));
          ev' := if req.Put? && ans.Good? then ev' + [Wrote(h, req.a, req.n)] else ev';
          assert s.log + [] == s.log;
        case Reserve(va) =>
          cpu, ev' := cpu.(core := g.told(cpu.core, Good(0)), reservation := Some(va)), ev' + [Reserved(h, va)];
        case Check(va) =>
          var ok := cpu.reservation == Some(va);
          cpu, ev' := cpu.(core := g.told(cpu.core, Good(if ok then 1 else 0))), ev' + [Checked(h, va, ok)];
        case Drop =>
          cpu, ev' := cpu.(core := g.told(cpu.core, Good(0)), reservation := None), ev' + [Dropped(h)];
      }
      assert Local(cpu, rec.machine, rec.writes, ev') == LocalAct(g, h, s);
    }
    match g.next(cpu.core) {
      case Finish(e, retires) =>
        exit := e;
        cpu := cpu.(retired := cpu.retired + if retires then 1 else 0);
    }
  }

  /** A run whose current turn is at `s`, started from `base`. */
  ghost function Amid<C(!new), M>(base: seq<Hart<C>>, h: nat, s: Local<C, M>, stops: seq<Option<Stop>>, tick: nat, called: bool): Run<C, M>
    requires h < |base|
  {
    Run(Seen(base, h, s), stops, tick, called)
  }

  lemma StepAgrees<C(!new), M>(g: Guest<C, M>, base: seq<Hart<C>>, h: nat, s: Local<C, M>, stops: seq<Option<Stop>>, tick: nat, called: bool)
    requires Ends(g) && h < |base| == |stops|
    ensures var (t, exit) := ExecLocal(g, h, BeginLocal(g, h, s, tick));
      StepNow(g, h, Amid(base, h, s, stops, tick, called)) ==
        Amid(base, h, t, if StopOf(exit).Some? then stops[h := StopOf(exit)] else stops, tick + 1, called || exit.HypercallExit?)
  {
    hide Ends, ExecNow, ExecLocal, BeginNow, BeginLocal, ClearAll;
    BeginAgrees(g, base, h, s, tick);
    ExecAgrees(g, base, h, BeginLocal(g, h, s, tick));
  }

  /** One hart's turn: at least one step, then on until it stops, has used its quantum or time is up. */
  method Turn<C(!new), M>(g: Guest<C, M>, h: nat, cpus: array<Hart<C>>, rec: RecordingBus<M>, stops: seq<Option<Stop>>,
                          tick: nat, quantum: nat, deadline: nat, ghost ev: seq<Event>)
    returns (stops': seq<Option<Stop>>, tick': nat, called: bool, ghost ev': seq<Event>)
    requires Ends(g) && h < cpus.Length == |stops| && rec.writes == []
    modifies cpus, rec
    ensures cpus[..] == old(cpus[..])[h := cpus[h]]
    ensures TurnNow(g, h, Run(All(old(cpus[..]), old(rec.machine), ev), stops, tick, false), old(cpus[h]).retired + quantum, deadline)
         == Amid(old(cpus[..]), h, Local(cpus[h], rec.machine, rec.writes, ev'), stops', tick', called)
    ensures |stops'| == |stops|
  {
    hide Ends, ExecLocal, ClearAll, StepNow, BeginLocal, ExecNow;
    var until := cpus[h].retired + quantum;
    stops', tick', called, ev' := stops, tick, false, ev;
    ghost var base := cpus[..];
    ghost var start := Run(All(base, rec.machine, ev), stops, tick, false);
    FreshTurn(base, h, rec.machine, ev);
    assert start == Amid(base, h, Local(cpus[h], rec.machine, rec.writes, ev'), stops', tick', called);
    var over := false;
    while !over
      invariant |stops'| == |stops| && cpus[..] == base[h := cpus[h]]
      invariant var r := Amid(base, h, Local(cpus[h], rec.machine, rec.writes, ev'), stops', tick', called);
        TurnNow(g, h, start, until, deadline) == if over then r else TurnNow(g, h, r, until, deadline)
      decreases !over, deadline - tick'
    {
      ghost var s := Local(cpus[h], rec.machine, rec.writes, ev');
      StepAgrees(g, base, h, s, stops', tick', called);
      rec.machine := rec.machine.(clint := rec.machine.clint.(mtime := tick'));
      var c := ApplyClint(cpus[h], rec.machine.clint, h);
      var begun := c.(core := g.start(c.core, c.retired, c.mtimecmp, c.msip));
      BegunIs(g, h, s, tick', begun, rec.machine);
      var cpu, exit;
      cpu, exit, ev' := StepSystem(g, h, begun, rec, ev');
      cpus[h] := cpu;
      match exit {
        case Continue =>
        case HaltExit(code) => stops' := stops'[h := Some(Halt(code))];
        case HypercallExit(code) => stops', called := stops'[h := Some(Hypercall(code))], true;
      }
      tick' := tick' + 1;
      over := stops'[h].Some? || cpus[h].retired >= until || tick' >= deadline;
    }
  }

  lemma BegunIs<C(!new), M>(g: Guest<C, M>, h: nat, s: Local<C, M>, tick: nat, begun: Hart<C>, m: Machine<M>)
    requires m == s.m.(clint := s.m.clint.(mtime := tick))
    requires var c := ApplyClint(s.cpu, m.clint, h); begun == c.(core := g.start(c.core, c.retired, c.mtimecmp, c.msip))
    ensures BeginLocal(g, h, s, tick) == Local(begun, m, s.log, s.ev)
  {
  }

  lemma FreshTurn<C(!new), M>(base: seq<Hart<C>>, h: nat, m: Machine<M>, ev: seq<Event>)
    requires h < |base|
    ensures Seen(base, h, Local(base[h], m, [], ev)) == All(base, m, ev)
  {
  }

  /** The recorded spans, each against every other hart. */
  method InvalidateOthers<C(!new)>(cpus: array<Hart<C>>, h: nat, writes: Log)
    requires h < cpus.Length
    modifies cpus
    ensures cpus[..] == ClearAll(old(cpus[..]), h, writes)
  {
    hide ClearAll, Invalidate;
    ghost var base := cpus[..];
    ClearNone(base, h);
    assert writes[..0] == [];
    for w := 0 to |writes|
      invariant cpus[..] == ClearAll(base, h, writes[..w])
    {
      ghost var was := cpus[..];
      var (a, n) := writes[w];
      for other := 0 to cpus.Length
        invariant forall i | 0 <= i < cpus.Length :: cpus[i] == if i < other && i != h then Invalidate(was[i], a, n) else was[i]
      {
        if other != h {
          cpus[other] := Invalidate(cpus[other], a, n);
        }
      }
      assert cpus[..] == ClearOthers(was, h, a, n);
      ClearMore(base, h, writes, w);
    }
    assert writes[..|writes|] == writes;
  }

  lemma ClearNone<C>(base: seq<Hart<C>>, h: nat)
    ensures ClearAll(base, h, []) == base
  {
  }

  lemma ClearMore<C>(base: seq<Hart<C>>, h: nat, log: Log, w: nat)
    requires w < |log|
    ensures ClearAll(base, h, log[..w + 1]) == ClearOthers(ClearAll(base, h, log[..w]), h, log[w].0, log[w].1)
  {
    assert log[..w + 1][..w] == log[..w];
  }

  /** The running hart's own state does not matter to what the others lose. */
  lemma {:induction false} ClearApart<C>(base: seq<Hart<C>>, h: nat, log: Log, cpu: Hart<C>)
    requires h < |base|
    ensures ClearAll(base[h := cpu], h, log) == ClearAll(base, h, log)[h := cpu]
    decreases |log|
  {
    if log == [] {
    } else {
      ClearApart(base, h, log[..|log| - 1], cpu);
    }
  }

  /** A turn, and the invalidation that closes it. */
  method FullTurn<C(!new), M>(g: Guest<C, M>, h: nat, cpus: array<Hart<C>>, machine: Machine<M>, stops: seq<Option<Stop>>,
                              tick: nat, quantum: nat, deadline: nat, ghost ev: seq<Event>)
    returns (m: Machine<M>, stops': seq<Option<Stop>>, tick': nat, called: bool, ghost ev': seq<Event>)
    requires Ends(g) && h < cpus.Length == |stops|
    modifies cpus
    ensures Run(All(cpus[..], m, ev'), stops', tick', called)
         == TurnNow(g, h, Run(All(old(cpus[..]), machine, ev), stops, tick, false), old(cpus[h]).retired + quantum, deadline)
    ensures |stops'| == |stops|
  {
    hide Ends, ClearAll, TurnNow;
    var rec := new RecordingBus(machine);
    ghost var base := cpus[..];
    stops', tick', called, ev' := Turn(g, h, cpus, rec, stops, tick, quantum, deadline, ev);
    ClearApart(base, h, rec.writes, cpus[h]);
    InvalidateOthers(cpus, h, rec.writes);
    m := rec.machine;
  }

  /** `run_smp`: deferring invalidation to the end of each turn gives the run in which it is immediate. */
  method RunSmp<C(!new), M>(g: Guest<C, M>, cpus: array<Hart<C>>, machine: Machine<M>, quantum: nat, deadline: nat, freeze: bool)
    returns (m: Machine<M>, stops: seq<Stop>, tick: nat, ghost ev: seq<Event>)
    requires Ends(g)
    modifies cpus
    ensures var r := RunNow(g, old(cpus[..]), machine, quantum, deadline, freeze);
      && All(cpus[..], m, ev) == r.w && tick == r.tick && |stops| == |r.stops|
      && forall i | 0 <= i < |stops| :: stops[i] == if r.stops[i].Some? then r.stops[i].value else Budget
  {
    hide Ends, ClearAll, ClearOthers, RunFrom, TurnNow;
    var n := cpus.Length;
    ghost var start := Opening(cpus[..], machine);
    ghost var full := RunNow(g, cpus[..], machine, quantum, deadline, freeze);
    var ends: seq<Option<Stop>> := seq(n, (i: nat) => None);
    m, tick, ev := machine, 0, [];
    if n == 0 {
      stops := [];
      return;
    }
    assert start.stops[0].None?;
    var called, over := false, false;
    while !over
      invariant |ends| == n == cpus.Length
      invariant var r := Run(All(cpus[..], m, ev), ends, tick, called);
        if over then full == r else LiveFrom(ends, 0) && full == RunFrom(g, r, 0, quantum, deadline, freeze)
      invariant !over ==> tick == 0 || tick < deadline
      decreases !over, deadline - tick
    {
      var h := 0;
      ghost var before := tick;
      while h < n && !over
        invariant |ends| == n == cpus.Length && h <= n && before <= tick
        invariant var r := Run(All(cpus[..], m, ev), ends, tick, called);
          if over then full == r else LiveFrom(ends, 0) && full == RunFrom(g, r, h, quantum, deadline, freeze)
        invariant !over && tick == before ==> LiveFrom(ends, h)
        invariant !over ==> tick == 0 || tick < deadline
        decreases !over, n - h
      {
        ghost var r := Run(All(cpus[..], m, ev), ends, tick, called);
        RunStep(g, r, h, quantum, deadline, freeze);
        if ends[h].None? {
          m, ends, tick, called, ev := FullTurn(g, h, cpus, m, ends, tick, quantum, deadline, ev);
          over := (freeze && called) || AllStopped(ends) || tick >= deadline;
        }
        h := h + 1;
      }
      RunWraps(g, Run(All(cpus[..], m, ev), ends, tick, called), h, quantum, deadline, freeze, over);
    }
    stops := seq(n, i requires 0 <= i < n => if ends[i].Some? then ends[i].value else Budget);
  }

  lemma RunStep<C(!new), M>(g: Guest<C, M>, r: Run<C, M>, k: nat, quantum: nat, deadline: nat, freeze: bool)
    requires Ends(g) && r.Fits() && k < |r.stops| && LiveFrom(r.stops, 0)
    ensures r.stops[k].Some? ==> RunFrom(g, r, k, quantum, deadline, freeze) == RunFrom(g, r, k + 1, quantum, deadline, freeze)
    ensures r.stops[k].None? ==>
      var r1 := TurnNow(g, k, r.(called := false), r.w.harts[k].retired + quantum, deadline);
      && r.tick < r1.tick
      && if Over(r1, deadline, freeze) then RunFrom(g, r, k, quantum, deadline, freeze) == r1
         else LiveFrom(r1.stops, 0) && RunFrom(g, r, k, quantum, deadline, freeze) == RunFrom(g, r1, k + 1, quantum, deadline, freeze)
    ensures r.stops[k].Some? && LiveFrom(r.stops, k) ==> LiveFrom(r.stops, k + 1)
  {
    hide Ends, TurnNow;
  }

  lemma RunWraps<C(!new), M>(g: Guest<C, M>, r: Run<C, M>, k: nat, quantum: nat, deadline: nat, freeze: bool, over: bool)
    requires Ends(g) && r.Fits() && (over || (k == |r.stops| && LiveFrom(r.stops, 0)))
    ensures !over ==> RunFrom(g, r, k, quantum, deadline, freeze) == RunFrom(g, r, 0, quantum, deadline, freeze)
  {
    hide Ends, TurnNow;
  }
}
