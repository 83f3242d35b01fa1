/** How the scheduler shares the machine out (crates/fs-platform/src/lib.rs): what a turn spends, whose turn is
    next, and what a stopped hart keeps. */
module Turns {
  import opened Words
  import opened Harts
  import opened Scheduler

  // ----- one step -----

  /** A step retires at most one instruction of its own hart and none of another. */
  lemma {:induction false} ExecRetires<C(!new), M>(g: Guest<C, M>, h: nat, w: All<C, M>)
    requires Ends(g) && h < |w.harts|
    ensures var v := ExecNow(g, h, w).0;
      && w.harts[h].retired <= v.harts[h].retired <= w.harts[h].retired + 1
      && forall i | 0 <= i < |w.harts| && i != h :: v.harts[i].retired == w.harts[i].retired && v.harts[i].core == w.harts[i].core
    decreases g.rank(w.harts[h].core)
  {
    hide Ends, NowAct;
    if !g.next(w.harts[h].core).Finish? {
      NowDown(g, h, w);
      ActRetires(g, h, w);
      ExecRetires(g, h, NowAct(g, h, w));
    }
  }

  lemma ActRetires<C(!new), M>(g: Guest<C, M>, h: nat, w: All<C, M>)
    requires h < |w.harts| && !g.next(w.harts[h].core).Finish?
    ensures var v := NowAct(g, h, w);
      && v.harts[h].retired == w.harts[h].retired
      && forall i | 0 <= i < |w.harts| && i != h :: v.harts[i].retired == w.harts[i].retired && v.harts[i].core == w.harts[i].core
  {
  }

  lemma StepRetires<C(!new), M>(g: Guest<C, M>, h: nat, r: Run<C, M>)
    requires Ends(g) && r.Fits() && h < |r.stops|
    ensures var r' := StepNow(g, h, r);
      && r.w.harts[h].retired <= r'.w.harts[h].retired <= r.w.harts[h].retired + 1
      && forall i | 0 <= i < |r.stops| && i != h ::
           r'.w.harts[i].retired == r.w.harts[i].retired && r'.w.harts[i].core == r.w.harts[i].core && r'.stops[i] == r.stops[i]
  {
    hide Ends, ExecNow;
    ExecRetires(g, h, BeginNow(g, h, r.w, r.tick));
  }

  /** A step sees the tick as the time, and stops its hart with what it exits with. */
  lemma StepMeans<C(!new), M>(g: Guest<C, M>, h: nat, r: Run<C, M>)
    requires Ends(g) && r.Fits() && h < |r.stops|
    ensures var w := BeginNow(g, h, r.w, r.tick);
      var (v, exit), r' := ExecNow(g, h, w), StepNow(g, h, r);
      && w.m.clint.mtime == r.tick && r'.w == v && r'.tick == r.tick + 1
      && (exit.Continue? ==> r'.stops == r.stops && r'.called == r.called)
      && (exit.HaltExit? ==> r'.stops[h] == Some(Halt(exit.code)) && r'.called == r.called)
      && (exit.HypercallExit? ==> r'.stops[h] == Some(Hypercall(exit.code)) && r'.called)
  {
    hide Ends, ExecNow;
  }

  /** Each hart has interrupt registers of its own: writing the compare value or the software bit of one is
      seen by that hart and by no other. */
  lemma ClintPrivate<C>(c: Hart<C>, k: Clint, i: nat, h: nat, cmp: u64, bit: u32)
    requires i < |k.mtimecmpExtra| && i < |k.msipExtra|
    ensures var d, e := ApplyClint(c, k, h), ApplyClint(c, k.(mtimecmpExtra := k.mtimecmpExtra[i := cmp], msipExtra := k.msipExtra[i := bit]), h);
      if h == i + 1 then e == c.(mtimecmp := cmp, msip := bit % 2 == 1) else e == d
    ensures var d, e := ApplyClint(c, k, h), ApplyClint(c, k.(mtimecmp := cmp, msip := bit), h);
      if h == 0 then e == c.(mtimecmp := cmp, msip := bit % 2 == 1) else e == d
  {
  }

  // ----- one turn -----

  /** The step that ended a turn: it was taken below the mark, and unless it was the first, with the hart
      running and ticks left. */
  ghost predicate LastStep<C(!new), M>(g: Guest<C, M>, h: nat, r: Run<C, M>, until: nat, deadline: nat, last: Run<C, M>, r': Run<C, M>)
    requires Ends(g)
  {
    && last.Fits() && h < |last.stops| && StepNow(g, h, last) == r'
    && (last == r || (last.w.harts[h].retired < until && last.stops[h].None? && last.tick < deadline))
  }

  lemma {:induction false} TurnLast<C(!new), M>(g: Guest<C, M>, h: nat, r: Run<C, M>, until: nat, deadline: nat) returns (last: Run<C, M>)
    requires Ends(g) && r.Fits() && h < |r.stops|
    ensures LastStep(g, h, r, until, deadline, last, TurnNow(g, h, r, until, deadline))
    ensures var r' := TurnNow(g, h, r, until, deadline);
      r'.stops[h].Some? || r'.w.harts[h].retired >= until || r'.tick >= deadline
    ensures until <= r.w.harts[h].retired ==> last == r
    decreases deadline - r.tick
  {
    hide Ends, StepNow;
    var r1 := StepNow(g, h, r);
    StepRetires(g, h, r);
    if r1.stops[h].Some? || r1.w.harts[h].retired >= until || r1.tick >= deadline {
      last := r;
    } else {
      last := TurnLast(g, h, r1, until, deadline);
    }
  }

  /** What a turn spends. For a quantum of at least one: it never retires more than the quantum, takes its last
      step with some of it left, and if it ends neither stopped nor at the deadline it has retired exactly
      the quantum. With no quantum it takes one step. */
  lemma TurnSpends<C(!new), M>(g: Guest<C, M>, h: nat, r: Run<C, M>, quantum: nat, deadline: nat) returns (last: Run<C, M>)
    requires Ends(g) && r.Fits() && h < |r.stops|
    ensures var had, r' := r.w.harts[h].retired, TurnNow(g, h, r, r.w.harts[h].retired + quantum, deadline);
      && last.Fits() && h < |last.stops| && StepNow(g, h, last) == r'
      && (last == r || (last.stops[h].None? && last.tick < deadline))
      && (quantum == 0 ==> last == r)
      && (quantum > 0 ==> last.w.harts[h].retired < had + quantum && r'.w.harts[h].retired <= had + quantum)
      && (quantum > 0 && r'.stops[h].None? && r'.tick < deadline ==> r'.w.harts[h].retired == had + quantum)
  {
    hide Ends, StepNow, TurnNow;
    last := TurnLast(g, h, r, r.w.harts[h].retired + quantum, deadline);
    StepRetires(g, h, last);
  }

  /** A turn is its own hart's: what another has retired, what it is about to do and whether it has stopped
      stay as they were. */
  lemma {:induction false} TurnOthers<C(!new), M>(g: Guest<C, M>, h: nat, r: Run<C, M>, until: nat, deadline: nat, i: nat)
    requires Ends(g) && r.Fits() && h < |r.stops| && i < |r.stops| && i != h
    ensures var r' := TurnNow(g, h, r, until, deadline);
      r'.w.harts[i].retired == r.w.harts[i].retired && r'.w.harts[i].core == r.w.harts[i].core && r'.stops[i] == r.stops[i]
    decreases deadline - r.tick
  {
    hide Ends, StepNow;
    StepRetires(g, h, r);
    var r1 := StepNow(g, h, r);
    if !TurnOver(r1, h, until, deadline) {
      TurnOthers(g, h, r1, until, deadline, i);
    }
  }

  // ----- one run -----

  /** Whose turn is next: the first hart still running from `k` on, else the first of all; it runs for the
      quantum, and the run ends after it iff the harts are frozen by a hypercall, or all stopped, or out of
      ticks. */
  lemma {:induction false} NextTurn<C(!new), M>(g: Guest<C, M>, r: Run<C, M>, k: nat, quantum: nat, deadline: nat, freeze: bool) returns (n: nat)
    requires Ends(g) && r.Fits() && k <= |r.stops| && exists i :: 0 <= i < |r.stops| && r.stops[i].None?
    ensures LiveFrom(r.stops, 0) && n < |r.stops| && r.stops[n].None?
    ensures if n >= k then forall i | k <= i < n :: r.stops[i].Some?
            else (forall i | k <= i < |r.stops| :: r.stops[i].Some?) && forall i | 0 <= i < n :: r.stops[i].Some?
    ensures var r1, all := TurnNow(g, n, r.(called := false), r.w.harts[n].retired + quantum, deadline), RunFrom(g, r, k, quantum, deadline, freeze);
      if (freeze && r1.called) || (forall i | 0 <= i < |r1.stops| :: r1.stops[i].Some?) || r1.tick >= deadline then all == r1
      else LiveFrom(r1.stops, 0) && all == RunFrom(g, r1, n + 1, quantum, deadline, freeze)
    decreases if LiveFrom(r.stops, k) then 0 else 1, |r.stops| - k
  {
    hide Ends, TurnNow, RunFrom;
    if k == |r.stops| {
      RunWraps(g, r, k, quantum, deadline, freeze, false);
      n := NextTurn(g, r, 0, quantum, deadline, freeze);
    } else {
      RunStep(g, r, k, quantum, deadline, freeze);
      if r.stops[k].Some? {
        n := NextTurn(g, r, k + 1, quantum, deadline, freeze);
      } else {
        n := k;
      }
    }
  }

  /** A hart that has stopped is done: it keeps its stop, its count and its state to the end of the run. */
  lemma {:induction false} StoppedStays<C(!new), M>(g: Guest<C, M>, r: Run<C, M>, k: nat, quantum: nat, deadline: nat, freeze: bool, i: nat)
    requires Ends(g) && r.Fits() && k <= |r.stops| && LiveFrom(r.stops, 0) && i < |r.stops| && r.stops[i].Some?
    ensures var r' := RunFrom(g, r, k, quantum, deadline, freeze);
      r'.stops[i] == r.stops[i] && r'.w.harts[i].retired == r.w.harts[i].retired && r'.w.harts[i].core == r.w.harts[i].core
    decreases deadline - r.tick, if LiveFrom(r.stops, k) then 0 else 1, |r.stops| - k
  {
    hide Ends, TurnNow, RunFrom;
    if k == |r.stops| {
      RunWraps(g, r, k, quantum, deadline, freeze, false);
      StoppedStays(g, r, 0, quantum, deadline, freeze, i);
    } else {
      RunStep(g, r, k, quantum, deadline, freeze);
      if r.stops[k].Some? {
        StoppedStays(g, r, k + 1, quantum, deadline, freeze, i);
      } else {
        var r0, until := r.(called := false), r.w.harts[k].retired + quantum;
        TurnOthers(g, k, r0, until, deadline, i);
        var r1 := TurnNow(g, k, r0, until, deadline);
        if !Over(r1, deadline, freeze) {
          StoppedStays(g, r1, k + 1, quantum, deadline, freeze, i);
        }
      }
    }
  }
}
