/** What a store-conditional may rely on: over a whole run of the scheduler a reservation is exactly what the
    history says it is (crates/fs-platform/src/lib.rs, crates/fs-riscv/src/lib.rs). */
module Reservations {
  import opened Words
  import opened Harts
  import opened Scheduler

  // ----- reservations from history -----

  predicate EndsIt(e: Event, h: nat, a: u32)
  {
    match e
    case Reserved(i, _) => i == h
    case Dropped(i) => i == h
    case Wrote(i, s, n) => i != h && Covers(s, n, a)
    case Checked(_, _, _) => false
  }

  /** Hart `h`'s reservation after `ev`, started from `init`. */
  function Held(ev: seq<Event>, h: nat, init: Option<u32>): Option<u32>
  {
    if ev == [] then init
    else
      var e, was := ev[|ev| - 1], Held(ev[..|ev| - 1], h, init);
      if e.Reserved? && e.h == h then Some(e.a)
      else if was.Some? && EndsIt(e, h, was.value) then None
      else was
  }

  /** Nothing from `from` on ends a reservation of `a`. */
  ghost predicate Quiet(ev: seq<Event>, from: nat, h: nat, a: u32)
  {
    forall x | from <= x < |ev| :: !EndsIt(ev[x], h, a)
  }

  /** `a` is held iff it was reserved, or held at the start, and nothing since has ended it. */
  lemma {:induction false} HeldMeans(ev: seq<Event>, h: nat, init: Option<u32>, a: u32)
    ensures Held(ev, h, init) == Some(a) <==>
      (init == Some(a) && Quiet(ev, 0, h, a)) || exists j | 0 <= j < |ev| :: ev[j] == Reserved(h, a) && Quiet(ev, j + 1, h, a)
    decreases |ev|
  {
    if ev != [] {
      var n := |ev| - 1;
      var less, e := ev[..n], ev[n];
      HeldMeans(less, h, init, a);
      if e == Reserved(h, a) {
        assert Quiet(ev, n + 1, h, a);
      } else {
        forall j | 0 <= j <= n ensures Quiet(ev, j, h, a) <==> Quiet(less, j, h, a) && !EndsIt(e, h, a) {
          QuietLast(ev, j, h, a);
        }
        if j :| 0 <= j < n && less[j] == Reserved(h, a) && Quiet(less, j + 1, h, a) {
          assert ev[j] == Reserved(h, a);
        }
        if j :| 0 <= j < n && ev[j] == Reserved(h, a) && Quiet(ev, j + 1, h, a) {
          assert less[j] == Reserved(h, a);
        }
      }
    }
  }

  lemma QuietLast(ev: seq<Event>, j: nat, h: nat, a: u32)
    requires j < |ev|
    ensures Quiet(ev, j, h, a) <==> Quiet(ev[..|ev| - 1], j, h, a) && !EndsIt(ev[|ev| - 1], h, a)
  {
    var less := ev[..|ev| - 1];
    if Quiet(less, j, h, a) && !EndsIt(ev[|ev| - 1], h, a) {
      forall x | j <= x < |ev| ensures !EndsIt(ev[x], h, a) {
        assert x < |less| ==> !EndsIt(less[x], h, a);
      }
    }
  }

  // ----- every run keeps the account -----

  type Init = seq<Option<u32>>

  ghost predicate HonestAt(ev: seq<Event>, init: Init, x: nat)
    requires x < |ev|
  {
    ev[x].Checked? ==> ev[x].h < |init| && (ev[x].ok <==> Held(ev[..x], ev[x].h, init[ev[x].h]) == Some(ev[x].a))
  }

  /** Every reservation, and the answer of every check, is what the history says. */
  ghost predicate Kept<C(!new), M>(w: All<C, M>, init: Init)
  {
    && |w.harts| == |init|
    && (forall i | 0 <= i < |init| :: w.harts[i].reservation == Held(w.ev, i, init[i]))
    && (forall x | 0 <= x < |w.ev| :: HonestAt(w.ev, init, x))
  }

  lemma HonestMore(ev: seq<Event>, e: Event, init: Init)
    requires forall x | 0 <= x < |ev| :: HonestAt(ev, init, x)
    requires e.Checked? ==> e.h < |init| && (e.ok <==> Held(ev, e.h, init[e.h]) == Some(e.a))
    ensures forall x | 0 <= x < |ev + [e]| :: HonestAt(ev + [e], init, x)
  {
    hide Held;
    var more := ev + [e];
    forall x | 0 <= x < |more| ensures HonestAt(more, init, x) {
      assert more[..x] == ev[..x];
      if x < |ev| {
        assert HonestAt(ev, init, x);
      } else {
        assert ev[..x] == ev;
      }
    }
  }

  lemma HeldMore(ev: seq<Event>, e: Event, h: nat, init: Option<u32>)
    ensures var was := Held(ev, h, init);
      Held(ev + [e], h, init) ==
        if e.Reserved? && e.h == h then Some(e.a) else if was.Some? && EndsIt(e, h, was.value) then None else was
  {
    assert (ev + [e])[..|ev|] == ev;
  }

  lemma ActKeeps<C(!new), M>(g: Guest<C, M>, h: nat, w: All<C, M>, init: Init)
    requires h < |w.harts| && !g.next(w.harts[h].core).Finish? && Kept(w, init)
    ensures Kept(NowAct(g, h, w), init)
  {
    hide Held, HonestAt;
    var r := NowAct(g, h, w);
    if r.ev == w.ev {
    } else {
      var e := r.ev[|w.ev|];
      assert r.ev == w.ev + [e];
      HonestMore(w.ev, e, init);
      forall i | 0 <= i < |init| ensures r.harts[i].reservation == Held(r.ev, i, init[i]) {
        HeldMore(w.ev, e, i, init[i]);
      }
    }
  }

  lemma {:induction false} ExecKeeps<C(!new), M>(g: Guest<C, M>, h: nat, w: All<C, M>, init: Init)
    requires Ends(g) && h < |w.harts| && Kept(w, init)
    ensures Kept(ExecNow(g, h, w).0, init)
    decreases g.rank(w.harts[h].core)
  {
    hide Ends, NowAct, Held, HonestAt;
    if g.next(w.harts[h].core).Finish? {
    } else {
      NowDown(g, h, w);
      ActKeeps(g, h, w, init);
      ExecKeeps(g, h, NowAct(g, h, w), init);
    }
  }

  lemma StepKeeps<C(!new), M>(g: Guest<C, M>, h: nat, r: Run<C, M>, init: Init)
    requires Ends(g) && r.Fits() && h < |r.stops| && Kept(r.w, init)
    ensures Kept(StepNow(g, h, r).w, init)
  {
    hide Ends, ExecNow, Held, HonestAt;
    ExecKeeps(g, h, BeginNow(g, h, r.w, r.tick), init);
  }

  lemma {:induction false} TurnKeeps<C(!new), M>(g: Guest<C, M>, h: nat, r: Run<C, M>, until: nat, deadline: nat, init: Init)
    requires Ends(g) && r.Fits() && h < |r.stops| && Kept(r.w, init)
    ensures Kept(TurnNow(g, h, r, until, deadline).w, init)
    decreases deadline - r.tick
  {
    hide Ends, StepNow, Kept;
    StepKeeps(g, h, r, init);
    var r1 := StepNow(g, h, r);
    if !TurnOver(r1, h, until, deadline) {
      TurnKeeps(g, h, r1, until, deadline, init);
    }
  }

  lemma {:induction false} RunKeeps<C(!new), M>(g: Guest<C, M>, r: Run<C, M>, k: nat, quantum: nat, deadline: nat, freeze: bool, init: Init)
    requires Ends(g) && r.Fits() && k <= |r.stops| && LiveFrom(r.stops, 0) && Kept(r.w, init)
    ensures Kept(RunFrom(g, r, k, quantum, deadline, freeze).w, init)
    decreases deadline - r.tick, if LiveFrom(r.stops, k) then 0 else 1, |r.stops| - k
  {
    hide Ends, TurnNow, Kept;
    if k == |r.stops| {
      RunKeeps(g, r, 0, quantum, deadline, freeze, init);
    } else if r.stops[k].Some? {
      RunKeeps(g, r, k + 1, quantum, deadline, freeze, init);
    } else {
      var until := r.w.harts[k].retired + quantum;
      TurnKeeps(g, k, r.(called := false), until, deadline, init);
      var r1 := TurnNow(g, k, r.(called := false), until, deadline);
      if !Over(r1, deadline, freeze) {
        RunKeeps(g, r1, k + 1, quantum, deadline, freeze, init);
      }
    }
  }

  function Starting<C>(harts: seq<Hart<C>>): (r: Init)
    ensures |r| == |harts| && forall i | 0 <= i < |harts| :: r[i] == harts[i].reservation
  {
    seq(|harts|, i requires 0 <= i < |harts| => harts[i].reservation)
  }

  /** Over every run, for every hart count, quantum and deadline: a store-conditional at `a` succeeds iff
      its hart reserved `a`, or started with it, and since then neither gave it up nor saw another hart's
      store cover the byte at `a`. */
  lemma ConditionalSucceedsIff<C(!new), M>(g: Guest<C, M>, harts: seq<Hart<C>>, m: Machine<M>, quantum: nat, deadline: nat,
                                           freeze: bool, x: nat)
    requires Ends(g)
    requires var ev := RunNow(g, harts, m, quantum, deadline, freeze).w.ev; x < |ev| && ev[x].Checked?
    ensures var ev := RunNow(g, harts, m, quantum, deadline, freeze).w.ev;
      && ev[x].h < |harts|
      && var h, a, past := ev[x].h, ev[x].a, ev[..x];
        ev[x].ok <==> (harts[h].reservation == Some(a) && Quiet(past, 0, h, a)) ||
                      exists j | 0 <= j < x :: ev[j] == Reserved(h, a) && Quiet(past, j + 1, h, a)
  {
    hide Ends, RunFrom, Held, Quiet;
    var ev := RunNow(g, harts, m, quantum, deadline, freeze).w.ev;
    var init := Starting(harts);
    Account(g, harts, m, quantum, deadline, freeze);
    assert HonestAt(ev, init, x);
    HeldMeans(ev[..x], ev[x].h, init[ev[x].h], ev[x].a);
    forall j | 0 <= j < x ensures ev[..x][j] == ev[j] {
    }
  }

  lemma Account<C(!new), M>(g: Guest<C, M>, harts: seq<Hart<C>>, m: Machine<M>, quantum: nat, deadline: nat, freeze: bool)
    requires Ends(g)
    ensures Kept(RunNow(g, harts, m, quantum, deadline, freeze).w, Starting(harts))
  {
    hide Ends, RunFrom;
    var r := Opening(harts, m);
    if harts != [] {
      assert r.stops[0].None?;
      RunKeeps(g, r, 0, quantum, deadline, freeze, Starting(harts));
    }
  }

  // ----- overlapping stores -----

  /** Two spans of bytes meet. */
  predicate Overlap(a: u32, n: nat, b: u32, k: nat) { a < b + k && b < a + n }

  /** Another hart's store ends a reservation iff it writes the reserved address itself; its own never does. */
  lemma EndsExactly(h: nat, r: u32, other: nat, s: u32, n: nat)
    ensures EndsIt(Wrote(other, s, n), h, r) <==> other != h && s <= r && r - s <= n - 1
  {
  }

  /** A store that overlaps the reserved word ends the reservation iff it starts at or below it. */
  lemma OverlapEnds(h: nat, r: u32, other: nat, s: u32, n: nat)
    requires other != h && Overlap(s, n, r, 4)
    ensures EndsIt(Wrote(other, s, n), h, r) <==> s <= r
  {
  }

  /** What is guaranteed: between the reservation and a successful check, another hart's store to the word
      can only have started inside it, so an aligned word store never slips through. */
  lemma NoWordStoreBetween(past: seq<Event>, from: nat, h: nat, r: u32, x: nat)
    requires Quiet(past, from, h, r) && from <= x < |past| && past[x].Wrote? && past[x].h != h
    requires Overlap(past[x].a, past[x].n, r, 4)
    ensures r < past[x].a < r + 4
    ensures !(past[x].n == 4 && past[x].a % 4 == 0 && r % 4 == 0)
  {
    assert !EndsIt(past[x], h, r);
  }

  /** A reservation that lasted met no overlapping store of another hart iff none started inside its word. */
  lemma CleanIff(past: seq<Event>, from: nat, h: nat, r: u32)
    requires Quiet(past, from, h, r)
    ensures Clean(past, from, h, r) <==>
      forall x | from <= x < |past| && past[x].Wrote? && past[x].h != h :: !(r < past[x].a < r + 4)
  {
    if Clean(past, from, h, r) {
      forall x | from <= x < |past| && past[x].Wrote? && past[x].h != h ensures !(r < past[x].a < r + 4) {
        assert !Overlap(past[x].a, past[x].n, r, 4);
      }
    } else {
      var x :| from <= x < |past| && past[x].Wrote? && past[x].h != h && Overlap(past[x].a, past[x].n, r, 4);
      NoWordStoreBetween(past, from, h, r, x);
    }
  }

  ghost predicate Clean(past: seq<Event>, from: nat, h: nat, r: u32)
  {
    forall x | from <= x < |past| && past[x].Wrote? && past[x].h != h :: !Overlap(past[x].a, past[x].n, r, 4)
  }

  ghost predicate WordStores(ev: seq<Event>)
  {
    forall x | 0 <= x < |ev| && ev[x].Wrote? :: ev[x].n == 4 && ev[x].a % 4 == 0
  }

  /** When all stores are aligned words, a store-conditional on an aligned address never succeeds across another
      hart's store to the word with that physical address. */
  lemma WordsExclude<C(!new), M>(g: Guest<C, M>, harts: seq<Hart<C>>, m: Machine<M>, quantum: nat, deadline: nat, freeze: bool, x: nat)
    requires Ends(g)
    requires var ev := RunNow(g, harts, m, quantum, deadline, freeze).w.ev;
      x < |ev| && ev[x].Checked? && ev[x].ok && ev[x].a % 4 == 0 && WordStores(ev[..x])
    ensures var ev := RunNow(g, harts, m, quantum, deadline, freeze).w.ev;
      && ev[x].h < |harts|
      && ((harts[ev[x].h].reservation == Some(ev[x].a) && Clean(ev[..x], 0, ev[x].h, ev[x].a)) ||
          exists j | 0 <= j < x :: ev[j] == Reserved(ev[x].h, ev[x].a) && Clean(ev[..x], j + 1, ev[x].h, ev[x].a))
  {
    hide Ends, RunNow, Quiet, Clean;
    ConditionalSucceedsIff(g, harts, m, quantum, deadline, freeze, x);
    var ev := RunNow(g, harts, m, quantum, deadline, freeze).w.ev;
    var h, a, past := ev[x].h, ev[x].a, ev[..x];
    if harts[h].reservation == Some(a) && Quiet(past, 0, h, a) {
      WordsClean(past, 0, h, a);
    } else {
      var j :| 0 <= j < x && ev[j] == Reserved(h, a) && Quiet(past, j + 1, h, a);
      WordsClean(past, j + 1, h, a);
    }
  }

  lemma WordsClean(past: seq<Event>, from: nat, h: nat, r: u32)
    requires Quiet(past, from, h, r) && WordStores(past) && r % 4 == 0
    ensures Clean(past, from, h, r)
  {
    hide Quiet;
    forall x | from <= x < |past| && past[x].Wrote? && past[x].h != h ensures !Overlap(past[x].a, past[x].n, r, 4) {
      assert past[x].n == 4 && past[x].a % 4 == 0;
      if Overlap(past[x].a, past[x].n, r, 4) {
        NoWordStoreBetween(past, from, h, r, x);
      }
    }
  }

  /** Reservations go by virtual address, stores by physical: an aligned word store to `pa` ends a reservation
      of the aligned word `va` iff the two are the same number. */
  lemma AliasEnds(h: nat, va: u32, other: nat, pa: u32)
    requires other != h && va % 4 == 0 && pa % 4 == 0
    ensures EndsIt(Wrote(other, pa, 4), h, va) <==> va == pa
  {
  }

  /** Aligned word stores exclude each other from the word at `pa`, reserved as `va`, in every history iff
      virtual and physical address agree. */
  lemma ExcludesIff(h: nat, va: u32, pa: u32)
    requires va % 4 == 0 && pa % 4 == 0
    ensures va == pa <==> forall past: seq<Event>, from: nat | Quiet(past, from, h, va) && WordStores(past) :: Clean(past, from, h, pa)
  {
    hide Quiet, Clean, WordStores;
    if va == pa {
      forall past: seq<Event>, from: nat | Quiet(past, from, h, va) && WordStores(past) ensures Clean(past, from, h, pa) {
        WordsClean(past, from, h, pa);
      }
    } else {
      AliasUnseen(h, va, pa);
    }
  }

  lemma AliasUnseen(h: nat, va: u32, pa: u32)
    requires va % 4 == 0 && pa % 4 == 0 && va != pa
    ensures var past := [Wrote(h + 1, pa, 4)]; Quiet(past, 0, h, va) && WordStores(past) && !Clean(past, 0, h, pa)
  {
    var past := [Wrote(h + 1, pa, 4)];
    AliasEnds(h, va, h + 1, pa);
    assert past[0].Wrote? && past[0].h != h && Overlap(pa, 4, pa, 4);
  }

  /** Steps, not retired instructions, use up the budget: at most `deadline`, but at least one when there is
      a hart. */
  lemma StepsBounded<C(!new), M>(g: Guest<C, M>, harts: seq<Hart<C>>, m: Machine<M>, quantum: nat, deadline: nat, freeze: bool)
    requires Ends(g)
    ensures var r := RunNow(g, harts, m, quantum, deadline, freeze);
      && r.tick <= (if deadline > 1 then deadline else 1)
      && (harts == [] ==> r.tick == 0)
      && (harts != [] ==> (freeze && r.called) || AllStopped(r.stops) || r.tick >= deadline)
  {
    hide Ends, RunFrom;
    if harts != [] {
      var r := Opening(harts, m);
      assert r.stops[0].None?;
    }
  }

  // ----- runs of two harts -----

  /** The first hart reserves `r` in one step and conditionally stores there in its next; in between the second
      stores `n` bytes at `s`. */
  datatype Script = Ready | Reserving | Waiting | Checking | Done | Other | Writing | Written

  function TwoHarts(r: u32, s: u32, n: nat): Guest<Script, int>
  {
    Guest(
      (c: Script, retired: nat, cmp: u64, msip: bool) =>
        if c.Ready? then Reserving else if c.Waiting? then Checking else if c.Other? then Writing else c,
      (c: Script) =>
        if c.Reserving? then Reserve(r)
        else if c.Checking? then Check(r)
        else if c.Writing? then Ask(Put(s, n, 7))
        else Finish(if c.Done? then HypercallExit(1) else Continue, true),
      (c: Script, a: Ans) =>
        if c.Reserving? then Waiting else if c.Checking? then Done else if c.Writing? then Written else c,
      (c: Script) => if c.Reserving? || c.Checking? || c.Writing? then 1 else 0,
      (m: Machine<int>, req: Req) => (m, Good(0)))
  }

  lemma TwoHartsEnd(r: u32, s: u32, n: nat)
    ensures Ends(TwoHarts(r, s, n))
  {
    forall c: Script, a: Ans ensures Sinks(TwoHarts(r, s, n), c, a) {
    }
  }

  function First(c: Script, reserved: Option<u32>, retired: nat): Hart<Script> { Hart(c, reserved, retired, 0, false) }

  function Second(c: Script, retired: nat): Hart<Script> { Hart(c, None, retired, 0xffff_ffff_ffff_ffff, false) }

  function Still(tick: nat): Machine<int> { Machine(Clint(tick, 0, 0, [], []), 0) }

  function Left(r: u32, s: u32, n: nat): Option<u32> { if Covers(s, n, r) then None else Some(r) }

  /** The run before the first step, and after each. */
  function Run0(): Run<Script, int>
  {
    Run(All([First(Ready, None, 0), Second(Other, 0)], Still(0), []), [None, None], 0, false)
  }

  function Run1(r: u32): Run<Script, int>
  {
    Run(All([First(Waiting, Some(r), 1), Second(Other, 0)], Still(0), [Reserved(0, r)]), [None, None], 1, false)
  }

  function Run2(r: u32, s: u32, n: nat): Run<Script, int>
  {
    Run(All([First(Waiting, Left(r, s, n), 1), Second(Written, 1)], Still(1), [Reserved(0, r), Wrote(1, s, n)]),
        [None, None], 2, false)
  }

  function Run3(r: u32, s: u32, n: nat): Run<Script, int>
  {
    Run(All([First(Done, Left(r, s, n), 2), Second(Written, 1)], Still(2),
            [Reserved(0, r), Wrote(1, s, n), Checked(0, r, !Covers(s, n, r))]),
        [Some(Hypercall(1)), None], 3, true)
  }

  lemma Step0(r: u32, s: u32, n: nat)
    requires Ends(TwoHarts(r, s, n))
    ensures StepNow(TwoHarts(r, s, n), 0, Run0()) == Run1(r)
  {
    var g := TwoHarts(r, s, n);
    var w := BeginNow(g, 0, Run0().w, 0);
    assert w.harts == [First(Reserving, None, 0), Second(Other, 0)];
    var v := NowAct(g, 0, w);
    assert v.harts == [First(Waiting, Some(r), 0), Second(Other, 0)];
    assert ExecNow(g, 0, w) == ExecNow(g, 0, v);
  }

  lemma Step1(r: u32, s: u32, n: nat)
    requires Ends(TwoHarts(r, s, n))
    ensures StepNow(TwoHarts(r, s, n), 1, Run1(r)) == Run2(r, s, n)
  {
    var g := TwoHarts(r, s, n);
    var w := BeginNow(g, 1, Run1(r).w, 1);
    assert w.harts == [First(Waiting, Some(r), 1), Second(Writing, 0)];
    var v := NowAct(g, 1, w);
    assert v.harts == [First(Waiting, Left(r, s, n), 1), Second(Written, 0)];
    assert ExecNow(g, 1, w) == ExecNow(g, 1, v);
  }

  lemma Step2(r: u32, s: u32, n: nat)
    requires Ends(TwoHarts(r, s, n))
    ensures StepNow(TwoHarts(r, s, n), 0, Run2(r, s, n)) == Run3(r, s, n)
  {
    var g := TwoHarts(r, s, n);
    var w := BeginNow(g, 0, Run2(r, s, n).w, 2);
    assert w.harts == [First(Checking, Left(r, s, n), 1), Second(Written, 1)];
    var v := NowAct(g, 0, w);
    assert v.harts == [First(Done, Left(r, s, n), 1), Second(Written, 1)];
    assert ExecNow(g, 0, w) == ExecNow(g, 0, v);
  }

  lemma OneStepTurn(g: Guest<Script, int>, h: nat, r: Run<Script, int>, until: nat, deadline: nat)
    requires Ends(g) && r.Fits() && h < |r.stops| && TurnOver(StepNow(g, h, r), h, until, deadline)
    ensures TurnNow(g, h, r, until, deadline) == StepNow(g, h, r)
  {
    hide StepNow;
  }

  function TwoHartEvents(r: u32, s: u32, n: nat): seq<Event>
    requires Ends(TwoHarts(r, s, n))
  {
    RunNow(TwoHarts(r, s, n), [First(Ready, None, 0), Second(Other, 0)], Still(0), 1, 10, true).w.ev
  }

  /** Whatever is reserved and wherever the other hart stores, the conditional store of this run succeeds iff
      the store did not cover the reserved address. */
  lemma SlipsThroughIff(r: u32, s: u32, n: nat)
    ensures Ends(TwoHarts(r, s, n))
    ensures TwoHartEvents(r, s, n) == [Reserved(0, r), Wrote(1, s, n), Checked(0, r, !Covers(s, n, r))]
  {
    hide Ends, StepNow, TurnNow, TwoHarts;
    TwoHartsEnd(r, s, n);
    var g := TwoHarts(r, s, n);
    assert Opening([First(Ready, None, 0), Second(Other, 0)], Still(0)).stops == Run0().stops;
    Step0(r, s, n);
    OneStepTurn(g, 0, Run0(), 1, 10);
    Step1(r, s, n);
    OneStepTurn(g, 1, Run1(r), 1, 10);
    Step2(r, s, n);
    OneStepTurn(g, 0, Run2(r, s, n), 2, 10);
    Unroll(g, Run0(), Run1(r), Run2(r, s, n));
  }

  /** A byte stored into the reserved word, but not at its first byte, goes unseen. */
  lemma ByteStoreSlipsThrough()
    ensures Ends(TwoHarts(0x100, 0x101, 1))
    ensures TwoHartEvents(0x100, 0x101, 1) == [Reserved(0, 0x100), Wrote(1, 0x101, 1), Checked(0, 0x100, true)]
    ensures Overlap(0x101, 1, 0x100, 4)
  {
    hide Ends, TwoHarts, TwoHartEvents;
    SlipsThroughIff(0x100, 0x101, 1);
  }

  /** So does an aligned word stored to the reserved word itself, when the reservation was made through a
      virtual address 0xc0000100 that the page tables map to the physical 0x80000100. */
  lemma AliasSlipsThrough()
    ensures Ends(TwoHarts(0xc000_0100, 0x8000_0100, 4))
    ensures TwoHartEvents(0xc000_0100, 0x8000_0100, 4) ==
            [Reserved(0, 0xc000_0100), Wrote(1, 0x8000_0100, 4), Checked(0, 0xc000_0100, true)]
  {
    hide Ends, TwoHarts, TwoHartEvents;
    SlipsThroughIff(0xc000_0100, 0x8000_0100, 4);
  }

  lemma Unroll(g: Guest<Script, int>, r0: Run<Script, int>, r1: Run<Script, int>, r2: Run<Script, int>)
    requires Ends(g) && r0.Fits() && r0.stops == r1.stops == r2.stops == [None, None] && r1.Fits() && r2.Fits()
    requires !r0.called && !r1.called && !r2.called && r0.tick == 0 && r1.tick < 10 && r2.tick < 10
    requires r1 == TurnNow(g, 0, r0, r0.w.harts[0].retired + 1, 10)
    requires r2 == TurnNow(g, 1, r1, r1.w.harts[1].retired + 1, 10)
    requires var r3 := TurnNow(g, 0, r2, r2.w.harts[0].retired + 1, 10); r3.called
    ensures LiveFrom(r0.stops, 0)
    ensures RunFrom(g, r0, 0, 1, 10, true) == TurnNow(g, 0, r2, r2.w.harts[0].retired + 1, 10)
  {
    hide Ends, TurnNow, RunFrom;
    assert r0.stops[0].None?;
    RunStep(g, r0, 0, 1, 10, true);
    RunStep(g, r1, 1, 1, 10, true);
    RunWraps(g, r2, 2, 1, 10, true, false);
    RunStep(g, r2, 0, 1, 10, true);
  }
}
