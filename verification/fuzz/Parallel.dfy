/** The parallel fuzz loop (crates/fs-cli/src/main.rs) as a step relation: any number of workers, each
    with stale snapshots and batched counters, sharing one case counter and one rarely taken lock. */
module Parallel {
  import opened Words
  import opened Coverage

  /** Programs are only copied and compared here. */
  type Prog = nat

  const SYNC_INTERVAL: nat := 64

  datatype StopKind = HyperDone | Budget | OtherStop

  /** What executing one case gave: the program it ran, its edge map, and how it ended. */
  datatype Run = Run(prog: Prog, map_: Hits, insns: nat, stop: StopKind, crash: Option<u32>)

  datatype Stats = Stats(insns: int, done: int, budget: int, finished: int)

  function Add(a: Stats, b: Stats): Stats { Stats(a.insns + b.insns, a.done + b.done, a.budget + b.budget, a.finished + b.finished) }

  function Sub(a: Stats, b: Stats): Stats { Stats(a.insns - b.insns, a.done - b.done, a.budget - b.budget, a.finished - b.finished) }

  const NONE := Stats(0, 0, 0, 0)

  function Of(r: Run): Stats
  {
    Stats(r.insns, if r.stop.HyperDone? then 1 else 0, if r.stop.Budget? then 1 else 0, 1)
  }

  /** Where a worker is: not started, between cases, running one, waiting for the lock with a finished
      one, or past its last. */
  datatype Pc = Starting | Idle | Claimed(case_: nat) | Merging(case_: nat, run: Run, isNew: bool) | Flushing | Ended

  datatype Worker = Worker(pc: Pc, virgin: Hits, corpus: seq<Prog>, local: Stats, sinceSync: nat)

  datatype Shared = Shared(virgin: Hits, corpus: seq<Prog>, sigs: set<u32>, crashes: nat, stats: Stats)

  /** One case, at the moment its effect on the shared state is decided. */
  datatype Entry = Entry(case_: nat, run: Run)

  datatype System = System(workers: seq<Worker>, shared: Shared, counter: nat, log: seq<Entry>)

  datatype Action = Start(tid: nat) | Claim(tid: nat) | Execute(tid: nat, run: Run) | Merge(tid: nat) | Flush(tid: nat)

  predicate Enabled(s: System, a: Action)
  {
    a.tid < |s.workers| &&
    var pc := s.workers[a.tid].pc;
    match a
    case Start(_) => pc.Starting?
    case Claim(_) => pc.Idle?
    case Execute(_, _) => pc.Claimed?
    case Merge(_) => pc.Merging?
    case Flush(_) => pc.Flushing?
  }

  /** After a case: fold it into the worker's own counters and snapshot, and decide about the lock. */
  function Executed(w: Worker, r: Run): (w': Worker)
    requires w.pc.Claimed?
  {
    var isNew := HasNew(w.virgin, r.map_);
    var since := w.sinceSync + 1;
    var pc := if isNew || r.crash.Some? || since >= SYNC_INTERVAL then Merging(w.pc.case_, r, isNew) else Idle;
    Worker(pc, Join(w.virgin, r.map_), w.corpus, Add(w.local, Of(r)), since)
  }

  /** The critical section: flush the counters, ask the authoritative map, record a crash. */
  function Merged(sh: Shared, w: Worker): Shared
    requires w.pc.Merging?
  {
    var r := w.pc.run;
    var fresh_ := w.pc.isNew && HasNew(sh.virgin, r.map_);
    Shared(if w.pc.isNew then Join(sh.virgin, r.map_) else sh.virgin,
           if fresh_ then sh.corpus + [r.prog] else sh.corpus,
           if r.crash.Some? then sh.sigs + {r.crash.value} else sh.sigs,
           sh.crashes + if r.crash.Some? then 1 else 0,
           Add(sh.stats, w.local))
  }

  function Refreshed(w: Worker, sh: Shared): Worker
  {
    var corpus := if |sh.corpus| > |w.corpus| then w.corpus + sh.corpus[|w.corpus|..] else w.corpus;
    Worker(Idle, sh.virgin, corpus, NONE, 0)
  }

  function Apply(s: System, cases: nat, a: Action): System
    requires Enabled(s, a)
  {
    var w := s.workers[a.tid];
    match a
    case Start(t) => s.(workers := s.workers[t := Worker(Idle, s.shared.virgin, s.shared.corpus, NONE, 0)])
    case Claim(t) =>
      s.(workers := s.workers[t := w.(pc := if s.counter < cases then Claimed(s.counter) else Flushing)],
         counter := s.counter + 1)
    case Execute(t, r) =>
      var w' := Executed(w, r);
      s.(workers := s.workers[t := w'],
         log := if w'.pc.Merging? then s.log else s.log + [Entry(w.pc.case_, r)])
    case Merge(t) =>
      var sh := Merged(s.shared, w);
      s.(workers := s.workers[t := Refreshed(w, sh)], shared := sh, log := s.log + [Entry(w.pc.case_, w.pc.run)])
    case Flush(t) =>
      s.(workers := s.workers[t := w.(pc := Ended, local := NONE)], shared := s.shared.(stats := Add(s.shared.stats, w.local)))
  }

  function Init(jobs: nat, virgin: Hits, corpus: seq<Prog>): System
  {
    System(seq(jobs, _ => Worker(Starting, virgin, corpus, NONE, 0)), Shared(virgin, corpus, {}, 0, NONE), 0, [])
  }

  // ----- the serial reference -----

  datatype Serial = Serial(virgin: Hits, corpus: seq<Prog>, sigs: set<u32>, crashes: nat, stats: Stats)

  /** One authoritative fold per case, in the order of the log. */
  function Fold(virgin: Hits, corpus: seq<Prog>, log: seq<Entry>): Serial
  {
    if log == [] then Serial(virgin, corpus, {}, 0, NONE)
    else
      var p, r := Fold(virgin, corpus, log[..|log| - 1]), log[|log| - 1].run;
      Serial(Join(p.virgin, r.map_),
             if HasNew(p.virgin, r.map_) then p.corpus + [r.prog] else p.corpus,
             if r.crash.Some? then p.sigs + {r.crash.value} else p.sigs,
             p.crashes + if r.crash.Some? then 1 else 0,
             Add(p.stats, Of(r)))
  }

  lemma FoldSnoc(virgin: Hits, corpus: seq<Prog>, log: seq<Entry>, e: Entry)
    ensures var p, r := Fold(virgin, corpus, log), e.run;
      Fold(virgin, corpus, log + [e]) ==
        Serial(Join(p.virgin, r.map_), if HasNew(p.virgin, r.map_) then p.corpus + [r.prog] else p.corpus,
               if r.crash.Some? then p.sigs + {r.crash.value} else p.sigs, p.crashes + (if r.crash.Some? then 1 else 0),
               Add(p.stats, Of(r)))
  {
    assert (log + [e])[..|log|] == log;
  }

  // ----- accounting -----

  /** What a worker has counted but not flushed, less what it has counted of an unlogged case. */
  function Owed(w: Worker): Stats { if w.pc.Merging? then Sub(w.local, Of(w.pc.run)) else w.local }

  function TotalOwed(ws: seq<Worker>): Stats
  {
    if ws == [] then NONE else Add(Owed(ws[0]), TotalOwed(ws[1..]))
  }

  lemma {:induction false} OwedUpdate(ws: seq<Worker>, t: nat, w: Worker)
    requires t < |ws|
    ensures TotalOwed(ws[t := w]) == Sub(Add(TotalOwed(ws), Owed(w)), Owed(ws[t]))
    decreases t
  {
    if t == 0 {
      assert ws[0 := w][1..] == ws[1..];
    } else {
      assert ws[t := w][1..] == ws[1..][t - 1 := w];
      OwedUpdate(ws[1..], t - 1, w);
    }
  }

  /** How often case `k` is held by a worker, and logged; and how many cases are held. */
  function Holds(w: Worker, k: nat): nat { if (w.pc.Claimed? || w.pc.Merging?) && w.pc.case_ == k then 1 else 0 }

  function Holding(ws: seq<Worker>, k: nat): nat { if ws == [] then 0 else Holds(ws[0], k) + Holding(ws[1..], k) }

  function Busy(w: Worker): nat { if w.pc.Claimed? || w.pc.Merging? then 1 else 0 }

  function AllBusy(ws: seq<Worker>): nat { if ws == [] then 0 else Busy(ws[0]) + AllBusy(ws[1..]) }

  lemma {:induction false} HoldingUpdate(ws: seq<Worker>, t: nat, w: Worker, k: nat)
    requires t < |ws|
    ensures Holding(ws[t := w], k) == Holding(ws, k) - Holds(ws[t], k) + Holds(w, k)
    ensures AllBusy(ws[t := w]) == AllBusy(ws) - Busy(ws[t]) + Busy(w)
    decreases t
  {
    hide Holds, Busy;
    if t == 0 {
      assert ws[0 := w][1..] == ws[1..];
    } else {
      assert ws[t := w][1..] == ws[1..][t - 1 := w];
      HoldingUpdate(ws[1..], t - 1, w, k);
    }
  }

  function Logged(log: seq<Entry>, k: nat): nat
  {
    if log == [] then 0 else Logged(log[..|log| - 1], k) + if log[|log| - 1].case_ == k then 1 else 0
  }

  lemma LoggedSnoc(log: seq<Entry>, e: Entry, k: nat)
    ensures Logged(log + [e], k) == Logged(log, k) + if e.case_ == k then 1 else 0
  {
    assert (log + [e])[..|log|] == log;
  }

  // ----- the invariant -----

  /** A worker's snapshots are never ahead of the shared state, except by the very case it is about to
      merge. */
  ghost predicate WorkerOk(w: Worker, sh: Shared)
  {
    && w.corpus <= sh.corpus
    && (if w.pc.Merging? && w.pc.isNew then Below(w.virgin, Join(sh.virgin, w.pc.run.map_)) else Below(w.virgin, sh.virgin))
    && (w.pc.Merging? && !w.pc.isNew ==> !HasNew(w.virgin, w.pc.run.map_))
    && (w.pc.Ended? || w.pc.Starting? ==> w.local == NONE)
  }

  ghost predicate Ordered(ws: seq<Worker>, sh: Shared) { forall t | 0 <= t < |ws| :: WorkerOk(ws[t], sh) }

  /** The shared state but for the counters is the serial fold over the log. */
  ghost predicate Serializes(sh: Shared, f: Serial)
  {
    sh.virgin == f.virgin && sh.corpus == f.corpus && sh.sigs == f.sigs && sh.crashes == f.crashes
  }

  function Min(a: nat, b: nat): nat { if a < b then a else b }

  /** Each index handed out is held by one worker or logged once; no other is. */
  ghost predicate Counted(ws: seq<Worker>, log: seq<Entry>, n: nat)
  {
    && (forall k: nat :: Logged(log, k) + Holding(ws, k) == if k < n then 1 else 0)
    && |log| + AllBusy(ws) == n
  }

  ghost predicate Closing(s: System, cases: nat)
  {
    forall t | 0 <= t < |s.workers| && (s.workers[t].pc.Flushing? || s.workers[t].pc.Ended?) :: s.counter >= cases
  }

  ghost predicate Inv(s: System, cases: nat, virgin: Hits, corpus: seq<Prog>)
  {
    var f := Fold(virgin, corpus, s.log);
    && Ordered(s.workers, s.shared) && Serializes(s.shared, f)
    && Add(s.shared.stats, TotalOwed(s.workers)) == f.stats
    && Counted(s.workers, s.log, Min(s.counter, cases)) && Closing(s, cases)
  }

  lemma OrderedUpdate(ws: seq<Worker>, sh: Shared, t: nat, w: Worker, sh': Shared)
    requires Ordered(ws, sh) && t < |ws| && WorkerOk(w, sh') && Below(sh.virgin, sh'.virgin) && sh.corpus <= sh'.corpus
    ensures Ordered(ws[t := w], sh')
  {
    hide WorkerOk, Below;
    forall u | 0 <= u < |ws| && u != t ensures WorkerOk(ws[u], sh') {
      OthersOk(ws[u], sh, sh');
    }
  }

  predicate Moves(v: Worker, log: seq<Entry>, n: nat, w: Worker, log': seq<Entry>, n': nat, k: nat)
  {
    Holds(v, k) + Logged(log, k) + (if k < n' then 1 else 0) == Holds(w, k) + Logged(log', k) + (if k < n then 1 else 0)
  }

  /** One worker moves on: what it stops holding is logged, or what it starts holding is new. */
  lemma CountedUpdate(ws: seq<Worker>, log: seq<Entry>, n: nat, t: nat, w: Worker, log': seq<Entry>, n': nat)
    requires Counted(ws, log, n) && t < |ws|
    requires forall k: nat :: Moves(ws[t], log, n, w, log', n', k)
    requires Busy(ws[t]) + |log| + n' == Busy(w) + |log'| + n
    ensures Counted(ws[t := w], log', n')
  {
    hide Holds, Busy, Logged;
    forall k: nat ensures Logged(log', k) + Holding(ws[t := w], k) == if k < n' then 1 else 0 {
      HoldingUpdate(ws, t, w, k);
      assert Logged(log, k) + Holding(ws, k) == if k < n then 1 else 0;
      assert Moves(ws[t], log, n, w, log', n', k);
    }
    HoldingUpdate(ws, t, w, 0);
  }

  lemma SameBelow(sh: Shared)
    ensures Below(sh.virgin, sh.virgin) && sh.corpus <= sh.corpus
  {
  }

  /** Others are not disturbed when the shared state only grows. */
  lemma OthersOk(w: Worker, a: Shared, b: Shared)
    requires WorkerOk(w, a) && Below(a.virgin, b.virgin) && a.corpus <= b.corpus
    ensures WorkerOk(w, b)
  {
    hide HasNew, Below, Join;
    if w.pc.Merging? && w.pc.isNew {
      JoinMonotone(a.virgin, b.virgin, w.pc.run.map_);
      BelowTrans(w.virgin, Join(a.virgin, w.pc.run.map_), Join(b.virgin, w.pc.run.map_));
    } else {
      BelowTrans(w.virgin, a.virgin, b.virgin);
    }
  }

  lemma JoinMonotone(a: Hits, b: Hits, run: Hits)
    requires Below(a, b)
    ensures Below(Join(a, run), Join(b, run))
  {
    JoinAbove(a, b, run);
  }

  lemma StartKeeps(s: System, cases: nat, virgin: Hits, corpus: seq<Prog>, t: nat)
    requires Inv(s, cases, virgin, corpus) && Enabled(s, Start(t))
    ensures Inv(Apply(s, cases, Start(t)), cases, virgin, corpus)
  {
    hide Fold, Below, WorkerOk, Ordered, Counted, TotalOwed;
    var w := Worker(Idle, s.shared.virgin, s.shared.corpus, NONE, 0);
    OwedUpdate(s.workers, t, w);
    CountedUpdate(s.workers, s.log, Min(s.counter, cases), t, w, s.log, Min(s.counter, cases));
    SameBelow(s.shared);
    assert WorkerOk(w, s.shared) by { FreshOk(s.shared); }
    assert s.workers[t].local == NONE by { LocalNone(s.workers, s.shared, t); }
    OrderedUpdate(s.workers, s.shared, t, w, s.shared);
  }

  lemma FreshOk(sh: Shared)
    ensures WorkerOk(Worker(Idle, sh.virgin, sh.corpus, NONE, 0), sh)
  {
  }

  lemma LocalNone(ws: seq<Worker>, sh: Shared, t: nat)
    requires Ordered(ws, sh) && t < |ws| && (ws[t].pc.Starting? || ws[t].pc.Ended?)
    ensures ws[t].local == NONE
  {
    assert WorkerOk(ws[t], sh);
  }

  lemma ClaimKeeps(s: System, cases: nat, virgin: Hits, corpus: seq<Prog>, t: nat)
    requires Inv(s, cases, virgin, corpus) && Enabled(s, Claim(t))
    ensures Inv(Apply(s, cases, Claim(t)), cases, virgin, corpus)
  {
    hide Fold, Below, WorkerOk, Ordered, Counted, TotalOwed;
    var w := s.workers[t].(pc := if s.counter < cases then Claimed(s.counter) else Flushing);
    OwedUpdate(s.workers, t, w);
    CountedUpdate(s.workers, s.log, Min(s.counter, cases), t, w, s.log, Min(s.counter + 1, cases));
    SameBelow(s.shared);
    assert WorkerOk(w, s.shared) by { Repositioned(s.workers, s.shared, t, w); }
    OrderedUpdate(s.workers, s.shared, t, w, s.shared);
  }

  lemma Repositioned(ws: seq<Worker>, sh: Shared, t: nat, w: Worker)
    requires Ordered(ws, sh) && t < |ws| && !ws[t].pc.Merging? && w.(pc := ws[t].pc, local := ws[t].local) == ws[t]
    requires !w.pc.Merging? && (w.pc.Starting? || w.pc.Ended? ==> w.local == NONE)
    ensures WorkerOk(w, sh)
  {
    assert WorkerOk(ws[t], sh);
  }

  /** A case the worker skips the lock for adds nothing to the authoritative map either. */
  lemma SkipIsNothing(w: Worker, sh: Shared, r: Run)
    requires WorkerOk(w, sh) && w.pc.Claimed? && !HasNew(w.virgin, r.map_)
    ensures !HasNew(sh.virgin, r.map_) && Join(sh.virgin, r.map_) == sh.virgin && Join(w.virgin, r.map_) == w.virgin
  {
    NothingNew(w.virgin, sh.virgin, r.map_);
  }

  lemma ExecuteWorker(w: Worker, sh: Shared, r: Run)
    requires WorkerOk(w, sh) && w.pc.Claimed?
    ensures WorkerOk(Executed(w, r), sh)
  {
    hide HasNew, Below, Join;
    if HasNew(w.virgin, r.map_) {
      JoinMonotone(w.virgin, sh.virgin, r.map_);
    } else {
      SkipIsNothing(w, sh, r);
    }
  }

  lemma ExecuteKeeps(s: System, cases: nat, virgin: Hits, corpus: seq<Prog>, t: nat, r: Run)
    requires Inv(s, cases, virgin, corpus) && Enabled(s, Execute(t, r))
    ensures Inv(Apply(s, cases, Execute(t, r)), cases, virgin, corpus)
  {
    hide Fold, Join, HasNew, Below, WorkerOk, Counted, TotalOwed, Logged;
    var w, n := s.workers[t], Min(s.counter, cases);
    var w' := Executed(w, r);
    OwedUpdate(s.workers, t, w');
    assert WorkerOk(w, s.shared);
    ExecuteWorker(w, s.shared, r);
    SameBelow(s.shared);
    OrderedUpdate(s.workers, s.shared, t, w', s.shared);
    if w'.pc.Merging? {
      CountedUpdate(s.workers, s.log, n, t, w', s.log, n);
    } else {
      var e := Entry(w.pc.case_, r);
      SkipIsNothing(w, s.shared, r);
      FoldSnoc(virgin, corpus, s.log, e);
      forall k: nat ensures Logged(s.log + [e], k) == Logged(s.log, k) + if e.case_ == k then 1 else 0 {
        LoggedSnoc(s.log, e, k);
      }
      CountedUpdate(s.workers, s.log, n, t, w', s.log + [e], n);
    }
  }

  /** The critical section is the serial fold's step. */
  lemma MergeIsFold(sh: Shared, w: Worker)
    requires WorkerOk(w, sh) && w.pc.Merging?
    ensures var t, r := Merged(sh, w), w.pc.run;
      && t.virgin == Join(sh.virgin, r.map_) && Below(sh.virgin, t.virgin) && sh.corpus <= t.corpus
      && t.corpus == (if HasNew(sh.virgin, r.map_) then sh.corpus + [r.prog] else sh.corpus)
  {
    var r := w.pc.run;
    JoinAbove(sh.virgin, sh.virgin, r.map_);
    if !w.pc.isNew {
      NothingNew(w.virgin, sh.virgin, r.map_);
    }
  }

  lemma RefreshedOk(w: Worker, sh: Shared)
    requires w.corpus <= sh.corpus
    ensures WorkerOk(Refreshed(w, sh), sh) && Refreshed(w, sh).corpus == sh.corpus
  {
    hide HasNew, Join;
    assert w.corpus + sh.corpus[|w.corpus|..] == sh.corpus;
  }

  lemma MergeKeeps(s: System, cases: nat, virgin: Hits, corpus: seq<Prog>, t: nat)
    requires Inv(s, cases, virgin, corpus) && Enabled(s, Merge(t))
    ensures Inv(Apply(s, cases, Merge(t)), cases, virgin, corpus)
  {
    hide Fold, Join, HasNew, Below, WorkerOk, Counted, TotalOwed, Logged;
    var w, n := s.workers[t], Min(s.counter, cases);
    var sh := Merged(s.shared, w);
    var w' := Refreshed(w, sh);
    var e := Entry(w.pc.case_, w.pc.run);
    OwedUpdate(s.workers, t, w');
    assert WorkerOk(w, s.shared);
    MergeIsFold(s.shared, w);
    WorkerCorpus(w, s.shared);
    RefreshedOk(w, sh);
    OrderedUpdate(s.workers, s.shared, t, w', sh);
    FoldSnoc(virgin, corpus, s.log, e);
    forall k: nat ensures Logged(s.log + [e], k) == Logged(s.log, k) + if e.case_ == k then 1 else 0 {
      LoggedSnoc(s.log, e, k);
    }
    CountedUpdate(s.workers, s.log, n, t, w', s.log + [e], n);
  }

  lemma WorkerCorpus(w: Worker, sh: Shared)
    requires WorkerOk(w, sh)
    ensures w.corpus <= sh.corpus
  {
  }

  lemma FlushKeeps(s: System, cases: nat, virgin: Hits, corpus: seq<Prog>, t: nat)
    requires Inv(s, cases, virgin, corpus) && Enabled(s, Flush(t))
    ensures Inv(Apply(s, cases, Flush(t)), cases, virgin, corpus)
  {
    hide Fold, Below, WorkerOk, Ordered, Counted, TotalOwed;
    var w := s.workers[t].(pc := Ended, local := NONE);
    var sh := s.shared.(stats := Add(s.shared.stats, s.workers[t].local));
    OwedUpdate(s.workers, t, w);
    CountedUpdate(s.workers, s.log, Min(s.counter, cases), t, w, s.log, Min(s.counter, cases));
    SameBelow(s.shared);
    assert WorkerOk(w, s.shared) by { Repositioned(s.workers, s.shared, t, w); }
    OthersOk(w, s.shared, sh);
    OrderedUpdate(s.workers, s.shared, t, w, sh);
  }

  predicate Resting(w: Worker) { w.local == NONE && (w.pc.Starting? || w.pc.Ended?) }

  predicate AllResting(ws: seq<Worker>) { ws == [] || (Resting(ws[0]) && AllResting(ws[1..])) }

  lemma {:induction false} EachResting(ws: seq<Worker>)
    requires forall t | 0 <= t < |ws| :: Resting(ws[t])
    ensures AllResting(ws)
    decreases |ws|
  {
    hide Resting;
    if ws != [] {
      EachResting(ws[1..]);
    }
  }

  lemma {:induction false} NoneHeld(ws: seq<Worker>, k: nat)
    requires AllResting(ws)
    ensures Holding(ws, k) == 0 && AllBusy(ws) == 0
    decreases |ws|
  {
    if ws != [] {
      NoneHeld(ws[1..], k);
    }
  }

  lemma {:induction false} NoneOwed(ws: seq<Worker>)
    requires AllResting(ws)
    ensures TotalOwed(ws).insns == 0 && TotalOwed(ws).done == 0
    decreases |ws|
  {
    if ws != [] {
      NoneOwed(ws[1..]);
    }
  }

  lemma {:induction false} NoneOwedEither(ws: seq<Worker>)
    requires AllResting(ws)
    ensures TotalOwed(ws).budget == 0 && TotalOwed(ws).finished == 0
    decreases |ws|
  {
    if ws != [] {
      NoneOwedEither(ws[1..]);
    }
  }

  lemma NothingCounted(ws: seq<Worker>)
    requires forall t | 0 <= t < |ws| :: Resting(ws[t])
    ensures forall k: nat :: Holding(ws, k) == 0
    ensures TotalOwed(ws) == NONE && AllBusy(ws) == 0
  {
    hide TotalOwed, Holding, AllBusy, Resting;
    EachResting(ws);
    forall k: nat ensures Holding(ws, k) == 0 {
      NoneHeld(ws, k);
    }
    NoneHeld(ws, 0);
    NoneOwed(ws);
    NoneOwedEither(ws);
  }

  lemma FoldNone(virgin: Hits, corpus: seq<Prog>)
    ensures Fold(virgin, corpus, []) == Serial(virgin, corpus, {}, 0, NONE)
  {
  }

  lemma AddNone()
    ensures Add(NONE, NONE) == NONE
  {
  }

  lemma InitCounted(ws: seq<Worker>)
    requires (forall k: nat :: Holding(ws, k) == 0) && AllBusy(ws) == 0
    ensures Counted(ws, [], 0)
  {
    hide Holding, AllBusy;
  }

  lemma InitParts(jobs: nat, virgin: Hits, corpus: seq<Prog>)
    ensures var s := Init(jobs, virgin, corpus);
      && |s.workers| == jobs && (forall t | 0 <= t < jobs :: s.workers[t] == Worker(Starting, virgin, corpus, NONE, 0))
      && s.shared == Shared(virgin, corpus, {}, 0, NONE) && s.log == [] && s.counter == 0
  {
  }

  /** A system of workers that have not started, with nothing counted, meets the invariant. */
  lemma FreshInv(s: System, cases: nat)
    requires (forall t | 0 <= t < |s.workers| :: s.workers[t].pc.Starting?) && Ordered(s.workers, s.shared)
    requires TotalOwed(s.workers) == NONE && s.log == [] && s.counter == 0 && Counted(s.workers, s.log, 0)
    requires s.shared == Shared(s.shared.virgin, s.shared.corpus, {}, 0, NONE)
    ensures Inv(s, cases, s.shared.virgin, s.shared.corpus)
  {
    hide TotalOwed, WorkerOk, Fold, Counted, Ordered, Add;
    FoldNone(s.shared.virgin, s.shared.corpus);
    AddNone();
  }

  lemma InitInv(jobs: nat, cases: nat, virgin: Hits, corpus: seq<Prog>)
    ensures Inv(Init(jobs, virgin, corpus), cases, virgin, corpus)
  {
    hide Init, TotalOwed, Holding, AllBusy, WorkerOk, Resting, Fold, Counted, Inv;
    var s, w := Init(jobs, virgin, corpus), Worker(Starting, virgin, corpus, NONE, 0);
    InitParts(jobs, virgin, corpus);
    StartOk(w, s.shared);
    NothingCounted(s.workers);
    InitCounted(s.workers);
    FreshInv(s, cases);
  }

  lemma StartOk(w: Worker, sh: Shared)
    requires w.pc.Starting? && w.virgin == sh.virgin && w.corpus == sh.corpus && w.local == NONE
    ensures WorkerOk(w, sh) && Resting(w)
  {
  }

  ghost predicate Schedule(s: System, cases: nat, acts: seq<Action>)
    decreases |acts|
  {
    acts == [] || (Enabled(s, acts[0]) && Schedule(Apply(s, cases, acts[0]), cases, acts[1..]))
  }

  ghost function After(s: System, cases: nat, acts: seq<Action>): System
    requires Schedule(s, cases, acts)
    decreases |acts|
  {
    if acts == [] then s else After(Apply(s, cases, acts[0]), cases, acts[1..])
  }

  lemma {:induction false} ScheduleKeeps(s: System, cases: nat, virgin: Hits, corpus: seq<Prog>, acts: seq<Action>)
    requires Inv(s, cases, virgin, corpus) && Schedule(s, cases, acts)
    ensures Inv(After(s, cases, acts), cases, virgin, corpus)
    ensures |After(s, cases, acts).workers| == |s.workers|
    decreases |acts|
  {
    hide Inv, Merged, Executed, Refreshed;
    if acts != [] {
      match acts[0] {
        case Start(t) => StartKeeps(s, cases, virgin, corpus, t);
        case Claim(t) => ClaimKeeps(s, cases, virgin, corpus, t);
        case Execute(t, r) => ExecuteKeeps(s, cases, virgin, corpus, t, r);
        case Merge(t) => MergeKeeps(s, cases, virgin, corpus, t);
        case Flush(t) => FlushKeeps(s, cases, virgin, corpus, t);
      }
      ScheduleKeeps(Apply(s, cases, acts[0]), cases, virgin, corpus, acts[1..]);
    }
  }

  /** Under every schedule of any number of workers: the shared map, corpus and crash set are a serial
      fold over the logged cases; no snapshot is ahead; no index is claimed twice. */
  lemma EverySchedule(jobs: nat, cases: nat, virgin: Hits, corpus: seq<Prog>, acts: seq<Action>)
    requires Schedule(Init(jobs, virgin, corpus), cases, acts)
    ensures Inv(After(Init(jobs, virgin, corpus), cases, acts), cases, virgin, corpus)
    ensures |After(Init(jobs, virgin, corpus), cases, acts).workers| == jobs
  {
    hide Inv, Schedule, After;
    InitInv(jobs, cases, virgin, corpus);
    ScheduleKeeps(Init(jobs, virgin, corpus), cases, virgin, corpus, acts);
  }

  // ----- the log is what was executed -----

  /** What the schedule's executions carried, each with the case its worker held, in order. */
  ghost function Executions(s: System, cases: nat, acts: seq<Action>): seq<Entry>
    requires Schedule(s, cases, acts)
    decreases |acts|
  {
    if acts == [] then []
    else
      (if acts[0].Execute? then [Entry(s.workers[acts[0].tid].pc.case_, acts[0].run)] else []) +
      Executions(Apply(s, cases, acts[0]), cases, acts[1..])
  }

  function Times(log: seq<Entry>, e: Entry): nat
  {
    if log == [] then 0 else Times(log[..|log| - 1], e) + if log[|log| - 1] == e then 1 else 0
  }

  lemma TimesSnoc(log: seq<Entry>, x: Entry, e: Entry)
    ensures Times(log + [x], e) == Times(log, e) + if x == e then 1 else 0
  {
    assert (log + [x])[..|log|] == log;
  }

  lemma {:induction false} TimesAppend(a: seq<Entry>, b: seq<Entry>, e: Entry)
    ensures Times(a + b, e) == Times(a, e) + Times(b, e)
    decreases |b|
  {
    if b == [] {
      assert a + b == a;
    } else {
      assert a + b == a + b[..|b| - 1] + [b[|b| - 1]];
      TimesSnoc(a + b[..|b| - 1], b[|b| - 1], e);
      TimesAppend(a, b[..|b| - 1], e);
    }
  }

  /** Executed, but not logged yet. */
  function Waits(w: Worker, e: Entry): nat { if w.pc.Merging? && Entry(w.pc.case_, w.pc.run) == e then 1 else 0 }

  function Waiting(ws: seq<Worker>, e: Entry): nat { if ws == [] then 0 else Waits(ws[0], e) + Waiting(ws[1..], e) }

  lemma {:induction false} WaitingUpdate(ws: seq<Worker>, t: nat, w: Worker, e: Entry)
    requires t < |ws|
    ensures Waiting(ws[t := w], e) == Waiting(ws, e) - Waits(ws[t], e) + Waits(w, e)
    decreases t
  {
    hide Waits;
    if t == 0 {
      assert ws[0 := w][1..] == ws[1..];
    } else {
      assert ws[t := w][1..] == ws[1..][t - 1 := w];
      WaitingUpdate(ws[1..], t - 1, w, e);
    }
  }

  lemma {:induction false} NoneWaiting(ws: seq<Worker>, e: Entry)
    requires forall t | 0 <= t < |ws| :: !ws[t].pc.Merging?
    ensures Waiting(ws, e) == 0
    decreases |ws|
  {
    if ws != [] {
      NoneWaiting(ws[1..], e);
    }
  }

  /** One action: an execution adds its entry to what is waiting or logged; a merge moves one over. */
  lemma ApplyTimes(s: System, cases: nat, a: Action, e: Entry)
    requires Enabled(s, a)
    ensures var s1 := Apply(s, cases, a);
      Times(s1.log, e) + Waiting(s1.workers, e) == Times(s.log, e) + Waiting(s.workers, e) +
        if a.Execute? && Entry(s.workers[a.tid].pc.case_, a.run) == e then 1 else 0
  {
    hide Times, Waiting, Join, HasNew, Refreshed, Merged;
    var s1, t := Apply(s, cases, a), a.tid;
    WaitingUpdate(s.workers, t, s1.workers[t], e);
    assert s1.workers == s.workers[t := s1.workers[t]];
    if a.Merge? {
      NotMerging(s.workers[t], Merged(s.shared, s.workers[t]));
      TimesSnoc(s.log, Entry(s.workers[t].pc.case_, s.workers[t].pc.run), e);
    } else if a.Execute? {
      TimesSnoc(s.log, Entry(s.workers[t].pc.case_, a.run), e);
    }
  }

  lemma NotMerging(w: Worker, sh: Shared)
    ensures Refreshed(w, sh).pc.Idle?
  {
  }

  lemma {:induction false} LoggedExecutions(s: System, cases: nat, acts: seq<Action>, e: Entry)
    requires Schedule(s, cases, acts)
    ensures var s1 := After(s, cases, acts);
      Times(s1.log, e) + Waiting(s1.workers, e) ==
        Times(s.log, e) + Waiting(s.workers, e) + Times(Executions(s, cases, acts), e)
    decreases |acts|
  {
    hide Times, Waiting, Apply;
    if acts == [] {
      TimesNone(e);
    } else {
      var s1 := Apply(s, cases, acts[0]);
      ApplyTimes(s, cases, acts[0], e);
      LoggedExecutions(s1, cases, acts[1..], e);
      var first: seq<Entry> := if acts[0].Execute? then [Entry(s.workers[acts[0].tid].pc.case_, acts[0].run)] else [];
      TimesAppend(first, Executions(s1, cases, acts[1..]), e);
      TimesNone(e);
      if acts[0].Execute? {
        TimesSnoc([], first[0], e);
        assert [] + [first[0]] == first;
      }
    }
  }

  lemma TimesNone(e: Entry)
    ensures Times([], e) == 0
  {
  }

  lemma {:induction false} TimesCount(log: seq<Entry>, e: Entry)
    ensures multiset(log)[e] == Times(log, e)
    decreases |log|
  {
    if log != [] {
      assert log == log[..|log| - 1] + [log[|log| - 1]];
      TimesCount(log[..|log| - 1], e);
    }
  }

  /** Once no case is waiting for the lock, the log is the executed cases in some order: the same entries, each
      as often. */
  lemma LogIsExecutions(jobs: nat, cases: nat, virgin: Hits, corpus: seq<Prog>, acts: seq<Action>)
    requires Schedule(Init(jobs, virgin, corpus), cases, acts)
    requires var s := After(Init(jobs, virgin, corpus), cases, acts); forall t | 0 <= t < |s.workers| :: !s.workers[t].pc.Merging?
    ensures var s0 := Init(jobs, virgin, corpus);
      multiset(After(s0, cases, acts).log) == multiset(Executions(s0, cases, acts))
  {
    hide Schedule, After, Executions, Init, Times, Waiting;
    var s0 := Init(jobs, virgin, corpus);
    var s1, x := After(s0, cases, acts), Executions(s0, cases, acts);
    InitParts(jobs, virgin, corpus);
    forall e ensures multiset(s1.log)[e] == multiset(x)[e] {
      LoggedExecutions(s0, cases, acts, e);
      NoneWaiting(s0.workers, e);
      NoneWaiting(s1.workers, e);
      TimesNone(e);
      TimesCount(s1.log, e);
      TimesCount(x, e);
    }
  }

  // ----- what the fold amounts to -----

  /** How many cases of the log ended so. */
  function Ending(log: seq<Entry>, k: StopKind): nat
  {
    if log == [] then 0 else Ending(log[..|log| - 1], k) + if log[|log| - 1].run.stop == k then 1 else 0
  }

  /** Instructions run by all of them. */
  function Insns(log: seq<Entry>): nat
  {
    if log == [] then 0 else Insns(log[..|log| - 1]) + log[|log| - 1].run.insns
  }

  function Crashing(log: seq<Entry>): nat
  {
    if log == [] then 0 else Crashing(log[..|log| - 1]) + if log[|log| - 1].run.crash.Some? then 1 else 0
  }

  function Signatures(log: seq<Entry>): set<u32> { set e | e in log && e.run.crash.Some? :: e.run.crash.value }

  /** Bucket `i` ends with the highest class any case, or the map before, had there. */
  ghost predicate HighestAt(virgin: Hits, log: seq<Entry>, c: u8, i: nat)
    requires i < MAP_SIZE
  {
    && virgin[i] <= c && (forall e | e in log :: Classify(e.run.map_[i]) <= c)
    && (c == virgin[i] || exists e :: e in log && c == Classify(e.run.map_[i]))
  }

  /** Case `x` of the log beats everything before it in some bucket. */
  ghost predicate BeatsAt(virgin: Hits, log: seq<Entry>, x: nat, i: nat)
    requires x < |log| && i < MAP_SIZE
  {
    virgin[i] < Classify(log[x].run.map_[i]) && forall y | 0 <= y < x :: Classify(log[y].run.map_[i]) < Classify(log[x].run.map_[i])
  }

  ghost predicate Beats(virgin: Hits, log: seq<Entry>, x: nat)
    requires x < |log|
  {
    exists i: nat :: i < MAP_SIZE && BeatsAt(virgin, log, x, i)
  }

  /** The programs of those cases, in order. */
  ghost function Finds(virgin: Hits, log: seq<Entry>): seq<Prog>
  {
    if log == [] then []
    else Finds(virgin, log[..|log| - 1]) + if Beats(virgin, log, |log| - 1) then [log[|log| - 1].run.prog] else []
  }

  lemma {:induction false} FoldCounts(virgin: Hits, corpus: seq<Prog>, log: seq<Entry>)
    ensures var f := Fold(virgin, corpus, log);
      && f.stats == Stats(Insns(log), Ending(log, HyperDone), Ending(log, Budget), |log|)
      && f.crashes == Crashing(log) && f.sigs == Signatures(log)
    decreases |log|
  {
    hide Join, HasNew;
    if log != [] {
      FoldCounts(virgin, corpus, log[..|log| - 1]);
      SignaturesMore(log);
    }
  }

  lemma SignaturesMore(log: seq<Entry>)
    requires log != []
    ensures var r := log[|log| - 1].run;
      Signatures(log) == Signatures(log[..|log| - 1]) + if r.crash.Some? then {r.crash.value} else {}
  {
    var less, e := log[..|log| - 1], log[|log| - 1];
    assert log == less + [e];
    if e.run.crash.Some? {
      assert e in log;
    }
  }

  lemma {:induction false} FoldHighest(virgin: Hits, corpus: seq<Prog>, log: seq<Entry>, i: nat)
    requires i < MAP_SIZE
    ensures HighestAt(virgin, log, Fold(virgin, corpus, log).virgin[i], i)
    decreases |log|
  {
    hide HasNew, Classify;
    if log != [] {
      var less, e := log[..|log| - 1], log[|log| - 1];
      FoldHighest(virgin, corpus, less, i);
      var was, c := Fold(virgin, corpus, less).virgin[i], Fold(virgin, corpus, log).virgin[i];
      assert c == if Classify(e.run.map_[i]) > was then Classify(e.run.map_[i]) else was;
      assert log == less + [e] && e in log;
      if c == was && was != virgin[i] {
        var x :| x in less && was == Classify(x.run.map_[i]);
        assert x in log;
      }
    }
  }

  /** A case is new to the fold before it iff it beats everything before it somewhere. */
  lemma NewIff(virgin: Hits, corpus: seq<Prog>, log: seq<Entry>)
    requires log != []
    ensures HasNew(Fold(virgin, corpus, log[..|log| - 1]).virgin, log[|log| - 1].run.map_) <==> Beats(virgin, log, |log| - 1)
  {
    hide Fold, Classify;
    var less, r := log[..|log| - 1], log[|log| - 1].run;
    var was := Fold(virgin, corpus, less).virgin;
    forall i: nat | i < MAP_SIZE ensures Classify(r.map_[i]) > was[i] <==> BeatsAt(virgin, log, |log| - 1, i) {
      FoldHighest(virgin, corpus, less, i);
      forall y | 0 <= y < |less| ensures less[y] in less && less[y] == log[y] {
      }
    }
    if Beats(virgin, log, |log| - 1) {
      var i: nat :| i < MAP_SIZE && BeatsAt(virgin, log, |log| - 1, i);
      assert Classify(r.map_[i]) > was[i];
    }
    if HasNew(was, r.map_) {
      var i: nat :| i < MAP_SIZE && Classify(r.map_[i]) > was[i];
      assert BeatsAt(virgin, log, |log| - 1, i);
    }
  }

  lemma {:induction false} FoldCorpus(virgin: Hits, corpus: seq<Prog>, log: seq<Entry>)
    ensures Fold(virgin, corpus, log).corpus == corpus + Finds(virgin, log)
    decreases |log|
  {
    hide Join, HasNew, Beats;
    if log != [] {
      FoldCorpus(virgin, corpus, log[..|log| - 1]);
      NewIff(virgin, corpus, log);
    }
  }

  /** When every worker has ended, the log holds each case below `cases` exactly once, with the run its
      execution carried, and the shared state, counters included, is the serial fold over it: the unlocked
      skips lost nothing. That is: the counters are the log's own counts and sums, the crash set its
      signatures, every bucket the highest class seen there, and the corpus grew by the programs of exactly
      the cases that beat everything before them, in order. */
  lemma Linearizable(jobs: nat, cases: nat, virgin: Hits, corpus: seq<Prog>, acts: seq<Action>)
    requires jobs > 0 && Schedule(Init(jobs, virgin, corpus), cases, acts)
    requires forall t | 0 <= t < |After(Init(jobs, virgin, corpus), cases, acts).workers| ::
      After(Init(jobs, virgin, corpus), cases, acts).workers[t].pc.Ended?
    ensures var s := After(Init(jobs, virgin, corpus), cases, acts);
      var f := Fold(virgin, corpus, s.log);
      && |s.log| == cases && (forall k: nat :: Logged(s.log, k) == if k < cases then 1 else 0)
      && s.shared == Shared(f.virgin, f.corpus, f.sigs, f.crashes, f.stats)
      && s.shared.stats == Stats(Insns(s.log), Ending(s.log, HyperDone), Ending(s.log, Budget), cases)
      && s.shared.crashes == Crashing(s.log) && s.shared.sigs == Signatures(s.log)
      && (forall i | 0 <= i < MAP_SIZE :: HighestAt(virgin, s.log, s.shared.virgin[i], i))
      && s.shared.corpus == corpus + Finds(virgin, s.log)
      && multiset(s.log) == multiset(Executions(Init(jobs, virgin, corpus), cases, acts))
  {
    hide Fold, Schedule, After, TotalOwed, Holding, AllBusy, Logged, WorkerOk, Executions;
    LogIsExecutions(jobs, cases, virgin, corpus, acts);
    EverySchedule(jobs, cases, virgin, corpus, acts);
    var s := After(Init(jobs, virgin, corpus), cases, acts);
    assert s.workers[0].pc.Ended? && s.counter >= cases;
    forall t | 0 <= t < |s.workers| ensures Resting(s.workers[t]) {
      LocalNone(s.workers, s.shared, t);
    }
    NothingCounted(s.workers);
    forall k: nat ensures Logged(s.log, k) == if k < cases then 1 else 0 {
      assert Logged(s.log, k) + Holding(s.workers, k) == if k < cases then 1 else 0;
    }
    FoldCounts(virgin, corpus, s.log);
    FoldCorpus(virgin, corpus, s.log);
    forall i | 0 <= i < MAP_SIZE ensures HighestAt(virgin, s.log, s.shared.virgin[i], i) {
      FoldHighest(virgin, corpus, s.log, i);
    }
  }

  // ----- what the lock brings back -----

  /** At every point of every schedule a worker that has just been at the lock holds the shared map and corpus
      and owes nothing. */
  lemma MergeRefreshes(jobs: nat, cases: nat, virgin: Hits, corpus: seq<Prog>, acts: seq<Action>, t: nat)
    requires Schedule(Init(jobs, virgin, corpus), cases, acts)
    requires Enabled(After(Init(jobs, virgin, corpus), cases, acts), Merge(t))
    ensures var s := Apply(After(Init(jobs, virgin, corpus), cases, acts), cases, Merge(t));
      var w := s.workers[t];
      w.pc.Idle? && w.virgin == s.shared.virgin && w.corpus == s.shared.corpus && w.local == NONE && w.sinceSync == 0
  {
    hide Schedule, After, Init, Fold, Counted, TotalOwed, Below, HasNew, Join;
    EverySchedule(jobs, cases, virgin, corpus, acts);
    var s := After(Init(jobs, virgin, corpus), cases, acts);
    assert WorkerOk(s.workers[t], s.shared);
  }

  // ----- how stale a worker gets -----

  /** A worker goes to the lock exactly for a run that is new to its own map, a crash, or its 64th case. */
  lemma LockIff(w: Worker, r: Run)
    requires w.pc.Claimed?
    ensures Executed(w, r).pc.Merging? <==>
      (exists i | 0 <= i < MAP_SIZE :: w.virgin[i] < Classify(r.map_[i])) || r.crash.Some? || w.sinceSync >= 63
  {
  }

  /** Counts what it has not flushed, which is fewer than 64 cases unless it is at the lock. */
  predicate Recent(w: Worker)
  {
    if w.pc.Merging? then w.sinceSync <= 64 && w.local.finished == w.sinceSync
    else w.pc.Ended? || (w.sinceSync < 64 && w.local.finished == w.sinceSync)
  }

  predicate EachRecent(s: System) { forall t | 0 <= t < |s.workers| :: Recent(s.workers[t]) }

  lemma ApplyRecent(s: System, cases: nat, a: Action)
    requires Enabled(s, a) && EachRecent(s)
    ensures EachRecent(Apply(s, cases, a))
  {
    hide HasNew, Join;
    assert Recent(s.workers[a.tid]);
  }

  lemma {:induction false} AllRecent(s: System, cases: nat, acts: seq<Action>)
    requires Schedule(s, cases, acts) && EachRecent(s)
    ensures EachRecent(After(s, cases, acts))
    decreases |acts|
  {
    hide EachRecent, Apply;
    if acts != [] {
      ApplyRecent(s, cases, acts[0]);
      AllRecent(Apply(s, cases, acts[0]), cases, acts[1..]);
    }
  }

  /** At every point of every schedule a worker holds back the counts of fewer than 64 cases, or is at the lock
      with at most 64. */
  lemma StaleBound(jobs: nat, cases: nat, virgin: Hits, corpus: seq<Prog>, acts: seq<Action>)
    requires Schedule(Init(jobs, virgin, corpus), cases, acts)
    ensures EachRecent(After(Init(jobs, virgin, corpus), cases, acts))
  {
    AllRecent(Init(jobs, virgin, corpus), cases, acts);
  }
}
