/** Runs of memory operations: what they mean over a golden image, and what a memory that resets from a dirty
    list makes of them (crates/fs-mmu/src/lib.rs). */
module Runs {
  import opened Words
  import opened GuestMemory

  datatype Op =
    | ReadOp(addr: u32, len: nat)
    | FetchOp(addr: u32, len: nat)
    | WriteOp(addr: u32, data: seq<u8>)
    | FastWriteOp(addr: u32, data: seq<u8>)
    | StoreOp(addr: u32, size: nat, val: u32)
    | ShadowOp(addr: u32, taint: seq<bool>)
    | RawOp(addr: u32, len: nat)
    | ResetOp

  datatype Answer = Bytes(r: Result<seq<u8>, Fault>) | Done(e: Option<Fault>) | Mask(m: seq<bool>)

  predicate SizeOk(op: Op) { op.StoreOp? ==> op.size == 1 || op.size == 2 || op.size == 4 }

  /** What an operation does to a view over golden `g`, and what it answers. */
  function Do(base: u32, g: Planes, v: Planes, op: Op): (r: (Planes, Answer))
    requires v.Valid() && g.Valid() && |v.mem| == |g.mem| && SizeOk(op)
    ensures r.0.Valid() && |r.0.mem| == |v.mem|
  {
    match op
    case ReadOp(a, n) => (v, Bytes(Read(base, v, a, n, ReadAccess)))
    case FetchOp(a, n) => (v, Bytes(Read(base, v, a, n, ExecAccess)))
    case WriteOp(a, d) => var (w, e) := Write(base, v, a, d); (w, Done(e))
    case FastWriteOp(a, d) => var (w, e) := Write(base, v, a, d); (w, Done(e))
    case StoreOp(a, n, x) => var (w, e) := StoreSized(base, v, a, n, x); (w, Done(e))
    case ShadowOp(a, t) => (ShadowFrom(base, v, a, t, 0), Done(None))
    case RawOp(a, n) => (v, Mask(RawState(base, v, a, n)))
    case ResetOp => (g, Done(None))
  }

  function Run(base: u32, g: Planes, v: Planes, ops: seq<Op>): (r: (Planes, seq<Answer>))
    requires v.Valid() && g.Valid() && |v.mem| == |g.mem| && WellSized(ops)
    ensures r.0.Valid() && |r.0.mem| == |v.mem| && |r.1| == |ops|
  {
    if ops == [] then (v, [])
    else
      var (u, ans) := Run(base, g, v, ops[..|ops| - 1]);
      var (w, a) := Do(base, g, u, ops[|ops| - 1]);
      (w, ans + [a])
  }

  ghost predicate WellSized(ops: seq<Op>)
  {
    forall i | 0 <= i < |ops| :: SizeOk(ops[i])
  }

  // ----- the run of a memory that resets from its dirty list -----

  datatype Tracked = Tracked(v: Planes, d: seq<nat>)

  /** The dirty list after an operation other than a reset; a taint store lists nothing. */
  function Listed(base: u32, t: Tracked, op: Op): seq<nat>
    requires t.v.Valid() && SizeOk(op)
  {
    match op
    case WriteOp(a, data) => DirtyFrom(base, t.v, a, data, 0, t.d)
    case FastWriteOp(a, data) => DirtyFrom(base, t.v, a, data, 0, t.d)
    case StoreOp(a, n, x) => if a % n == 0 then DirtyFrom(base, t.v, a, Le(x, n), 0, t.d) else t.d
    case _ => t.d
  }

  function TrackedDo(base: u32, g: Planes, t: Tracked, op: Op): (r: (Tracked, Answer))
    requires t.v.Valid() && g.Valid() && |t.v.mem| == |g.mem| && SizeOk(op)
    ensures r.0.v.Valid() && |r.0.v.mem| == |g.mem|
  {
    if op.ResetOp? then (Tracked(Restore(t.v, t.d, g), []), Done(None))
    else
      var (w, a) := Do(base, g, t.v, op);
      (Tracked(w, Listed(base, t, op)), a)
  }

  function TrackedRun(base: u32, g: Planes, t: Tracked, ops: seq<Op>): (r: (Tracked, seq<Answer>))
    requires t.v.Valid() && g.Valid() && |t.v.mem| == |g.mem| && WellSized(ops)
    ensures r.0.v.Valid() && |r.0.v.mem| == |g.mem| && |r.1| == |ops|
  {
    if ops == [] then (t, [])
    else
      var (u, ans) := TrackedRun(base, g, t, ops[..|ops| - 1]);
      var (w, a) := TrackedDo(base, g, u, ops[|ops| - 1]);
      (w, ans + [a])
  }

  /** The taint that a store of `taint[i..]` leaves on byte `k`: that of the last one to land there. */
  function GivenTaint(base: u32, size: nat, addr: u32, taint: seq<bool>, i: nat, k: nat): Option<bool>
    requires i <= |taint|
    decreases |taint| - i
  {
    if i == |taint| then None
    else
      var later := GivenTaint(base, size, addr, taint, i + 1, k);
      if later.Some? then later else if Place(base, size, addr, i) == Some(k) then Some(taint[i]) else None
  }

  /** The last taint stored to byte `k` since the last reset. */
  function LastTaint(base: u32, size: nat, ops: seq<Op>, k: nat): Option<bool>
  {
    if ops == [] || ops[|ops| - 1].ResetOp? then None
    else
      var op, before := ops[|ops| - 1], LastTaint(base, size, ops[..|ops| - 1], k);
      if op.ShadowOp? && GivenTaint(base, size, op.addr, op.taint, 0, k).Some? then
        GivenTaint(base, size, op.addr, op.taint, 0, k)
      else before
  }

  ghost predicate TaintGoldenAt(base: u32, g: Planes, ops: seq<Op>, k: nat)
    requires g.Valid() && k < |g.mem|
  {
    var last := LastTaint(base, |g.mem|, ops, k);
    last.Some? ==> last.value == g.perms[k].vt
  }

  /** Every byte of an unlisted block that was given a taint since the last reset was last given golden's. */
  ghost predicate TaintGolden(base: u32, g: Planes, d: seq<nat>, ops: seq<Op>)
    requires g.Valid()
  {
    forall k | 0 <= k < |g.mem| && k / BLOCK !in d :: TaintGoldenAt(base, g, ops, k)
  }

  /** So it is whenever a reset comes. */
  ghost predicate GoldenResets(base: u32, g: Planes, t: Tracked, ops: seq<Op>)
    requires t.v.Valid() && g.Valid() && |t.v.mem| == |g.mem| && WellSized(ops)
  {
    forall i | 0 <= i < |ops| && ops[i].ResetOp? :: TaintGolden(base, g, TrackedRun(base, g, t, ops[..i]).0.d, ops[..i])
  }

  /** Outside the listed blocks, memory is golden but for the taint stored since the last reset. */
  ghost predicate Explained(base: u32, g: Planes, t: Tracked, ops: seq<Op>)
  {
    && t.v.Valid() && g.Valid() && |t.v.mem| == |g.mem|
    && forall k | 0 <= k < |g.mem| && k / BLOCK !in t.d :: ExplainedAt(base, g, t.v, ops, k)
  }

  ghost predicate ExplainedAt(base: u32, g: Planes, v: Planes, ops: seq<Op>, k: nat)
    requires v.Valid() && g.Valid() && |v.mem| == |g.mem| && k < |g.mem|
  {
    v.mem[k] == g.mem[k] && v.perms[k] == WithTaint(g.perms[k], LastTaint(base, |g.mem|, ops, k))
  }

  function WithTaint(p: Perm, t: Option<bool>): Perm { if t.Some? then p.(vt := t.value) else p }

  lemma {:induction false} ShadowGives(base: u32, v: Planes, addr: u32, taint: seq<bool>, i: nat, k: nat)
    requires v.Valid() && i <= |taint| && k < |v.mem|
    ensures ShadowFrom(base, v, addr, taint, i).perms[k] == WithTaint(v.perms[k], GivenTaint(base, |v.mem|, addr, taint, i, k))
    decreases |taint| - i
  {
    hide W32, Offset;
    if i < |taint| {
      var o := Place(base, |v.mem|, addr, i);
      var v' := if o.Some? then v.(perms := v.perms[o.value := v.perms[o.value].(vt := taint[i])]) else v;
      ShadowGives(base, v', addr, taint, i + 1, k);
      assert ShadowFrom(base, v, addr, taint, i) == ShadowFrom(base, v', addr, taint, i + 1);
    }
  }

  lemma {:induction false} DirtyGrows(base: u32, v: Planes, addr: u32, data: seq<u8>, i: nat, d: seq<nat>, b: nat)
    requires v.Valid() && i <= |data| && b in d
    ensures b in DirtyFrom(base, v, addr, data, i, d)
    decreases |data| - i
  {
    hide W32;
    if i < |data| {
      var at := Locate(base, v, W32(addr + i), |data|, WriteAccess);
      if at.Ok? {
        DirtyGrows(base, Put(v, at.value, data[i]), addr, data, i + 1, Mark(d, at.value / BLOCK), b);
      }
    }
  }

  /** A write leaves what it does not list as it is. */
  lemma WriteLeaves(base: u32, v: Planes, addr: u32, data: seq<u8>, d: seq<nat>, k: nat)
    requires v.Valid() && k < |v.mem| && k / BLOCK !in DirtyFrom(base, v, addr, data, 0, d)
    ensures var w := Write(base, v, addr, data).0; k / BLOCK !in d && w.mem[k] == v.mem[k] && w.perms[k] == v.perms[k]
  {
    hide WriteFrom, DirtyFrom;
    WriteStaysClean(base, v, addr, data, 0, d, v);
    if k / BLOCK in d {
      DirtyGrows(base, v, addr, data, 0, d, k / BLOCK);
    }
  }

  lemma LastTaintMore(base: u32, size: nat, ops: seq<Op>, op: Op, k: nat)
    ensures LastTaint(base, size, ops + [op], k) ==
      if op.ResetOp? then None
      else if op.ShadowOp? && GivenTaint(base, size, op.addr, op.taint, 0, k).Some? then GivenTaint(base, size, op.addr, op.taint, 0, k)
      else LastTaint(base, size, ops, k)
  {
    hide GivenTaint;
    assert (ops + [op])[..|ops|] == ops;
  }

  lemma StepExplained(base: u32, g: Planes, t: Tracked, ops: seq<Op>, op: Op)
    requires Explained(base, g, t, ops) && SizeOk(op) && !op.ResetOp?
    ensures Explained(base, g, TrackedDo(base, g, t, op).0, ops + [op])
  {
    hide LastTaint, Explained, ExplainedAt, Write, DirtyFrom, ShadowFrom, RawState, Read;
    ExplainedParts(base, g, t, ops);
    var (r, _) := TrackedDo(base, g, t, op);
    forall k | 0 <= k < |g.mem| && k / BLOCK !in r.d ensures ExplainedAt(base, g, r.v, ops + [op], k) {
      LastTaintMore(base, |g.mem|, ops, op, k);
      match op {
        case ShadowOp(a, taint) => ShadowExplained(base, g, t, ops, a, taint, k);
        case WriteOp(a, data) => WriteExplained(base, g, t, ops, op, a, data, k);
        case FastWriteOp(a, data) => WriteExplained(base, g, t, ops, op, a, data, k);
        case StoreOp(a, n, x) =>
          if a % n == 0 { WriteExplained(base, g, t, ops, op, a, Le(x, n), k); } else { SameExplained(base, g, t, ops, op, t.v, k); }
        case ReadOp(_, _) => SameExplained(base, g, t, ops, op, t.v, k);
        case FetchOp(_, _) => SameExplained(base, g, t, ops, op, t.v, k);
        case RawOp(_, _) => SameExplained(base, g, t, ops, op, t.v, k);
        case ResetOp =>
      }
    }
    Gather(base, g, r, ops + [op]);
  }

  lemma ExplainedParts(base: u32, g: Planes, t: Tracked, ops: seq<Op>)
    requires Explained(base, g, t, ops)
    ensures t.v.Valid() && g.Valid() && |t.v.mem| == |g.mem|
  {
  }

  lemma Gather(base: u32, g: Planes, t: Tracked, ops: seq<Op>)
    requires t.v.Valid() && g.Valid() && |t.v.mem| == |g.mem|
    requires forall k | 0 <= k < |g.mem| && k / BLOCK !in t.d :: ExplainedAt(base, g, t.v, ops, k)
    ensures Explained(base, g, t, ops)
  {
    hide ExplainedAt;
  }

  lemma SameExplained(base: u32, g: Planes, t: Tracked, ops: seq<Op>, op: Op, w: Planes, k: nat)
    requires Explained(base, g, t, ops) && k < |g.mem| && k / BLOCK !in t.d
    requires w.Valid() && |w.mem| == |g.mem| && w.mem[k] == t.v.mem[k] && w.perms[k] == t.v.perms[k]
    requires LastTaint(base, |g.mem|, ops + [op], k) == LastTaint(base, |g.mem|, ops, k)
    ensures ExplainedAt(base, g, w, ops + [op], k)
  {
    hide LastTaint;
    assert ExplainedAt(base, g, t.v, ops, k);
  }

  lemma WriteExplained(base: u32, g: Planes, t: Tracked, ops: seq<Op>, op: Op, addr: u32, data: seq<u8>, k: nat)
    requires Explained(base, g, t, ops) && k < |g.mem| && k / BLOCK !in DirtyFrom(base, t.v, addr, data, 0, t.d)
    requires LastTaint(base, |g.mem|, ops + [op], k) == LastTaint(base, |g.mem|, ops, k)
    ensures ExplainedAt(base, g, Write(base, t.v, addr, data).0, ops + [op], k)
  {
    hide LastTaint, Write, DirtyFrom, ExplainedAt;
    WriteLeaves(base, t.v, addr, data, t.d, k);
    SameExplained(base, g, t, ops, op, Write(base, t.v, addr, data).0, k);
  }

  lemma ShadowExplained(base: u32, g: Planes, t: Tracked, ops: seq<Op>, addr: u32, taint: seq<bool>, k: nat)
    requires Explained(base, g, t, ops) && k < |g.mem| && k / BLOCK !in t.d
    ensures ExplainedAt(base, g, ShadowFrom(base, t.v, addr, taint, 0), ops + [ShadowOp(addr, taint)], k)
  {
    hide LastTaint, GivenTaint, ShadowFrom;
    assert ExplainedAt(base, g, t.v, ops, k);
    LastTaintMore(base, |g.mem|, ops, ShadowOp(addr, taint), k);
    ShadowGives(base, t.v, addr, taint, 0, k);
    ShadowOnlyTaint(base, t.v, addr, taint, 0);
  }

  /** Then a reset is exact iff the taint is golden's. */
  lemma ExplainedClean(base: u32, g: Planes, t: Tracked, ops: seq<Op>)
    requires Explained(base, g, t, ops)
    ensures Clean(t.v, t.d, g) <==> TaintGolden(base, g, t.d, ops)
  {
    hide LastTaint;
    forall k | 0 <= k < |g.mem| && k / BLOCK !in t.d
      ensures t.v.mem[k] == g.mem[k] && (t.v.perms[k] == g.perms[k] <==> TaintGoldenAt(base, g, ops, k))
    {
      assert ExplainedAt(base, g, t.v, ops, k);
      assert g.perms[k].(vt := g.perms[k].vt) == g.perms[k];
    }
  }

  lemma CleanExplained(base: u32, g: Planes, t: Tracked, ops: seq<Op>)
    requires Clean(t.v, t.d, g) && (ops == [] || ops[|ops| - 1].ResetOp?)
    ensures Explained(base, g, t, ops)
  {
  }

  // ----- following the abstract run -----

  /** After `ops`, planes and answers are those of the abstract run. */
  ghost predicate Follows(base: u32, g: Planes, t: Tracked, ops: seq<Op>)
    requires t.v.Valid() && g.Valid() && |t.v.mem| == |g.mem| && WellSized(ops)
  {
    var (r, ans) := TrackedRun(base, g, t, ops);
    (r.v, ans) == Run(base, g, t.v, ops)
  }

  lemma ResetsLess(base: u32, g: Planes, t: Tracked, ops: seq<Op>, op: Op)
    requires t.v.Valid() && g.Valid() && |t.v.mem| == |g.mem| && WellSized(ops + [op])
    ensures WellSized(ops) && SizeOk(op)
    ensures GoldenResets(base, g, t, ops + [op]) <==>
      GoldenResets(base, g, t, ops) && (op.ResetOp? ==> TaintGolden(base, g, TrackedRun(base, g, t, ops).0.d, ops))
  {
    hide TaintGolden, TrackedRun, SizeOk;
    var more := ops + [op];
    assert WellSized(ops) && SizeOk(op) by {
      forall i | 0 <= i < |ops| ensures SizeOk(ops[i]) { assert more[i] == ops[i]; }
      assert more[|ops|] == op;
    }
    forall i | 0 <= i <= |ops| ensures more[..i] == ops[..i] {
    }
    assert ops[..|ops|] == ops;
    if GoldenResets(base, g, t, more) {
      forall i | 0 <= i < |ops| && ops[i].ResetOp?
        ensures TaintGolden(base, g, TrackedRun(base, g, t, ops[..i]).0.d, ops[..i])
      {
        assert more[i].ResetOp?;
      }
      assert op.ResetOp? ==> more[|ops|].ResetOp?;
    }
  }

  lemma RunsMore(base: u32, g: Planes, t: Tracked, ops: seq<Op>, op: Op)
    requires t.v.Valid() && g.Valid() && |t.v.mem| == |g.mem| && WellSized(ops + [op]) && WellSized(ops) && SizeOk(op)
    ensures var (u, ans) := TrackedRun(base, g, t, ops);
      var (r, a) := TrackedDo(base, g, u, op);
      TrackedRun(base, g, t, ops + [op]) == (r, ans + [a])
    ensures var (u, ans) := Run(base, g, t.v, ops);
      var (r, a) := Do(base, g, u, op);
      Run(base, g, t.v, ops + [op]) == (r, ans + [a])
  {
    hide Do, TrackedDo;
    assert (ops + [op])[..|ops|] == ops;
  }

  /** As long as the resets are golden, memory follows the abstract run and is explained. */
  lemma {:induction false} GoldenFollows(base: u32, g: Planes, t: Tracked, ops: seq<Op>)
    requires Clean(t.v, t.d, g) && WellSized(ops) && GoldenResets(base, g, t, ops)
    ensures Follows(base, g, t, ops) && Explained(base, g, TrackedRun(base, g, t, ops).0, ops)
    decreases |ops|
  {
    hide GoldenResets, Explained, TaintGolden, Clean, Restore;
    CleanParts(t.v, t.d, g);
    if ops == [] {
      CleanExplained(base, g, t, ops);
    } else {
      var less, op := ops[..|ops| - 1], ops[|ops| - 1];
      assert ops == less + [op];
      ResetsLess(base, g, t, less, op);
      GoldenFollows(base, g, t, less);
      RunsMore(base, g, t, less, op);
      var u := TrackedRun(base, g, t, less).0;
      if op.ResetOp? {
        ExplainedClean(base, g, u, less);
        RestoreExact(u.v, u.d, g);
        GoldenIsClean(g);
        CleanExplained(base, g, Tracked(g, []), ops);
      } else {
        StepExplained(base, g, u, less, op);
      }
    }
  }

  lemma CleanParts(v: Planes, d: seq<nat>, g: Planes)
    requires Clean(v, d, g)
    ensures v.Valid() && g.Valid() && |v.mem| == |g.mem|
  {
  }

  lemma GoldenIsClean(g: Planes)
    requires g.Valid()
    ensures Clean(g, [], g)
  {
  }

  /** The exact condition for memory to follow the abstract run at every point: at each reset, every unlisted
      byte that was given a taint since the one before was last given golden's. */
  lemma {:induction false} FollowsIff(base: u32, g: Planes, t: Tracked, ops: seq<Op>)
    requires Clean(t.v, t.d, g) && WellSized(ops)
    ensures t.v.Valid() && g.Valid() && |t.v.mem| == |g.mem|
    ensures GoldenResets(base, g, t, ops) <==> FollowsAll(base, g, t, ops)
    decreases |ops|
  {
    hide GoldenResets, TaintGolden, Clean, Follows;
    CleanParts(t.v, t.d, g);
    if ops == [] {
      NoResets(base, g, t, ops);
    } else {
      var less, op := ops[..|ops| - 1], ops[|ops| - 1];
      assert ops == less + [op];
      ResetsLess(base, g, t, less, op);
      AllLess(base, g, t, less, op);
      FollowsIff(base, g, t, less);
      if GoldenResets(base, g, t, ops) {
        GoldenFollows(base, g, t, ops);
      }
      if FollowsAll(base, g, t, ops) && op.ResetOp? {
        GoldenFollows(base, g, t, less);
        ResetTells(base, g, t, less, op);
      }
    }
  }

  ghost predicate FollowsAll(base: u32, g: Planes, t: Tracked, ops: seq<Op>)
    requires t.v.Valid() && g.Valid() && |t.v.mem| == |g.mem| && WellSized(ops)
  {
    forall n | 0 <= n <= |ops| :: Follows(base, g, t, ops[..n])
  }

  lemma NoResets(base: u32, g: Planes, t: Tracked, ops: seq<Op>)
    requires t.v.Valid() && g.Valid() && |t.v.mem| == |g.mem| && ops == []
    ensures GoldenResets(base, g, t, ops) && FollowsAll(base, g, t, ops)
  {
  }

  lemma AllLess(base: u32, g: Planes, t: Tracked, ops: seq<Op>, op: Op)
    requires t.v.Valid() && g.Valid() && |t.v.mem| == |g.mem| && WellSized(ops + [op]) && WellSized(ops)
    ensures FollowsAll(base, g, t, ops + [op]) <==> FollowsAll(base, g, t, ops) && Follows(base, g, t, ops + [op])
  {
    hide Follows;
    var more := ops + [op];
    assert more[..|more|] == more;
    forall n | 0 <= n <= |ops| ensures more[..n] == ops[..n] {
    }
    if FollowsAll(base, g, t, more) {
      forall n | 0 <= n <= |ops| ensures Follows(base, g, t, ops[..n]) {
        assert Follows(base, g, t, more[..n]);
      }
    }
  }

  /** A reset that gives golden had golden taint to start from. */
  lemma ResetTells(base: u32, g: Planes, t: Tracked, ops: seq<Op>, op: Op)
    requires t.v.Valid() && g.Valid() && |t.v.mem| == |g.mem| && WellSized(ops + [op]) && WellSized(ops) && op.ResetOp?
    requires Follows(base, g, t, ops + [op]) && Explained(base, g, TrackedRun(base, g, t, ops).0, ops)
    ensures TaintGolden(base, g, TrackedRun(base, g, t, ops).0.d, ops)
  {
    hide Explained, TaintGolden, Restore, Clean;
    RunsMore(base, g, t, ops, op);
    var u := TrackedRun(base, g, t, ops).0;
    RestoreExact(u.v, u.d, g);
    ExplainedClean(base, g, u, ops);
  }

  // ----- runs that reset before they taint -----

  /** No taint store has happened since the last reset. */
  ghost predicate Untainted(ops: seq<Op>)
  {
    ops == [] || ops[|ops| - 1].ResetOp? || (!ops[|ops| - 1].ShadowOp? && Untainted(ops[..|ops| - 1]))
  }

  /** No reset comes after a taint store: the flat MMU does not list what a taint store changes. */
  ghost predicate ResetsUntainted(ops: seq<Op>)
  {
    forall i | 0 <= i < |ops| && ops[i].ResetOp? :: Untainted(ops[..i])
  }

  lemma {:induction false} UntaintedNone(base: u32, size: nat, ops: seq<Op>, k: nat)
    requires Untainted(ops)
    ensures LastTaint(base, size, ops, k).None?
    decreases |ops|
  {
    if ops != [] && !ops[|ops| - 1].ResetOp? {
      UntaintedNone(base, size, ops[..|ops| - 1], k);
    }
  }

  lemma UntaintedTaint(base: u32, g: Planes, d: seq<nat>, ops: seq<Op>)
    requires g.Valid() && Untainted(ops)
    ensures TaintGolden(base, g, d, ops)
  {
    hide Untainted, LastTaint;
    forall k | 0 <= k < |g.mem| ensures TaintGoldenAt(base, g, ops, k) {
      UntaintedNone(base, |g.mem|, ops, k);
    }
  }

  /** In particular the resets are golden when none comes after a taint store. */
  lemma UntaintedGolden(base: u32, g: Planes, t: Tracked, ops: seq<Op>)
    requires t.v.Valid() && g.Valid() && |t.v.mem| == |g.mem| && WellSized(ops) && ResetsUntainted(ops)
    ensures GoldenResets(base, g, t, ops)
  {
    hide Untainted, TaintGolden, TrackedRun;
    forall i | 0 <= i < |ops| && ops[i].ResetOp? ensures TaintGolden(base, g, TrackedRun(base, g, t, ops[..i]).0.d, ops[..i]) {
      UntaintedTaint(base, g, TrackedRun(base, g, t, ops[..i]).0.d, ops[..i]);
    }
  }
}
