/** The flat MMU and copy-on-write RAM over one golden image, run side by side: the same answers, the same
    faults and the same view after every operation, and no lane disturbs golden or another lane. */
module Lockstep {
  import opened Words
  import opened GuestMemory
  import opened Runs
  import opened FlatMmu
  import opened CopyOnWrite

  /** The caller's promise about taint stores: each stays in a page of the window. */
  ghost predicate InPageShadows(base: u32, size: nat, ops: seq<Op>)
  {
    forall i | 0 <= i < |ops| && ops[i].ShadowOp? ::
      var o := Offset(base, size, ops[i].addr); o.Some? && o.value % PAGE_SIZE + |ops[i].taint| <= PAGE_SIZE
  }

  /** Whatever it is asked to do, the flat MMU makes the run of a memory that resets from its dirty list; and it
      follows the abstract run at every point if the resets are golden. */
  method RunFlat(m: Mmu, g: Planes, ops: seq<Op>) returns (ans: seq<Answer>)
    requires m.Valid() && m.track && g.Valid() && |g.mem| == m.mem.Length && WellSized(ops)
    modifies m`dirty, m`bitmap, m.mem, m.perms
    ensures m.Valid() && (Tracked(m.View(), m.dirty), ans) == TrackedRun(m.base, g, old(Tracked(m.View(), m.dirty)), ops)
    ensures old(Clean(m.View(), m.dirty, g)) && GoldenResets(m.base, g, old(Tracked(m.View(), m.dirty)), ops) ==>
      && (m.View(), ans) == Run(m.base, g, old(m.View()), ops)
      && (Clean(m.View(), m.dirty, g) <==> TaintGolden(m.base, g, m.dirty, ops))
  {
    hide Clean, TrackedDo, GoldenResets, TaintGolden, SizeOk, Mmu.Exact;
    ghost var t := Tracked(m.View(), m.dirty);
    ans := [];
    for i := 0 to |ops|
      invariant m.Valid() && (Tracked(m.View(), m.dirty), ans) == TrackedRun(m.base, g, t, ops[..i])
    {
      assert ops[..i + 1] == ops[..i] + [ops[i]];
      RunsMore(m.base, g, t, ops[..i], ops[i]);
      var a := FlatDo(m, g, ops[i]);
      ans := ans + [a];
    }
    assert ops[..|ops|] == ops;
    if Clean(t.v, t.d, g) && GoldenResets(m.base, g, t, ops) {
      GoldenFollows(m.base, g, t, ops);
      ExplainedClean(m.base, g, Tracked(m.View(), m.dirty), ops);
    }
  }

  method FlatDo(m: Mmu, g: Planes, op: Op) returns (a: Answer)
    requires m.Valid() && m.track && g.Valid() && |g.mem| == m.mem.Length && SizeOk(op)
    modifies m`dirty, m`bitmap, m.mem, m.perms
    ensures m.Valid() && (Tracked(m.View(), m.dirty), a) == TrackedDo(m.base, g, old(Tracked(m.View(), m.dirty)), op)
  {
    hide Read, Write, DirtyFrom, Restore, ShadowFrom, RawState, Mmu.Exact;
    match op {
      case ReadOp(x, n) => var r := m.Access(x, n, ReadAccess); a := Bytes(r);
      case FetchOp(x, n) => var r := m.Access(x, n, ExecAccess); a := Bytes(r);
      case WriteOp(x, data) =>
        var e := m.Write(x, data);
        a := Done(e);
      case FastWriteOp(x, data) =>
        var hit := m.FastStore(x, data);
        var e := None;
        if !hit { e := m.Write(x, data); }
        a := Done(e);
      case StoreOp(x, n, val) =>
        var e := m.Store(x, n, val);
        a := Done(e);
      case ShadowOp(x, t) => m.WriteShadow(x, t); a := Done(None);
      case RawOp(x, n) => var r := m.ReadRawState(x, n); a := Mask(r);
      case ResetOp =>
        m.ResetDirty(g);
        a := Done(None);
    }
  }

  method RunCow(c: CowRam, ops: seq<Op>) returns (ans: seq<Answer>)
    requires c.Valid() && WellSized(ops) && InPageShadows(c.golden.base, c.Size(), ops)
    modifies c`pages, c`dirty, c.dir
    ensures c.Valid() && (c.View(), ans) == Run(c.golden.base, c.golden.View(), old(c.View()), ops)
  {
    hide Read, Write, ShadowFrom, RawState, StoreSized, Overlay.Flat, Overlay.Valid;
    ans := [];
    for i := 0 to |ops|
      invariant c.Valid() && (c.View(), ans) == Run(c.golden.base, c.golden.View(), old(c.View()), ops[..i])
    {
      assert ops[..i + 1][..i] == ops[..i];
      var a := CowDo(c, ops[i]);
      ans := ans + [a];
    }
    assert ops[..|ops|] == ops;
  }

  method CowDo(c: CowRam, op: Op) returns (a: Answer)
    requires c.Valid() && SizeOk(op)
    requires op.ShadowOp? ==> c.OnOnePage(op.addr, |op.taint|)
    modifies c`pages, c`dirty, c.dir
    ensures c.Valid() && (c.View(), a) == Do(c.golden.base, c.golden.View(), old(c.View()), op)
  {
    hide Read, Write, ShadowFrom, RawState, StoreSized, Overlay.Flat, Overlay.Valid;
    match op {
      case ReadOp(x, n) => var r := c.Access(x, n, ReadAccess); a := Bytes(r);
      case FetchOp(x, n) => var r := c.Access(x, n, ExecAccess); a := Bytes(r);
      case WriteOp(x, data) => var e := c.Write(x, data); a := Done(e);
      case FastWriteOp(x, data) =>
        var hit := c.FastStore(x, data);
        var e := None;
        if !hit { e := c.Write(x, data); }
        a := Done(e);
      case StoreOp(x, n, val) => var e := c.Store(x, n, val); a := Done(e);
      case ShadowOp(x, t) => c.WriteShadow(x, t); a := Done(None);
      case RawOp(x, n) => var r := c.ReadRawState(x, n); a := Mask(r);
      case ResetOp => c.Reset(); a := Done(None);
    }
  }

  /** Lanes over one golden image: separate overlays. */
  ghost predicate Lanes(g: Golden, lanes: seq<CowRam>)
    reads lanes, set k | 0 <= k < |lanes| :: lanes[k].dir
  {
    && (forall k | 0 <= k < |lanes| :: lanes[k].Valid() && lanes[k].golden == g)
    && forall j, k | 0 <= j < k < |lanes| :: lanes[j] != lanes[k] && lanes[j].dir != lanes[k].dir
  }

  /** One lane runs; golden and the other lanes are as before. */
  method RunLane(g: Golden, lanes: seq<CowRam>, k: nat, ops: seq<Op>) returns (ans: seq<Answer>)
    requires Lanes(g, lanes) && k < |lanes| && WellSized(ops) && InPageShadows(g.base, g.mem.Length, ops)
    modifies lanes[k], lanes[k].dir
    ensures Lanes(g, lanes) && g.View() == old(g.View())
    ensures (lanes[k].View(), ans) == Run(g.base, g.View(), old(lanes[k].View()), ops)
    ensures forall j | 0 <= j < |lanes| && j != k :: lanes[j].View() == old(lanes[j].View())
  {
    hide Run, WellSized, InPageShadows, CowRam.Contents, CowRam.Valid;
    ans := RunCow(lanes[k], ops);
  }

  /** Both machines start on the golden image and run the same operations: the answers and the views
      agree if the resets are golden (at every point, exactly then: `Runs.FollowsIff`), and in any case golden
      and every other lane stay as they were. */
  method Side(m: Mmu, g: Golden, lanes: seq<CowRam>, k: nat, ops: seq<Op>) returns (flat: seq<Answer>, cow: seq<Answer>)
    requires Lanes(g, lanes) && k < |lanes| && lanes[k].View() == g.View()
    requires m.Valid() && m.track && m.base == g.base && m.View() == g.View() && m.dirty == []
    requires m.mem != g.mem && m.perms != g.perms
    requires WellSized(ops) && InPageShadows(g.base, g.mem.Length, ops)
    modifies m`dirty, m`bitmap, m.mem, m.perms, lanes[k], lanes[k].dir
    ensures m.Valid() && Lanes(g, lanes) && g.View() == old(g.View())
    ensures GoldenResets(g.base, g.View(), Tracked(g.View(), []), ops) ==> flat == cow && m.View() == lanes[k].View()
    ensures forall j | 0 <= j < |lanes| && j != k :: lanes[j].View() == old(lanes[j].View())
  {
    hide Clean, Run, TrackedRun, WellSized, InPageShadows, GoldenResets, TaintGolden, CowRam.Contents, CowRam.Valid, Mmu.Exact;
    GoldenIsClean(g.View());
    cow := RunLane(g, lanes, k, ops);
    flat := RunFlat(m, Planes(g.mem[..], g.perms[..]), ops);
  }
}
