/** Undoing one fuzz case (crates/fs-cli/src/main.rs): guest writes are undone by the dirty list, the
    sanitizer's permission changes, which it does not see, by a list of ranges. */
module CaseReset {
  import opened Words
  import opened GuestMemory
  import opened FlatMmu
  import opened Policy
  import opened HeapSanitizer

  type Range = (u32, nat)

  function At(addr: u32, off: int): u32 { W32(addr + off) }

  ghost predicate InRange(base: u32, r: Range, k: int) { exists off | 0 <= off < r.1 :: At(r.0, off) == base + k }

  ghost predicate Marked(base: u32, rs: seq<Range>, k: int) { exists i | 0 <= i < |rs| :: InRange(base, rs[i], k) }

  /** Everything that differs from golden is listed: contents in a dirty block, a permission in a dirty
      block or a marked range. */
  ghost predicate Restorable(base: u32, v: Planes, d: seq<nat>, rs: seq<Range>, g: Planes)
  {
    && v.Valid() && g.Valid() && |v.mem| == |g.mem|
    && (forall k | 0 <= k < |v.mem| && k / BLOCK !in d :: v.mem[k] == g.mem[k])
    && forall k | 0 <= k < |v.mem| && k / BLOCK !in d && !Marked(base, rs, k) :: v.perms[k] == g.perms[k]
  }

  /** Marked permission bytes put back. */
  ghost function Repaired(base: u32, v: Planes, rs: seq<Range>, g: Planes): (w: Planes)
    requires v.Valid() && g.Valid() && |v.mem| == |g.mem|
    ensures w.Valid() && w.mem == v.mem
    ensures forall k | 0 <= k < |v.mem| :: w.perms[k] == if Marked(base, rs, k) then g.perms[k] else v.perms[k]
  {
    v.(perms := seq(|v.mem|, k requires 0 <= k < |v.mem| => if Marked(base, rs, k) then g.perms[k] else v.perms[k]))
  }

  /** The two resets together, in either order, restore golden exactly when everything is listed. */
  lemma BothResets(base: u32, v: Planes, d: seq<nat>, rs: seq<Range>, g: Planes)
    requires v.Valid() && g.Valid() && |v.mem| == |g.mem|
    ensures Repaired(base, Restore(v, d, g), rs, g) == g <==> Restorable(base, v, d, rs, g)
    ensures Restore(Repaired(base, v, rs, g), d, g) == Repaired(base, Restore(v, d, g), rs, g)
  {
    var a, b := Repaired(base, Restore(v, d, g), rs, g), Restore(Repaired(base, v, rs, g), d, g);
    assert a.mem == b.mem;
    assert a.perms == b.perms;
    if a == g {
      forall k | 0 <= k < |v.mem| && k / BLOCK !in d ensures v.mem[k] == g.mem[k] {
        assert a.mem[k] == v.mem[k];
      }
      forall k | 0 <= k < |v.mem| && k / BLOCK !in d && !Marked(base, rs, k) ensures v.perms[k] == g.perms[k] {
        assert a.perms[k] == v.perms[k];
      }
    }
    if Restorable(base, v, d, rs, g) {
      assert a.mem == g.mem;
      assert a.perms == g.perms;
    }
  }

  // ----- what each kind of change touches -----

  /** Only permissions inside the range may differ. */
  ghost predicate Within(base: u32, v: Planes, w: Planes, r: Range)
  {
    v.Valid() && w.Valid() && v.mem == w.mem &&
    forall k | 0 <= k < |v.mem| && !InRange(base, r, k) :: w.perms[k] == v.perms[k]
  }

  lemma {:induction false} ProtectWithin(base: u32, v: Planes, addr: u32, len: nat, perm: Perm, i: nat)
    requires v.Valid() && i <= len
    ensures Within(base, v, ProtectFrom(base, v, addr, len, perm, i).0, (addr, len))
    decreases len - i
  {
    hide W32;
    if i < len {
      var o := Offset(base, |v.mem|, W32(addr + i));
      if o.Some? {
        assert At(addr, i) == base + o.value;
        var v' := v.(perms := v.perms[o.value := perm]);
        ProtectWithin(base, v', addr, len, perm, i + 1);
      }
    }
  }

  lemma Nested(base: u32, v: Planes, w: Planes, addr: u32, at: nat, len: nat, whole: nat)
    requires addr + at < TWO32 && Within(base, v, w, (addr + at, len)) && at + len <= whole
    ensures Within(base, v, w, (addr, whole))
  {
    forall k | InRange(base, (addr + at, len), k) ensures InRange(base, (addr, whole), k) {
      var off :| 0 <= off < len && At(addr + at, off) == base + k;
      assert At(addr, at + off) == base + k;
    }
  }

  lemma AllocWithin(base: u32, v: Planes, h: Heap, addr: u32, req: nat, rounded: nat)
    requires v.Valid()
    ensures Within(base, v, AllocWithSlack(base, v, h, addr, req, rounded).v, (addr, Max(rounded, req)))
  {
    hide ProtectFrom, Within;
    var bucket := Max(rounded, req);
    var v1 := ProtectFrom(base, v, addr, req, FRESH, 0).0;
    Same(base, v, (addr, bucket));
    ProtectWithin(base, v, addr, req, FRESH, 0);
    assert addr + 0 == addr;
    Nested(base, v, v1, addr, 0, req, bucket);
    if addr + req < TWO32 {
      var v2 := ProtectFrom(base, v1, addr + req, bucket - req, NO_PERM, 0).0;
      ProtectWithin(base, v1, addr + req, bucket - req, NO_PERM, 0);
      Nested(base, v1, v2, addr, req, bucket - req, bucket);
      Chain(base, v, v1, v2, (addr, bucket));
    }
  }

  lemma Same(base: u32, v: Planes, r: Range)
    requires v.Valid()
    ensures Within(base, v, v, r)
  {
  }

  lemma Chain(base: u32, a: Planes, b: Planes, c: Planes, r: Range)
    requires Within(base, a, b, r) && Within(base, b, c, r)
    ensures Within(base, a, c, r)
  {
  }

  /** Slack never reaches past the size a live allocation is known by. */
  ghost predicate SlackFits(h: Heap)
  {
    forall a | a in h.live && h.live[a].slack.Some? :: h.live[a].slack.value.0 <= h.live[a].slack.value.1 <= h.live[a].size
  }

  lemma LiveWithin(base: u32, v: Planes, h: Heap, cap: nat, addr: u32)
    requires v.Valid() && SlackFits(h) && addr in h.live
    ensures Within(base, v, ReopenSlack(base, v, h, addr).v, (addr, h.live[addr].size))
    ensures Within(base, v, Free(base, v, h, cap, addr).v, (addr, h.live[addr].size))
  {
    hide ProtectFrom, Within, Remember;
    var a := h.live[addr];
    Same(base, v, (addr, a.size));
    ProtectWithin(base, v, addr, a.size, NO_PERM, 0);
    if a.slack.Some? {
      var (req, bucket) := a.slack.value;
      if addr + req < TWO32 {
        var w := ProtectFrom(base, v, addr + req, bucket - req, FRESH, 0).0;
        ProtectWithin(base, v, addr + req, bucket - req, FRESH, 0);
        Nested(base, v, w, addr, req, bucket - req, a.size);
      }
    }
  }

  lemma SlackKept(base: u32, v: Planes, h: Heap, cap: nat, addr: u32, n: nat, rounded: nat)
    requires v.Valid() && SlackFits(h)
    ensures SlackFits(AllocWithSlack(base, v, h, addr, n, rounded).h)
    ensures SlackFits(AllocExact(base, v, h, addr, n).h)
    ensures SlackFits(ReopenSlack(base, v, h, addr).h) && SlackFits(Free(base, v, h, cap, addr).h)
  {
    hide ProtectFrom, PoisonSlack, Without;
  }

  /** A change inside a range that is marked stays restorable. */
  lemma MarkedChange(base: u32, v: Planes, w: Planes, d: seq<nat>, rs: seq<Range>, r: Range, g: Planes)
    requires Restorable(base, v, d, rs, g) && Within(base, v, w, r)
    requires r.1 > 0 ==> r in rs
    ensures Restorable(base, w, d, rs, g)
  {
    forall k | InRange(base, r, k) ensures Marked(base, rs, k) {
      var i :| 0 <= i < |rs| && rs[i] == r;
      assert InRange(base, rs[i], k);
    }
  }

  lemma MoreMarks(base: u32, v: Planes, d: seq<nat>, rs: seq<Range>, r: Range, g: Planes)
    requires Restorable(base, v, d, rs, g)
    ensures Restorable(base, v, d, rs + [r], g)
  {
    forall k | Marked(base, rs, k) ensures Marked(base, rs + [r], k) {
      var i :| 0 <= i < |rs| && InRange(base, rs[i], k);
      assert (rs + [r])[i] == rs[i];
    }
  }

  /** What a checked write changes, it lists. */
  lemma {:induction false} WriteListed(base: u32, v: Planes, addr: u32, data: seq<u8>, i: nat, d: seq<nat>)
    requires v.Valid() && i <= |data|
    ensures var w, d' := WriteFrom(base, v, addr, data, i).0, DirtyFrom(base, v, addr, data, i, d);
      && (forall b | b in d :: b in d')
      && forall k | 0 <= k < |v.mem| && k / BLOCK !in d' :: w.mem[k] == v.mem[k] && w.perms[k] == v.perms[k]
    decreases |data| - i
  {
    hide W32;
    if i < |data| {
      var at := Locate(base, v, W32(addr + i), |data|, WriteAccess);
      if at.Ok? {
        var m := Mark(d, at.value / BLOCK);
        assert at.value / BLOCK in m && forall b | b in d :: b in m;
        WriteListed(base, Put(v, at.value, data[i]), addr, data, i + 1, m);
      }
    }
  }

  /** A bucket smaller than the request breaks it: the stamped payload byte is on no list. */
  lemma SmallBucket(base: u32, g: Planes)
    requires g.Valid() && Window(base, |g.mem|) && |g.mem| > 0 && g.perms[0] != FRESH
    ensures !Restorable(base, AllocWithSlack(base, g, Heap(map[], [], map[]), base, 1, 0).v, [], [], g)
  {
    var w := AllocWithSlack(base, g, Heap(map[], [], map[]), base, 1, 0).v;
    ProtectInBounds(base, g, base, 1, FRESH, 0);
    assert w == Stamp(g, 0, 1, FRESH) && w.perms[0] == FRESH;
    assert !Marked(base, [], 0);
  }

  datatype CaseEvent =
    | KmallocReturn(pa: u32, size: nat, bucket: nat)
    | KfreeReturn(pa: u32)
    | Ksize(pa: u32)
    | CacheAlloc(pa: u32, size: nat)
    | GuestWrite(pa: u32, data: seq<u8>)

  /** The allocator's rounding never rounds down. */
  ghost predicate RoundsUp(es: seq<CaseEvent>)
  {
    forall i | 0 <= i < |es| && es[i].KmallocReturn? :: es[i].size <= es[i].bucket
  }

  /** What an event does to the planes and the bookkeeping: the policy's operation and, where it succeeds on
      an allocation or a reopening, the raw mark dropped from the payload or from the whole bucket. */
  function Hooked(base: u32, v: Planes, h: Heap, cap: nat, e: CaseEvent): (r: (Planes, Heap))
    requires v.Valid()
    ensures r.0.Valid() && |r.0.mem| == |v.mem|
  {
    match e
    case KmallocReturn(pa, size, bucket) =>
      var o := AllocWithSlack(base, v, h, pa, size, bucket);
      (if o.e.None? then ProtectFrom(base, o.v, pa, size, OPEN, 0).0 else o.v, o.h)
    case CacheAlloc(pa, size) =>
      var o := AllocExact(base, v, h, pa, size);
      (if o.e.None? then ProtectFrom(base, o.v, pa, size, OPEN, 0).0 else o.v, o.h)
    case KfreeReturn(pa) =>
      var o := Free(base, v, h, cap, pa);
      (o.v, o.h)
    case Ksize(pa) =>
      var o := ReopenSlack(base, v, h, pa);
      (if o.e.None? && pa in h.live then ProtectFrom(base, o.v, pa, h.live[pa].size, OPEN, 0).0 else o.v, o.h)
    case GuestWrite(pa, data) => (Write(base, v, pa, data).0, h)
  }

  /** Whether the sanitizer refuses an event or faults in it. */
  predicate Fails(base: u32, v: Planes, h: Heap, cap: nat, e: CaseEvent)
    requires v.Valid()
  {
    match e
    case KmallocReturn(pa, size, bucket) => AllocWithSlack(base, v, h, pa, size, bucket).e.Some?
    case CacheAlloc(pa, size) => AllocExact(base, v, h, pa, size).e.Some?
    case KfreeReturn(pa) => Free(base, v, h, cap, pa).e.Some?
    case Ksize(pa) => ReopenSlack(base, v, h, pa).e.Some?
    case GuestWrite(_, _) => false
  }

  /** A whole case: planes, bookkeeping and the number of failing events. */
  function HookedAll(base: u32, v: Planes, h: Heap, cap: nat, es: seq<CaseEvent>): (r: (Planes, Heap, nat))
    requires v.Valid()
    ensures r.0.Valid() && |r.0.mem| == |v.mem|
  {
    if es == [] then (v, h, 0)
    else
      var (u, k, n) := HookedAll(base, v, h, cap, es[..|es| - 1]);
      var (w, l) := Hooked(base, u, k, cap, es[|es| - 1]);
      (w, l, n + if Fails(base, u, k, cap, es[|es| - 1]) then 1 else 0)
  }

  /** A free of what is not live fails; so does a second free of the same address with no allocation between. */
  lemma FreeTwice(base: u32, v: Planes, h: Heap, cap: nat, pa: u32)
    requires v.Valid()
    ensures pa !in h.live ==> Fails(base, v, h, cap, KfreeReturn(pa)) && Hooked(base, v, h, cap, KfreeReturn(pa)) == (v, h)
    ensures pa !in Hooked(base, v, h, cap, KfreeReturn(pa)).1.live
    ensures pa in h.live ==> Fails(base, v, h, cap, KmallocReturn(pa, 0, 0)) && Fails(base, v, h, cap, CacheAlloc(pa, 0))
  {
    hide ProtectFrom;
  }

  /** After its hook an allocation inside the window is open to reads and writes, its slack shut; a reopened
      bucket is open throughout; a freed one, when frees poison, shut. */
  lemma HookOpens(base: u32, v: Planes, h: Heap, cap: nat, pa: u32, size: nat, bucket: nat, k: nat)
    requires v.Valid() && Window(base, |v.mem|) && base <= pa && pa - base + bucket <= |v.mem| && size <= bucket && pa !in h.live
    requires k < |v.mem|
    ensures var off, w := pa - base, Hooked(base, v, h, cap, KmallocReturn(pa, size, bucket)).0;
      if off <= k < off + size then w.perms[k] == Perm(true, true, false, false, false, false)
      else if off <= k < off + bucket then w.perms[k] == Perm(false, false, false, false, false, false)
      else w.perms[k] == v.perms[k]
    ensures var off, w := pa - base, Hooked(base, v, h, cap, CacheAlloc(pa, size)).0;
      w.perms[k] == if off <= k < off + size then Perm(true, true, false, false, false, false) else v.perms[k]
  {
    hide Hooked, Stamp;
    var off := pa - base;
    AllocHook(base, v, h, cap, pa, size, bucket);
    var u := Stamp(v, off, size, FRESH);
    var w := Stamp(u, off + size, bucket - size, NO_PERM);
    StampAt(v, off, size, FRESH, k);
    StampAt(u, off + size, bucket - size, NO_PERM, k);
    StampAt(w, off, size, OPEN, k);
    StampAt(u, off, size, OPEN, k);
  }

  lemma AllocHook(base: u32, v: Planes, h: Heap, cap: nat, pa: u32, size: nat, bucket: nat)
    requires v.Valid() && Window(base, |v.mem|) && base <= pa && pa - base + bucket <= |v.mem| && size <= bucket && pa !in h.live
    ensures var off, u := pa - base, Stamp(v, pa - base, size, FRESH);
      && Hooked(base, v, h, cap, KmallocReturn(pa, size, bucket)).0 == Stamp(Stamp(u, off + size, bucket - size, NO_PERM), off, size, OPEN)
      && Hooked(base, v, h, cap, CacheAlloc(pa, size)).0 == Stamp(u, off, size, OPEN)
  {
    hide ProtectFrom, Without, Stamp;
    var off, u := pa - base, Stamp(v, pa - base, size, FRESH);
    ProtectInBounds(base, v, pa, size, FRESH, 0);
    ProtectInBounds(base, u, pa, size, OPEN, 0);
    if bucket > size {
      ProtectInBounds(base, u, pa + size, bucket - size, NO_PERM, 0);
    } else {
      StampNone(u, off + size, NO_PERM);
    }
    ProtectInBounds(base, Stamp(u, off + size, bucket - size, NO_PERM), pa, size, OPEN, 0);
  }

  lemma LiveHook(base: u32, v: Planes, h: Heap, cap: nat, pa: u32)
    requires v.Valid() && Window(base, |v.mem|) && pa in h.live && base <= pa && pa - base + h.live[pa].size <= |v.mem|
    requires h.live[pa].slack.Some? ==> h.live[pa].slack.value.0 <= h.live[pa].slack.value.1 == h.live[pa].size
    ensures var off, x := pa - base, h.live[pa];
      && Hooked(base, v, h, cap, KfreeReturn(pa)).0 == (if x.freePoisons then Stamp(v, off, x.size, NO_PERM) else v)
      && Hooked(base, v, h, cap, Ksize(pa)).0 ==
           Stamp(if x.slack.Some? then Stamp(v, off + x.slack.value.0, x.slack.value.1 - x.slack.value.0, FRESH) else v, off, x.size, OPEN)
  {
    hide ProtectFrom, Remember, Stamp;
    var off, x := pa - base, h.live[pa];
    ProtectInBounds(base, v, pa, x.size, NO_PERM, 0);
    if x.slack.Some? {
      var (req, bucket) := x.slack.value;
      if req < bucket {
        ProtectInBounds(base, v, pa + req, bucket - req, FRESH, 0);
      } else {
        StampNone(v, off + req, FRESH);
      }
      ProtectInBounds(base, Stamp(v, off + req, bucket - req, FRESH), pa, x.size, OPEN, 0);
    } else {
      ProtectInBounds(base, v, pa, x.size, OPEN, 0);
    }
  }

  lemma HookReopens(base: u32, v: Planes, h: Heap, cap: nat, pa: u32, k: nat)
    requires v.Valid() && Window(base, |v.mem|) && pa in h.live && base <= pa && pa - base + h.live[pa].size <= |v.mem| && k < |v.mem|
    requires h.live[pa].slack.Some? ==> h.live[pa].slack.value.0 <= h.live[pa].slack.value.1 == h.live[pa].size
    ensures var off, n, w := pa - base, h.live[pa].size, Hooked(base, v, h, cap, Ksize(pa)).0;
      w.perms[k] == if off <= k < off + n then Perm(true, true, false, false, false, false) else v.perms[k]
    ensures var off, n, w := pa - base, h.live[pa].size, Hooked(base, v, h, cap, KfreeReturn(pa)).0;
      w.perms[k] == if h.live[pa].freePoisons && off <= k < off + n then Perm(false, false, false, false, false, false) else v.perms[k]
  {
    hide Hooked, Stamp;
    var off, x := pa - base, h.live[pa];
    LiveHook(base, v, h, cap, pa);
    StampAt(v, off, x.size, NO_PERM, k);
    if x.slack.Some? {
      var (req, bucket) := x.slack.value;
      StampAt(v, off + req, bucket - req, FRESH, k);
      StampAt(Stamp(v, off + req, bucket - req, FRESH), off, x.size, OPEN, k);
    } else {
      StampAt(v, off, x.size, OPEN, k);
    }
  }

  class SanCtx {
    const san: Sanitizer
    const golden: Planes
    var dirtied: seq<Range>
    var errors: nat

    constructor (cap: nat, golden: Planes)
      ensures fresh(san) && this.golden == golden && dirtied == [] && errors == 0 && SlackFits(san.Contents())
    {
      this.golden := golden;
      dirtied, errors := [], 0;
      san := new Sanitizer(cap);
    }

    ghost predicate Good(m: Mmu)
      reads this, san, m, m.mem, m.perms
    {
      m.Valid() && m.track && SlackFits(san.Contents()) && Restorable(m.base, m.View(), m.dirty, dirtied, golden)
    }

    method MarkDirtied(m: Mmu, addr: u32, len: nat)
      requires Good(m)
      modifies `dirtied
      ensures Good(m) && (len > 0 ==> (addr, len) in dirtied)
    {
      hide Restorable, Mmu.Exact;
      if len > 0 {
        MoreMarks(m.base, m.View(), m.dirty, dirtied, (addr, len), golden);
        dirtied := dirtied + [(addr, len)];
      }
    }

    /** Stamp permissions inside a range that is marked already. */
    method ProtectMarked(m: Mmu, addr: u32, len: nat, whole: nat, perm: Perm)
      requires Good(m) && len <= whole && (whole > 0 ==> (addr, whole) in dirtied)
      modifies m.perms
      ensures Good(m) && m.View() == ProtectFrom(m.base, old(m.View()), addr, len, perm, 0).0
    {
      hide Restorable, Mmu.Exact, ProtectFrom, Within;
      ghost var v := m.View();
      var e := m.Protect(addr, len, perm);
      ProtectWithin(m.base, v, addr, len, perm, 0);
      Nested(m.base, v, m.View(), addr, 0, len, whole);
      MarkedChange(m.base, v, m.View(), m.dirty, dirtied, (addr, whole), golden);
    }

    method OnAlloc(m: Mmu, pa: u32, size: nat, bucket: nat)
      requires Good(m) && size <= bucket
      modifies `dirtied, `errors, san, m.perms
      ensures Good(m) && (m.View(), san.Contents()) == Hooked(m.base, old(m.View()), old(san.Contents()), san.cap, KmallocReturn(pa, size, bucket))
      ensures errors == old(errors) + if Fails(m.base, old(m.View()), old(san.Contents()), san.cap, KmallocReturn(pa, size, bucket)) then 1 else 0
    {
      hide Restorable, Mmu.Exact, Policy.AllocWithSlack, Within, ProtectFrom;
      MarkDirtied(m, pa, bucket);
      ghost var v, h := m.View(), san.Contents();
      var e := san.AllocWithSlack(m, pa, size, bucket);
      if e.Some? { errors := errors + 1; }
      AllocWithin(m.base, v, h, pa, size, bucket);
      SlackKept(m.base, v, h, 0, pa, size, bucket);
      MarkedChange(m.base, v, m.View(), m.dirty, dirtied, (pa, bucket), golden);
      if e.None? {
        ProtectMarked(m, pa, size, bucket, OPEN);
      }
    }

    method OnCacheAlloc(m: Mmu, pa: u32, size: nat)
      requires Good(m)
      modifies `dirtied, `errors, san, m.perms
      ensures Good(m) && (m.View(), san.Contents()) == Hooked(m.base, old(m.View()), old(san.Contents()), san.cap, CacheAlloc(pa, size))
      ensures errors == old(errors) + if Fails(m.base, old(m.View()), old(san.Contents()), san.cap, CacheAlloc(pa, size)) then 1 else 0
    {
      hide Restorable, Mmu.Exact, Within, ProtectFrom;
      MarkDirtied(m, pa, size);
      ghost var v, h := m.View(), san.Contents();
      var e := san.AllocExactNoUafGuard(m, pa, size);
      if e.Some? { errors := errors + 1; }
      ProtectWithin(m.base, v, pa, size, FRESH, 0);
      Same(m.base, v, (pa, size));
      SlackKept(m.base, v, h, 0, pa, size, 0);
      MarkedChange(m.base, v, m.View(), m.dirty, dirtied, (pa, size), golden);
      if e.None? {
        ProtectMarked(m, pa, size, size, OPEN);
      }
    }

    method OnFree(m: Mmu, pa: u32)
      requires Good(m)
      modifies `dirtied, `errors, san, m.perms
      ensures Good(m) && (m.View(), san.Contents()) == Hooked(m.base, old(m.View()), old(san.Contents()), san.cap, KfreeReturn(pa))
      ensures errors == old(errors) + if Fails(m.base, old(m.View()), old(san.Contents()), san.cap, KfreeReturn(pa)) then 1 else 0
    {
      hide Restorable, Mmu.Exact, Within, SlackFits, ProtectFrom;
      var bucket := san.LiveSize(pa);
      if bucket.Some? {
        MarkDirtied(m, pa, bucket.value);
      }
      ghost var v, h := m.View(), san.Contents();
      var e := san.Free(m, pa);
      if e.Some? { errors := errors + 1; }
      SlackKept(m.base, v, h, san.cap, pa, 0, 0);
      if bucket.Some? {
        LiveWithin(m.base, v, h, san.cap, pa);
        MarkedChange(m.base, v, m.View(), m.dirty, dirtied, (pa, bucket.value), golden);
      }
    }

    method OnKsize(m: Mmu, pa: u32)
      requires Good(m)
      modifies `dirtied, `errors, m.perms
      ensures Good(m) && (m.View(), san.Contents()) == Hooked(m.base, old(m.View()), old(san.Contents()), san.cap, Ksize(pa))
      ensures errors == old(errors) + if Fails(m.base, old(m.View()), old(san.Contents()), san.cap, Ksize(pa)) then 1 else 0
    {
      hide Restorable, Mmu.Exact, Within, SlackFits, ProtectFrom;
      var bucket := san.LiveSize(pa);
      if bucket.Some? {
        MarkDirtied(m, pa, bucket.value);
      }
      ghost var v, h := m.View(), san.Contents();
      var e := san.ReopenSlack(m, pa);
      if e.Some? { errors := errors + 1; }
      if bucket.Some? {
        LiveWithin(m.base, v, h, san.cap, pa);
        MarkedChange(m.base, v, m.View(), m.dirty, dirtied, (pa, bucket.value), golden);
        if e.None? {
          ProtectMarked(m, pa, bucket.value, bucket.value, OPEN);
        }
      }
    }

    method OnWrite(m: Mmu, pa: u32, data: seq<u8>)
      requires Good(m)
      modifies m`dirty, m`bitmap, m.mem, m.perms
      ensures Good(m) && (m.View(), san.Contents()) == Hooked(m.base, old(m.View()), old(san.Contents()), san.cap, GuestWrite(pa, data))
    {
      hide Mmu.Exact, WriteFrom, DirtyFrom, SlackFits;
      WriteListed(m.base, m.View(), pa, data, 0, m.dirty);
      var e := m.Write(pa, data);
    }

    /** Every marked permission byte is stamped from golden, then the list starts afresh. */
    method RestoreDirtiedPerms(m: Mmu)
      requires m.Valid() && golden.Valid() && |golden.mem| == m.mem.Length
      modifies `dirtied, m.perms
      ensures dirtied == [] && m.View() == Repaired(m.base, old(m.View()), old(dirtied), golden)
    {
      hide Repaired, Marked;
      ghost var v := m.View();
      RepairedNone(m.base, v, golden);
      for i := 0 to |dirtied|
        invariant dirtied == old(dirtied) && m.View() == Repaired(m.base, v, dirtied[..i], golden)
      {
        RestoreRange(m, dirtied[i]);
        RepairedMore(m.base, v, m.View(), dirtied[..i], dirtied[i], golden);
        assert dirtied[..i + 1] == dirtied[..i] + [dirtied[i]];
      }
      assert dirtied[..|dirtied|] == dirtied;
      dirtied := [];
    }

    method RestoreRange(m: Mmu, r: Range)
      requires m.Valid() && golden.Valid() && |golden.mem| == m.mem.Length
      modifies m.perms
      ensures m.View().mem == old(m.View().mem)
      ensures forall k | 0 <= k < m.mem.Length ::
        m.View().perms[k] == if InRange(m.base, r, k) then golden.perms[k] else old(m.View()).perms[k]
    {
      for off := 0 to r.1
        invariant forall k | 0 <= k < m.mem.Length ::
          m.perms[k] == if InRange(m.base, (r.0, off), k) then golden.perms[k] else old(m.perms[k])
      {
        var a := At(r.0, off);
        RangeMore(m.base, r.0, off);
        if a >= m.base && a - m.base < |golden.perms| {
          ghost var v := m.View();
          var e := m.Protect(a, 1, golden.perms[a - m.base]);
          OneByte(m.base, v, a, golden.perms[a - m.base]);
        }
      }
    }

    /** The case ends: contents and permissions are golden again. */
    method EndCase(m: Mmu)
      requires Good(m)
      modifies `dirtied, m`dirty, m`bitmap, m.mem, m.perms
      ensures Good(m) && m.View() == golden && dirtied == [] && m.dirty == []
    {
      hide Mmu.Exact, Restore, Repaired;
      BothResets(m.base, m.View(), m.dirty, dirtied, golden);
      m.ResetDirty(golden);
      RestoreDirtiedPerms(m);
    }
  }

  lemma RangeMore(base: u32, addr: u32, off: nat)
    ensures forall k :: InRange(base, (addr, off + 1), k) <==> InRange(base, (addr, off), k) || At(addr, off) == base + k
  {
    forall k ensures InRange(base, (addr, off + 1), k) <==> InRange(base, (addr, off), k) || At(addr, off) == base + k {
    }
  }

  lemma OneByte(base: u32, v: Planes, a: u32, p: Perm)
    requires v.Valid() && base <= a && a - base < |v.mem|
    ensures ProtectFrom(base, v, a, 1, p, 0).0 == v.(perms := v.perms[a - base := p])
  {
    assert W32(a + 0) == a;
    var w := v.(perms := v.perms[a - base := p]);
    assert ProtectFrom(base, w, a, 1, p, 1) == (w, None);
  }

  lemma RepairedNone(base: u32, v: Planes, g: Planes)
    requires v.Valid() && g.Valid() && |v.mem| == |g.mem|
    ensures Repaired(base, v, [], g) == v
  {
    assert Repaired(base, v, [], g).perms == v.perms;
  }

  lemma RepairedMore(base: u32, v: Planes, w: Planes, rs: seq<Range>, r: Range, g: Planes)
    requires v.Valid() && g.Valid() && |v.mem| == |g.mem| && w.Valid() && w.mem == v.mem
    requires forall k | 0 <= k < |v.mem| ::
      w.perms[k] == if InRange(base, r, k) then g.perms[k] else Repaired(base, v, rs, g).perms[k]
    ensures w == Repaired(base, v, rs + [r], g)
  {
    forall k ensures Marked(base, rs + [r], k) <==> Marked(base, rs, k) || InRange(base, r, k) {
      if Marked(base, rs, k) {
        var i :| 0 <= i < |rs| && InRange(base, rs[i], k);
        assert (rs + [r])[i] == rs[i];
      }
      assert (rs + [r])[|rs|] == r;
    }
    assert w.perms == Repaired(base, v, rs + [r], g).perms;
  }

  /** One whole case, from golden back to golden, whatever the guest and the allocator hooks do. */
  method RunCase(ctx: SanCtx, m: Mmu, es: seq<CaseEvent>)
    requires ctx.Good(m) && RoundsUp(es)
    modifies ctx`dirtied, ctx`errors, ctx.san, m`dirty, m`bitmap, m.mem, m.perms
    ensures ctx.Good(m) && m.View() == ctx.golden
    ensures var (_, h, n) := HookedAll(m.base, old(m.View()), old(ctx.san.Contents()), ctx.san.cap, es);
      ctx.san.Contents() == h && ctx.errors == old(ctx.errors) + n
  {
    hide Restorable, Mmu.Exact, SlackFits, Hooked, Fails;
    ghost var v, h := m.View(), ctx.san.Contents();
    for i := 0 to |es|
      invariant ctx.Good(m)
      invariant (m.View(), ctx.san.Contents(), ctx.errors - old(ctx.errors)) == HookedAll(m.base, v, h, ctx.san.cap, es[..i])
    {
      assert es[..i + 1][..i] == es[..i];
      assert es[i].GuestWrite? ==> !Fails(m.base, m.View(), ctx.san.Contents(), ctx.san.cap, es[i]) by { WriteFailsNot(m.base, m.View(), ctx.san.Contents(), ctx.san.cap, es[i]); }
      match es[i] {
        case KmallocReturn(pa, size, bucket) => ctx.OnAlloc(m, pa, size, bucket);
        case KfreeReturn(pa) => ctx.OnFree(m, pa);
        case Ksize(pa) => ctx.OnKsize(m, pa);
        case CacheAlloc(pa, size) => ctx.OnCacheAlloc(m, pa, size);
        case GuestWrite(pa, data) => ctx.OnWrite(m, pa, data);
      }
    }
    assert es[..|es|] == es;
    ctx.EndCase(m);
  }

  lemma WriteFailsNot(base: u32, v: Planes, h: Heap, cap: nat, e: CaseEvent)
    requires v.Valid()
    ensures e.GuestWrite? ==> !Fails(base, v, h, cap, e)
  {
  }
}
