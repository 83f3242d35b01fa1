/** The sanitizer over whole runs: what a client that frees what it owns can rely on, and what it cannot
    get away with. */
module SanTrace {
  import opened Words
  import opened GuestMemory
  import opened Policy

  /** What a byte is to the heap: never handed out, part of an object and written or not, rounding slack,
      or freed and not handed out since. */
  datatype Zone = Wild | Payload(written: bool) | Slack | Freed

  predicate ZoneOk(z: Zone, p: Perm)
  {
    match z
    case Wild => true
    case Payload(w) => p == (if w then OPEN else FRESH)
    case Slack => p == NO_PERM
    case Freed => p == NO_PERM
  }

  ghost predicate Consistent(v: Planes, z: seq<Zone>)
  {
    v.Valid() && |z| == |v.perms| && forall k | 0 <= k < |z| :: ZoneOk(z[k], v.perms[k])
  }

  /** An allocator event, or an access by the guest. */
  datatype Event =
    | Alloc(addr: u32, req: nat, rounded: nat)
    | AllocX(addr: u32, size: nat)
    | Release(addr: u32)
    | Reopen(addr: u32)
    | Store(addr: u32, data: seq<u8>)
    | Fetch(addr: u32, len: nat)

  datatype State = State(v: Planes, h: Heap, z: seq<Zone>)

  function Fill(z: seq<Zone>, off: nat, len: nat, x: Zone): (r: seq<Zone>)
    requires off + len <= |z|
    ensures |r| == |z|
    ensures forall k | 0 <= k < |z| :: r[k] == if off <= k < off + len then x else z[k]
  {
    z[..off] + seq(len, _ => x) + z[off + len..]
  }

  /** A committed byte of a payload becomes written. */
  function ZoneWrite(base: u32, v: Planes, addr: u32, data: seq<u8>, i: nat, z: seq<Zone>): (r: seq<Zone>)
    requires v.Valid() && |z| == |v.mem| && i <= |data|
    ensures |r| == |z|
    decreases |data| - i
  {
    if i == |data| then z
    else
      match Locate(base, v, W32(addr + i), |data|, WriteAccess)
      case Err(_) => z
      case Ok(off) =>
        ZoneWrite(base, Put(v, off, data[i]), addr, data, i + 1, if z[off].Payload? then z[off := Payload(true)] else z)
  }

  ghost predicate Fits(base: u32, size: nat, addr: u32, len: nat)
  {
    Window(base, size) && base <= addr && addr - base + len <= size
  }

  ghost predicate Apart(a: u32, m: nat, b: u32, n: nat) { a + m <= b || b + n <= a }

  ghost predicate Unused(h: Heap, addr: u32, len: nat)
  {
    addr !in h.live && forall b | b in h.live :: Apart(addr, len, b, h.live[b].size)
  }

  /** What the client owes: allocations in bounds and apart from what is live; frees and `ksize` of live
      objects only. Its accesses are unrestricted. */
  ghost predicate Behaved(base: u32, s: State, e: Event)
  {
    match e
    case Alloc(addr, req, rounded) => Fits(base, |s.z|, addr, Max(rounded, req)) && Unused(s.h, addr, Max(rounded, req))
    case AllocX(addr, size) => Fits(base, |s.z|, addr, size) && Unused(s.h, addr, size)
    case Release(addr) => addr in s.h.live
    case Reopen(addr) => addr in s.h.live
    case _ => true
  }

  ghost predicate HeapOk(base: u32, s: State)
  {
    && (forall a | a in s.h.live :: Fits(base, |s.z|, a, s.h.live[a].size))
    && (forall a, b | a in s.h.live && b in s.h.live && a != b :: Apart(a, s.h.live[a].size, b, s.h.live[b].size))
    && (forall a | a in s.h.live :: ObjectOk(base, s.z, a, s.h.live[a]))
  }

  /** A live object's payload is payload; its slack is slack until it is reopened. */
  ghost predicate ObjectOk(base: u32, z: seq<Zone>, a: u32, x: LiveAlloc)
    requires Fits(base, |z|, a, x.size)
  {
    match x.slack
    case None => !x.freePoisons && forall k | a - base <= k < a - base + x.size :: z[k].Payload?
    case Some((req, bucket)) =>
      && x.freePoisons && req <= bucket == x.size
      && (forall k | a - base <= k < a - base + req :: z[k].Payload?)
      && forall k | a - base + req <= k < a - base + bucket :: z[k].Payload? || z[k].Slack?
  }

  ghost predicate Inv(base: u32, cap: nat, s: State)
  {
    Window(base, |s.v.mem|) && Consistent(s.v, s.z) && HeapOk(base, s) && QuarantineOk(s.h, cap)
  }

  /** A heap with no objects, over any memory, is where every run may begin. */
  lemma Begins(base: u32, cap: nat, v: Planes)
    requires v.Valid() && Window(base, |v.mem|)
    ensures Inv(base, cap, State(v, Heap(map[], [], map[]), seq(|v.perms|, _ => Wild)))
  {
    var s := State(v, Heap(map[], [], map[]), seq(|v.perms|, _ => Wild));
    assert forall k | 0 <= k < |s.z| :: s.z[k] == Wild;
  }

  /** One event, as the policy and the soft-MMU carry it out; the zones record its meaning. */
  ghost function Step(base: u32, cap: nat, s: State, e: Event): State
    requires Inv(base, cap, s) && Behaved(base, s, e)
  {
    match e
    case Alloc(addr, req, rounded) =>
      var o, off, bucket := AllocWithSlack(base, s.v, s.h, addr, req, rounded), addr - base, Max(rounded, req);
      State(o.v, o.h, Fill(Fill(s.z, off, req, Payload(false)), off + req, bucket - req, Slack))
    case AllocX(addr, size) =>
      var o := AllocExact(base, s.v, s.h, addr, size);
      State(o.v, o.h, Fill(s.z, addr - base, size, Payload(false)))
    case Release(addr) =>
      var o, a := Free(base, s.v, s.h, cap, addr), s.h.live[addr];
      State(o.v, o.h, if a.freePoisons then Fill(s.z, addr - base, a.size, Freed) else s.z)
    case Reopen(addr) =>
      var o, a := ReopenSlack(base, s.v, s.h, addr), s.h.live[addr];
      State(o.v, o.h,
            if a.slack.Some? then Fill(s.z, addr - base + a.slack.value.0, a.slack.value.1 - a.slack.value.0, Payload(false))
            else s.z)
    case Store(addr, data) => State(Write(base, s.v, addr, data).0, s.h, ZoneWrite(base, s.v, addr, data, 0, s.z))
    case Fetch(_, _) => s
  }

  // ----- one step -----

  lemma StampConsistent(v: Planes, z: seq<Zone>, off: nat, len: nat, p: Perm, x: Zone)
    requires Consistent(v, z) && off + len <= |z| && ZoneOk(x, p)
    ensures Consistent(Stamp(v, off, len, p), Fill(z, off, len, x))
  {
  }

  lemma InBoundsOf(base: u32, v: Planes, addr: u32, len: nat)
    requires v.Valid() && Fits(base, |v.mem|, addr, len)
    ensures InBounds(base, v, addr, len)
  {
  }

  /** A zone change inside one bucket leaves every other object as it was. */
  lemma OthersOk(base: u32, z: seq<Zone>, z': seq<Zone>, addr: u32, len: nat, b: u32, x: LiveAlloc)
    requires |z'| == |z| && Fits(base, |z|, addr, len) && Fits(base, |z|, b, x.size) && Apart(addr, len, b, x.size)
    requires ObjectOk(base, z, b, x)
    requires forall k | 0 <= k < |z| && !(addr - base <= k < addr - base + len) :: z'[k] == z[k]
    ensures ObjectOk(base, z', b, x)
  {
  }

  lemma AllocPlanes(base: u32, v: Planes, h: Heap, addr: u32, req: nat, rounded: nat)
    requires v.Valid() && addr !in h.live && Fits(base, |v.mem|, addr, Max(rounded, req))
    ensures var o, bucket := AllocWithSlack(base, v, h, addr, req, rounded), Max(rounded, req);
      && o.v == Stamp(Stamp(v, addr - base, req, FRESH), addr - base + req, bucket - req, NO_PERM)
      && o.e.None? && o.h.live == h.live[addr := LiveAlloc(bucket, Some((req, bucket)), true)]
  {
    hide ProtectFrom, Stamp;
    var bucket := Max(rounded, req);
    InBoundsOf(base, v, addr, req);
    ProtectInBounds(base, v, addr, req, FRESH, 0);
    var v1 := Stamp(v, addr - base, req, FRESH);
    if bucket == req {
      StampNone(v1, addr - base + req, NO_PERM);
    } else {
      InBoundsOf(base, v1, addr + req, bucket - req);
      ProtectInBounds(base, v1, addr + req, bucket - req, NO_PERM, 0);
    }
  }

  /** Adding an object where nothing is live. */
  lemma AddObject(base: u32, s: State, t: State, addr: u32, x: LiveAlloc)
    requires HeapOk(base, s) && |t.z| == |s.z| && Fits(base, |s.z|, addr, x.size) && Unused(s.h, addr, x.size)
    requires t.h.live == s.h.live[addr := x] && ObjectOk(base, t.z, addr, x)
    requires forall k | 0 <= k < |s.z| && !(addr - base <= k < addr - base + x.size) :: t.z[k] == s.z[k]
    ensures HeapOk(base, t)
  {
    hide ObjectOk;
    forall b | b in s.h.live ensures ObjectOk(base, t.z, b, s.h.live[b]) {
      OthersOk(base, s.z, t.z, addr, x.size, b, s.h.live[b]);
    }
  }

  lemma AllocStep(base: u32, cap: nat, s: State, addr: u32, req: nat, rounded: nat)
    requires Inv(base, cap, s) && Behaved(base, s, Alloc(addr, req, rounded))
    ensures Inv(base, cap, Step(base, cap, s, Alloc(addr, req, rounded)))
  {
    hide Stamp, AllocWithSlack, QuarantineOk, ObjectOk, HeapOk, Consistent, Unused;
    var off, bucket, t := addr - base, Max(rounded, req), Step(base, cap, s, Alloc(addr, req, rounded));
    Sizes(s);
    assert addr !in s.h.live by { UnusedNew(s.h, addr, bucket); }
    AllocPlanes(base, s.v, s.h, addr, req, rounded);
    StampConsistent(s.v, s.z, off, req, FRESH, Payload(false));
    StampConsistent(Stamp(s.v, off, req, FRESH), Fill(s.z, off, req, Payload(false)), off + req, bucket - req, NO_PERM, Slack);
    QuarantineKept(base, s.v, s.h, cap, addr, req, rounded);
    NewObject(base, s.z, t.z, addr, req, bucket);
    AddObject(base, s, t, addr, LiveAlloc(bucket, Some((req, bucket)), true));
  }

  lemma Sizes(s: State)
    requires Consistent(s.v, s.z)
    ensures s.v.Valid() && |s.v.mem| == |s.z| == |s.v.perms|
  {
  }

  lemma UnusedNew(h: Heap, addr: u32, n: nat)
    requires Unused(h, addr, n)
    ensures addr !in h.live
  {
  }

  lemma NewObject(base: u32, z: seq<Zone>, z': seq<Zone>, addr: u32, req: nat, bucket: nat)
    requires Fits(base, |z|, addr, bucket) && req <= bucket
    requires z' == Fill(Fill(z, addr - base, req, Payload(false)), addr - base + req, bucket - req, Slack)
    ensures ObjectOk(base, z', addr, LiveAlloc(bucket, Some((req, bucket)), true))
  {
  }

  lemma AllocXPlanes(base: u32, v: Planes, h: Heap, addr: u32, size: nat)
    requires v.Valid() && addr !in h.live && Fits(base, |v.mem|, addr, size)
    ensures var o := AllocExact(base, v, h, addr, size);
      o.v == Stamp(v, addr - base, size, FRESH) && o.e.None? && o.h.live == h.live[addr := LiveAlloc(size, None, false)]
  {
    hide ProtectFrom, Stamp;
    InBoundsOf(base, v, addr, size);
    ProtectInBounds(base, v, addr, size, FRESH, 0);
  }

  lemma NewExact(base: u32, z: seq<Zone>, addr: u32, size: nat)
    requires Fits(base, |z|, addr, size) && forall k | addr - base <= k < addr - base + size :: z[k].Payload?
    ensures ObjectOk(base, z, addr, LiveAlloc(size, None, false))
  {
  }

  lemma AllocXStep(base: u32, cap: nat, s: State, addr: u32, size: nat)
    requires Inv(base, cap, s) && Behaved(base, s, AllocX(addr, size))
    ensures Inv(base, cap, Step(base, cap, s, AllocX(addr, size)))
  {
    hide Stamp, AllocExact, QuarantineOk, ObjectOk, HeapOk, Consistent, Unused;
    var t := Step(base, cap, s, AllocX(addr, size));
    Sizes(s);
    assert addr !in s.h.live by { UnusedNew(s.h, addr, size); }
    AllocXPlanes(base, s.v, s.h, addr, size);
    StampConsistent(s.v, s.z, addr - base, size, FRESH, Payload(false));
    QuarantineKept(base, s.v, s.h, cap, addr, size, 0);
    NewExact(base, t.z, addr, size);
    AddObject(base, s, t, addr, LiveAlloc(size, None, false));
  }

  lemma StampOther(v: Planes, off: nat, len: nat, p: Perm)
    requires v.Valid() && off + len <= |v.mem|
    ensures forall k | 0 <= k < |v.mem| && !(off <= k < off + len) :: Stamp(v, off, len, p).perms[k] == v.perms[k]
  {
  }

  lemma ReleasePlanes(base: u32, v: Planes, h: Heap, cap: nat, addr: u32)
    requires v.Valid() && addr in h.live && Fits(base, |v.mem|, addr, h.live[addr].size)
    ensures var o, a := Free(base, v, h, cap, addr), h.live[addr];
      o.v == (if a.freePoisons then Stamp(v, addr - base, a.size, NO_PERM) else v) && o.e.None? && o.h.live == h.live - {addr}
  {
    hide ProtectFrom, Stamp, Remember;
    var a := h.live[addr];
    InBoundsOf(base, v, addr, a.size);
    ProtectInBounds(base, v, addr, a.size, NO_PERM, 0);
    RememberLive(h.(live := h.live - {addr}), cap, addr, a);
  }

  lemma ReopenPlanes(base: u32, v: Planes, h: Heap, addr: u32)
    requires v.Valid() && addr in h.live && Fits(base, |v.mem|, addr, h.live[addr].size)
    requires h.live[addr].slack.Some? ==> h.live[addr].slack.value.0 <= h.live[addr].slack.value.1 == h.live[addr].size
    ensures var o, slack := ReopenSlack(base, v, h, addr), h.live[addr].slack;
      o.h == h && o.e.None? &&
      o.v == if slack.Some? then Stamp(v, addr - base + slack.value.0, slack.value.1 - slack.value.0, FRESH) else v
  {
    hide ProtectFrom, Stamp;
    if h.live[addr].slack.Some? {
      var (req, bucket) := h.live[addr].slack.value;
      if bucket > req {
        InBoundsOf(base, v, addr + req, bucket - req);
        ProtectInBounds(base, v, addr + req, bucket - req, FRESH, 0);
      } else {
        StampNone(v, addr - base + req, FRESH);
      }
    }
  }

  lemma ReleaseStep(base: u32, cap: nat, s: State, addr: u32)
    requires Inv(base, cap, s) && Behaved(base, s, Release(addr))
    ensures Inv(base, cap, Step(base, cap, s, Release(addr)))
  {
    hide Stamp, Fill, Free, QuarantineOk, Remember, ObjectOk, Consistent;
    var a := s.h.live[addr];
    Whole(s.v, s.z);
    ReleasePlanes(base, s.v, s.h, cap, addr);
    StampConsistent(s.v, s.z, addr - base, a.size, NO_PERM, Freed);
    QuarantineKept(base, s.v, s.h, cap, addr, 0, 0);
    var z' := Fill(s.z, addr - base, a.size, Freed);
    forall b | b in s.h.live && b != addr ensures ObjectOk(base, z', b, s.h.live[b]) {
      OthersOk(base, s.z, z', addr, a.size, b, s.h.live[b]);
    }
  }

  lemma RememberLive(h: Heap, cap: nat, addr: u32, a: LiveAlloc)
    ensures Remember(h, cap, addr, a).live == h.live
  {
  }

  lemma ReopenStep(base: u32, cap: nat, s: State, addr: u32)
    requires Inv(base, cap, s) && Behaved(base, s, Reopen(addr))
    ensures Inv(base, cap, Step(base, cap, s, Reopen(addr)))
  {
    hide Stamp, Fill, ReopenSlack, QuarantineOk, ObjectOk, Consistent;
    var a := s.h.live[addr];
    ObjectZones(base, s.z, addr, a);
    Whole(s.v, s.z);
    ReopenPlanes(base, s.v, s.h, addr);
    if a.slack.Some? {
      var (req, bucket) := a.slack.value;
      StampConsistent(s.v, s.z, addr - base + req, bucket - req, FRESH, Payload(false));
      ReopenedHeap(base, s, addr, Fill(s.z, addr - base + req, bucket - req, Payload(false)));
    }
  }

  lemma Whole(v: Planes, z: seq<Zone>)
    requires Consistent(v, z)
    ensures v.Valid() && |v.mem| == |z|
  {
  }

  lemma ReopenedHeap(base: u32, s: State, addr: u32, z: seq<Zone>)
    requires HeapOk(base, s) && addr in s.h.live && s.h.live[addr].slack.Some?
    requires var (req, bucket) := s.h.live[addr].slack.value;
      req <= bucket == s.h.live[addr].size && z == Fill(s.z, addr - base + req, bucket - req, Payload(false))
    ensures forall v :: HeapOk(base, State(v, s.h, z))
  {
    hide ObjectOk, Fill;
    var a := s.h.live[addr];
    var (req, bucket) := a.slack.value;
    Reopened(base, s.z, addr, a);
    var filled := Fill(s.z, addr - base + req, bucket - req, Payload(false));
    forall k | 0 <= k < |z| && !(addr - base <= k < addr - base + a.size) ensures z[k] == s.z[k] {
      assert z[k] == filled[k];
    }
    forall b | b in s.h.live && b != addr ensures ObjectOk(base, z, b, s.h.live[b]) {
      OthersOk(base, s.z, z, addr, a.size, b, s.h.live[b]);
    }
  }

  lemma Reopened(base: u32, z: seq<Zone>, a: u32, x: LiveAlloc)
    requires Fits(base, |z|, a, x.size) && ObjectOk(base, z, a, x) && x.slack.Some?
    ensures var (req, bucket) := x.slack.value; ObjectOk(base, Fill(z, a - base + req, bucket - req, Payload(false)), a, x)
  {
  }

  lemma {:induction false} StoreStep(base: u32, v: Planes, addr: u32, data: seq<u8>, i: nat, z: seq<Zone>)
    requires Consistent(v, z) && i <= |data|
    ensures var z' := ZoneWrite(base, v, addr, data, i, z);
      && Consistent(WriteFrom(base, v, addr, data, i).0, z')
      && forall k | 0 <= k < |z| :: z'[k] == z[k] || (z[k].Payload? && z'[k] == Payload(true))
    decreases |data| - i
  {
    hide W32;
    if i < |data| {
      var at := Locate(base, v, W32(addr + i), |data|, WriteAccess);
      if at.Ok? {
        var off := at.value;
        StoreStep(base, Put(v, off, data[i]), addr, data, i + 1, if z[off].Payload? then z[off := Payload(true)] else z);
      }
    }
  }

  /** Every event of a behaved client keeps the invariant. */
  lemma StepKeeps(base: u32, cap: nat, s: State, e: Event)
    requires Inv(base, cap, s) && Behaved(base, s, e)
    ensures Inv(base, cap, Step(base, cap, s, e))
  {
    hide Behaved, Inv;
    match e {
      case Alloc(addr, req, rounded) => AllocStep(base, cap, s, addr, req, rounded);
      case AllocX(addr, size) => AllocXStep(base, cap, s, addr, size);
      case Release(addr) => ReleaseStep(base, cap, s, addr);
      case Reopen(addr) => ReopenStep(base, cap, s, addr);
      case Store(addr, data) => AccessKeeps(base, cap, s, addr, data);
      case Fetch(_, _) =>
    }
  }

  lemma AccessKeeps(base: u32, cap: nat, s: State, addr: u32, data: seq<u8>)
    requires Inv(base, cap, s)
    ensures Inv(base, cap, Step(base, cap, s, Store(addr, data)))
  {
    hide QuarantineOk, ZoneWrite;
    StoreStep(base, s.v, addr, data, 0, s.z);
    forall a | a in s.h.live ensures ObjectOk(base, ZoneWrite(base, s.v, addr, data, 0, s.z), a, s.h.live[a]) {
      assert ObjectOk(base, s.z, a, s.h.live[a]);
    }
  }

  // ----- whole runs -----

  ghost predicate AllBehaved(base: u32, cap: nat, s: State, es: seq<Event>)
    requires Inv(base, cap, s)
    decreases |es|
  {
    es == [] || (Behaved(base, s, es[0]) &&
      (StepKeeps(base, cap, s, es[0]); AllBehaved(base, cap, Step(base, cap, s, es[0]), es[1..])))
  }

  ghost function Run(base: u32, cap: nat, s: State, es: seq<Event>): (r: State)
    requires Inv(base, cap, s) && AllBehaved(base, cap, s, es)
    ensures Inv(base, cap, r) && |r.z| == |s.z|
    decreases |es|
  {
    if es == [] then s
    else
      StepKeeps(base, cap, s, es[0]);
      Run(base, cap, Step(base, cap, s, es[0]), es[1..])
  }

  /** An access that touches a byte without permissions faults, wherever in the span it is. */
  lemma {:induction false} DeniedRead(base: u32, v: Planes, addr: u32, n: nat, i: nat, k: nat, access: Access)
    requires v.Valid() && Window(base, |v.mem|) && base <= addr && i <= k < n && addr - base + k < |v.mem|
    requires v.perms[addr - base + k] == NO_PERM
    ensures ReadFrom(base, v, addr, n, i, access).Err?
    decreases k - i
  {
    assert W32(addr + k) == addr + k;
    if i < k {
      DeniedRead(base, v, addr, n, i + 1, k, access);
    }
  }

  lemma {:induction false} DeniedWrite(base: u32, v: Planes, addr: u32, data: seq<u8>, i: nat, k: nat)
    requires v.Valid() && Window(base, |v.mem|) && base <= addr && i <= k < |data| && addr - base + k < |v.mem|
    requires v.perms[addr - base + k] == NO_PERM
    ensures WriteFrom(base, v, addr, data, i).1.Some?
    decreases k - i
  {
    assert W32(addr + k) == addr + k;
    if i < k {
      assert W32(addr + i) == addr + i;
      var at := Locate(base, v, addr + i, |data|, WriteAccess);
      if at.Ok? {
        DeniedWrite(base, Put(v, at.value, data[i]), addr, data, i + 1, k);
      }
    }
  }

  /** Whatever happened before, an access covering a freed byte or unopened slack faults. */
  lemma Caught(base: u32, cap: nat, s: State, addr: u32, data: seq<u8>, k: nat)
    requires Inv(base, cap, s) && base <= addr && k < |data| && addr - base + k < |s.z|
    requires s.z[addr - base + k].Freed? || s.z[addr - base + k].Slack?
    ensures Write(base, s.v, addr, data).1.Some?
    ensures Read(base, s.v, addr, |data|, ReadAccess).Err? && Read(base, s.v, addr, |data|, ExecAccess).Err?
  {
    DeniedWrite(base, s.v, addr, data, 0, k);
    DeniedRead(base, s.v, addr, |data|, 0, k, ReadAccess);
    DeniedRead(base, s.v, addr, |data|, 0, k, ExecAccess);
  }

  /** Whatever happened before, a write within a live payload succeeds, and what was written reads back. */
  lemma NoFalsePositive(base: u32, cap: nat, s: State, a: u32, at: nat, data: seq<u8>)
    requires Inv(base, cap, s) && a in s.h.live
    requires var x := s.h.live[a]; at + |data| <= (if x.slack.Some? then x.slack.value.0 else x.size)
    requires a + at < TWO32
    ensures var (v', e) := Write(base, s.v, a + at, data);
      e.None? && Read(base, v', a + at, |data|, ReadAccess) == Ok(data)
  {
    hide Read, Write;
    PayloadOpen(base, cap, s, a, at, |data|);
    WriteThenRead(base, s.v, a + at, data);
  }

  /** A payload byte is writable, and readable once upgraded. */
  lemma PayloadOpen(base: u32, cap: nat, s: State, a: u32, at: nat, n: nat)
    requires Inv(base, cap, s) && a in s.h.live && a + at < TWO32
    requires var x := s.h.live[a]; at + n <= (if x.slack.Some? then x.slack.value.0 else x.size)
    ensures Open(base, s.v, a + at, n, WriteAccess)
    ensures forall k | a + at - base <= k < a + at - base + n :: Allows(Upgrade(s.v.perms[k]), ReadAccess)
  {
    hide QuarantineOk;
    assert ObjectOk(base, s.z, a, s.h.live[a]);
    assert forall k | a + at - base <= k < a + at - base + n :: s.z[k].Payload?;
  }

  /** Where bytes may be written, and read afterwards, they read as they were written. */
  lemma WriteThenRead(base: u32, v: Planes, addr: u32, data: seq<u8>)
    requires Open(base, v, addr, |data|, WriteAccess)
    requires forall k | addr - base <= k < addr - base + |data| :: Allows(Upgrade(v.perms[k]), ReadAccess)
    ensures Write(base, v, addr, data).1.None? && Read(base, Write(base, v, addr, data).0, addr, |data|, ReadAccess) == Ok(data)
  {
    hide W32, WriteFrom, ReadFrom, Upgrade;
    var off := addr - base;
    WriteOpen(base, v, addr, data, 0);
    assert data[0..] == data;
    var w := Splice(v, off, data);
    SpliceAt(v, off, data);
    forall k | off <= k < off + |data| ensures Allows(w.perms[k], ReadAccess) {
      assert w.perms[off + (k - off)] == Upgrade(v.perms[off + (k - off)]);
    }
    ReadOpen(base, w, addr, |data|, 0, ReadAccess);
    forall k | 0 <= k < |data| ensures w.mem[off..off + |data|][k] == data[k] {
      assert w.mem[off + k] == data[k];
    }
  }

  /** Written bytes of a payload can be read. */
  lemma WrittenReads(base: u32, cap: nat, s: State, addr: u32, n: nat)
    requires Inv(base, cap, s) && base <= addr && addr - base + n <= |s.z|
    requires forall k | addr - base <= k < addr - base + n :: s.z[k] == Payload(true)
    ensures Read(base, s.v, addr, n, ReadAccess).Ok?
  {
    ReadOpen(base, s.v, addr, n, 0, ReadAccess);
  }

  ghost predicate Covers(base: u32, e: Event, k: nat)
  {
    match e
    case Alloc(addr, req, rounded) => addr - base <= k < addr - base + Max(rounded, req)
    case AllocX(addr, size) => addr - base <= k < addr - base + size
    case _ => false
  }

  lemma ObjectZones(base: u32, z: seq<Zone>, a: u32, x: LiveAlloc)
    requires Fits(base, |z|, a, x.size) && ObjectOk(base, z, a, x)
    ensures x.slack.Some? ==> x.slack.value.0 <= x.slack.value.1 == x.size
    ensures forall k | a - base <= k < a - base + x.size :: !z[k].Freed? && !z[k].Wild?
  {
  }

  /** Some byte of the write, from the `i`th on, is committed to byte `k`: it lands there, and no byte up to it
      faults. */
  ghost predicate Commits(base: u32, v: Planes, addr: u32, data: seq<u8>, i: nat, k: nat)
    requires v.Valid() && i <= |data|
    decreases |data| - i
  {
    i < |data| &&
    var at := Locate(base, v, W32(addr + i), |data|, WriteAccess);
    at.Ok? && (at.value == k || Commits(base, Put(v, at.value, data[i]), addr, data, i + 1, k))
  }

  /** The event is a store of the guest's that writes byte `k`. */
  ghost predicate Writes(base: u32, v: Planes, e: Event, k: nat)
    requires v.Valid()
  {
    e.Store? && Commits(base, v, e.addr, e.data, 0, k)
  }

  /** A write upgrades exactly the bytes it is committed to, and changes no other. */
  lemma {:induction false} CommitsExactly(base: u32, v: Planes, addr: u32, data: seq<u8>, i: nat, k: nat)
    requires v.Valid() && i <= |data| && k < |v.mem|
    ensures var w, hit := WriteFrom(base, v, addr, data, i).0, Commits(base, v, addr, data, i, k);
      w.perms[k] == (if hit then Upgrade(v.perms[k]) else v.perms[k]) && (!hit ==> w.mem[k] == v.mem[k])
    decreases |data| - i
  {
    hide W32, Locate;
    if i < |data| {
      var at := Locate(base, v, W32(addr + i), |data|, WriteAccess);
      if at.Ok? {
        CommitsExactly(base, Put(v, at.value, data[i]), addr, data, i + 1, k);
      }
    }
  }

  ghost predicate Lands(base: u32, addr: u32, j: nat, k: nat) { W32(addr + j) == base + k }

  /** A store with no byte at the address of byte `k` does not write it, whatever the permissions. */
  lemma {:induction false} CommitsLands(base: u32, v: Planes, addr: u32, data: seq<u8>, i: nat, k: nat)
    requires v.Valid() && i <= |data| && Commits(base, v, addr, data, i, k)
    ensures exists j | i <= j < |data| :: Lands(base, addr, j, k)
    decreases |data| - i
  {
    hide W32;
    var at := Locate(base, v, W32(addr + i), |data|, WriteAccess);
    if at.value == k {
      assert Lands(base, addr, i, k);
    } else {
      CommitsLands(base, Put(v, at.value, data[i]), addr, data, i + 1, k);
    }
  }

  /** What one event leaves of byte `k`: freed stays freed, and what was never handed out is untouched
      but for the guest's own writes to it. */
  ghost predicate Persists(base: u32, cap: nat, s: State, e: Event, k: nat)
    requires Inv(base, cap, s) && Behaved(base, s, e) && k < |s.z|
  {
    var t := Step(base, cap, s, e);
    && |t.z| == |s.z| && |t.v.perms| == |t.v.mem| == |s.z| && (s.z[k].Freed? ==> t.z[k].Freed?)
    && (s.z[k].Wild? ==> t.z[k].Wild?)
    && (s.z[k].Wild? ==> t.v.perms[k] == if Writes(base, s.v, e, k) then Upgrade(s.v.perms[k]) else s.v.perms[k])
    && (s.z[k].Wild? && !Writes(base, s.v, e, k) ==> t.v.mem[k] == s.v.mem[k])
  }

  lemma AllocPersists(base: u32, cap: nat, s: State, e: Event, k: nat)
    requires Inv(base, cap, s) && Behaved(base, s, e) && k < |s.z| && !Covers(base, e, k) && (e.Alloc? || e.AllocX?)
    ensures Persists(base, cap, s, e, k)
  {
    hide QuarantineOk, AllocWithSlack, AllocExact, HeapOk, ZoneOk, Stamp;
    if e.Alloc? {
      var off, bucket := e.addr - base, Max(e.rounded, e.req);
      AllocPlanes(base, s.v, s.h, e.addr, e.req, e.rounded);
      StampOther(s.v, off, e.req, FRESH);
      StampOther(Stamp(s.v, off, e.req, FRESH), off + e.req, bucket - e.req, NO_PERM);
    } else {
      AllocXPlanes(base, s.v, s.h, e.addr, e.size);
      StampOther(s.v, e.addr - base, e.size, FRESH);
    }
  }

  lemma LivePersists(base: u32, cap: nat, s: State, e: Event, k: nat)
    requires Inv(base, cap, s) && Behaved(base, s, e) && k < |s.z| && (e.Release? || e.Reopen?)
    ensures Persists(base, cap, s, e, k)
  {
    hide QuarantineOk, ReopenSlack, Free, ObjectOk, ZoneOk, Stamp;
    var a := s.h.live[e.addr];
    ObjectZones(base, s.z, e.addr, a);
    if e.Release? {
      ReleasePlanes(base, s.v, s.h, cap, e.addr);
      StampOther(s.v, e.addr - base, a.size, NO_PERM);
    } else {
      ReopenPlanes(base, s.v, s.h, e.addr);
      if a.slack.Some? {
        StampOther(s.v, e.addr - base + a.slack.value.0, a.slack.value.1 - a.slack.value.0, FRESH);
      }
    }
  }

  /** A freed byte stays freed, and a byte never handed out stays untouched but for the guest's own
      writes to it, until an allocation covers it. */
  lemma StepZones(base: u32, cap: nat, s: State, e: Event, k: nat)
    requires Inv(base, cap, s) && Behaved(base, s, e) && k < |s.z| && !Covers(base, e, k)
    ensures Persists(base, cap, s, e, k)
  {
    hide QuarantineOk, HeapOk, ZoneOk;
    match e {
      case Store(addr, data) =>
        hide Commits;
        StoreStep(base, s.v, addr, data, 0, s.z);
        CommitsExactly(base, s.v, addr, data, 0, k);
      case Fetch(_, _) =>
      case Alloc(_, _, _) => AllocPersists(base, cap, s, e, k);
      case AllocX(_, _) => AllocPersists(base, cap, s, e, k);
      case _ => LivePersists(base, cap, s, e, k);
    }
  }

  /** Use after free is caught, however long after the free and whatever else happened, until an
      allocation covers the byte again. */
  lemma {:induction false} UseAfterFree(base: u32, cap: nat, s: State, es: seq<Event>, k: nat)
    requires Inv(base, cap, s) && AllBehaved(base, cap, s, es) && k < |s.z| && s.z[k].Freed?
    requires forall i | 0 <= i < |es| :: !Covers(base, es[i], k)
    ensures Run(base, cap, s, es).z[k].Freed?
    decreases |es|
  {
    hide Step, Inv, Behaved, Covers;
    if es != [] {
      StepKeeps(base, cap, s, es[0]);
      StepZones(base, cap, s, es[0], k);
      UseAfterFree(base, cap, Step(base, cap, s, es[0]), es[1..], k);
    }
  }

  /** No store of the run writes byte `k`. */
  ghost predicate NeverWrites(base: u32, cap: nat, s: State, es: seq<Event>, k: nat)
    requires Inv(base, cap, s) && AllBehaved(base, cap, s, es)
    decreases |es|
  {
    es == [] || (!Writes(base, s.v, es[0], k) &&
      (StepKeeps(base, cap, s, es[0]); NeverWrites(base, cap, Step(base, cap, s, es[0]), es[1..], k)))
  }

  /** Bytes that were never handed out keep their permissions and contents over every run in which the guest's
      stores, wherever else they go, do not write them. */
  lemma {:induction false} Untouched(base: u32, cap: nat, s: State, es: seq<Event>, k: nat)
    requires Inv(base, cap, s) && AllBehaved(base, cap, s, es) && k < |s.z| && s.z[k].Wild?
    requires (forall i | 0 <= i < |es| :: !Covers(base, es[i], k)) && NeverWrites(base, cap, s, es, k)
    ensures var t := Run(base, cap, s, es);
      |t.v.perms| == |t.v.mem| == |s.z| == |s.v.perms| == |s.v.mem| && t.z[k].Wild? &&
      t.v.perms[k] == s.v.perms[k] && t.v.mem[k] == s.v.mem[k]
    decreases |es|
  {
    hide Step, Inv, Behaved, Covers, Writes;
    PlanesWhole(base, cap, s);
    if es != [] {
      StepKeeps(base, cap, s, es[0]);
      StepZones(base, cap, s, es[0], k);
      Untouched(base, cap, Step(base, cap, s, es[0]), es[1..], k);
    }
  }

  lemma PlanesWhole(base: u32, cap: nat, s: State)
    requires Inv(base, cap, s)
    ensures |s.v.perms| == |s.v.mem| == |s.z|
  {
  }

  /** In particular when none of their spans contains the byte's address. */
  lemma {:induction false} SpansMiss(base: u32, cap: nat, s: State, es: seq<Event>, k: nat)
    requires Inv(base, cap, s) && AllBehaved(base, cap, s, es)
    requires forall i | 0 <= i < |es| && es[i].Store? :: forall j | 0 <= j < |es[i].data| :: !Lands(base, es[i].addr, j, k)
    ensures NeverWrites(base, cap, s, es, k)
    decreases |es|
  {
    hide Step, Inv, Behaved, Commits, Lands;
    PlanesWhole(base, cap, s);
    if es != [] {
      StepKeeps(base, cap, s, es[0]);
      if Writes(base, s.v, es[0], k) {
        CommitsLands(base, s.v, es[0].addr, es[0].data, 0, k);
      }
      SpansMiss(base, cap, Step(base, cap, s, es[0]), es[1..], k);
    }
  }

  /** Freeing an object makes every byte of its bucket a freed one. */
  lemma FreedAll(base: u32, cap: nat, s: State, a: u32, k: nat)
    requires Inv(base, cap, s) && a in s.h.live && s.h.live[a].freePoisons && k < s.h.live[a].size
    ensures var t := Step(base, cap, s, Release(a)); t.z[a - base + k].Freed? && a !in t.h.live
  {
    hide ProtectFrom, Remember;
    assert ObjectOk(base, s.z, a, s.h.live[a]);
    InBoundsOf(base, s.v, a, s.h.live[a].size);
    ProtectInBounds(base, s.v, a, s.h.live[a].size, NO_PERM, 0);
    RememberLive(s.h.(live := s.h.live - {a}), cap, a, s.h.live[a]);
  }

  /** What makes a written byte unwritten: an allocation over it, the poisoning free of its object, or the
      reopening of the slack it lies in. */
  ghost predicate Forgets(base: u32, s: State, e: Event, k: nat)
    requires Behaved(base, s, e)
  {
    match e
    case Release(a) => s.h.live[a].freePoisons && a - base <= k < a - base + s.h.live[a].size
    case Reopen(a) =>
      s.h.live[a].slack.Some? && a - base + s.h.live[a].slack.value.0 <= k < a - base + s.h.live[a].slack.value.1
    case _ => Covers(base, e, k)
  }

  /** A written byte stays written through an event iff the event does not forget it. */
  lemma WrittenIff(base: u32, cap: nat, s: State, e: Event, k: nat)
    requires Inv(base, cap, s) && Behaved(base, s, e) && k < |s.z| && s.z[k] == Payload(true)
    ensures var t := Step(base, cap, s, e); k < |t.z| && (t.z[k] == Payload(true) <==> !Forgets(base, s, e, k))
  {
    hide QuarantineOk, HeapOk, ZoneOk, AllocWithSlack, AllocExact, Free, ReopenSlack;
    match e {
      case Store(addr, data) => StoreStep(base, s.v, addr, data, 0, s.z);
      case Release(a) => LiveZones(base, cap, s, a);
      case Reopen(a) => LiveZones(base, cap, s, a);
      case _ =>
    }
  }

  lemma LiveZones(base: u32, cap: nat, s: State, a: u32)
    requires Inv(base, cap, s) && a in s.h.live
    ensures var x := s.h.live[a]; Fits(base, |s.z|, a, x.size) && (x.slack.Some? ==> x.slack.value.0 <= x.slack.value.1 == x.size)
  {
    ObjectZones(base, s.z, a, s.h.live[a]);
  }

  ghost predicate NeverForgets(base: u32, cap: nat, s: State, es: seq<Event>, k: nat)
    requires Inv(base, cap, s) && AllBehaved(base, cap, s, es)
    decreases |es|
  {
    es == [] || (!Forgets(base, s, es[0], k) &&
      (StepKeeps(base, cap, s, es[0]); NeverForgets(base, cap, Step(base, cap, s, es[0]), es[1..], k)))
  }

  /** Over every run: a written byte reads without a fault for as long as nothing forgets it. */
  lemma {:induction false} WrittenLasts(base: u32, cap: nat, s: State, es: seq<Event>, k: nat)
    requires Inv(base, cap, s) && AllBehaved(base, cap, s, es) && k < |s.z| && s.z[k] == Payload(true)
    requires NeverForgets(base, cap, s, es, k)
    ensures var t := Run(base, cap, s, es); t.z[k] == Payload(true) && base + k < TWO32 && Read(base, t.v, base + k, 1, ReadAccess).Ok?
    decreases |es|
  {
    hide Step, Inv, Behaved, Forgets;
    if es == [] {
      InWindow(base, cap, s, k);
      WrittenReads(base, cap, s, base + k, 1);
    } else {
      StepKeeps(base, cap, s, es[0]);
      WrittenIff(base, cap, s, es[0], k);
      WrittenLasts(base, cap, Step(base, cap, s, es[0]), es[1..], k);
    }
  }

  lemma InWindow(base: u32, cap: nat, s: State, k: nat)
    requires Inv(base, cap, s) && k < |s.z|
    ensures base + k < TWO32
  {
  }

  /** Reopening slack a second time makes what was written there unreadable again. */
  lemma ReopenForgets(base: u32, cap: nat, s: State, a: u32, k: nat)
    requires Inv(base, cap, s) && a in s.h.live && s.h.live[a].slack.Some?
    requires var (req, bucket) := s.h.live[a].slack.value; req <= k < bucket
    ensures a + k < TWO32 && Read(base, Step(base, cap, s, Reopen(a)).v, a + k, 1, ReadAccess).Err?
  {
    hide Inv, Step, Read;
    Spans(base, cap, s, a);
    ReopenStep(base, cap, s, a);
    ReopenedZone(base, cap, s, a, k);
    UnwrittenPerm(base, cap, Step(base, cap, s, Reopen(a)), a - base + k);
    FreshDenied(base, Step(base, cap, s, Reopen(a)).v, a + k);
  }

  lemma Spans(base: u32, cap: nat, s: State, a: u32)
    requires Inv(base, cap, s) && a in s.h.live
    ensures Fits(base, |s.z|, a, s.h.live[a].size) && ObjectOk(base, s.z, a, s.h.live[a])
  {
  }

  lemma ReopenedZone(base: u32, cap: nat, s: State, a: u32, k: nat)
    requires Inv(base, cap, s) && a in s.h.live && s.h.live[a].slack.Some?
    requires var (req, bucket) := s.h.live[a].slack.value; req <= k < bucket
    ensures base <= a && a - base + k < |s.z| == |Step(base, cap, s, Reopen(a)).z|
    ensures Step(base, cap, s, Reopen(a)).z[a - base + k] == Payload(false)
  {
    hide QuarantineOk, ReopenSlack;
    assert ObjectOk(base, s.z, a, s.h.live[a]);
  }

  lemma UnwrittenPerm(base: u32, cap: nat, s: State, k: nat)
    requires Inv(base, cap, s) && k < |s.z| && s.z[k] == Payload(false)
    ensures s.v.Valid() && Window(base, |s.v.mem|) && |s.v.mem| == |s.z| && s.v.perms[k] == FRESH
  {
    hide QuarantineOk, HeapOk;
  }

  lemma FreshDenied(base: u32, v: Planes, addr: u32)
    requires v.Valid() && Window(base, |v.mem|) && base <= addr && addr - base < |v.mem| && v.perms[addr - base] == FRESH
    ensures Read(base, v, addr, 1, ReadAccess).Err?
  {
    assert W32(addr + 0) == addr;
  }
}
