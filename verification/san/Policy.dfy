/** The heap sanitizer's policy (crates/fs-san/src/alloc.rs) as functions over permission planes and
    bookkeeping. */
module Policy {
  import opened Words
  import opened GuestMemory

  /** Writable, and unreadable until written. */
  const FRESH := Perm(false, true, false, true, false, false)
  const OPEN := Perm(true, true, false, false, false, false)

  datatype LiveAlloc = LiveAlloc(size: nat, slack: Option<(nat, nat)>, freePoisons: bool)

  datatype SanError = DoubleAlloc(addr: u32) | InvalidFree(addr: u32) | UnknownPointer(addr: u32) | MmuFault(f: Fault)

  /** What is live, and the freed addresses still remembered, oldest first. */
  datatype Heap = Heap(live: map<u32, LiveAlloc>, order: seq<u32>, quarantined: map<u32, LiveAlloc>)

  /** The result of a policy operation on planes and bookkeeping. */
  datatype Outcome = Outcome(v: Planes, h: Heap, e: Option<SanError>)

  function Max(a: nat, b: nat): nat { if a < b then b else a }

  function Without(order: seq<u32>, addr: u32): seq<u32>
  {
    if order == [] then []
    else (if order[0] == addr then [] else [order[0]]) + Without(order[1..], addr)
  }

  function Evict(h: Heap, addr: u32): Heap
  {
    if addr in h.quarantined then h.(quarantined := h.quarantined - {addr}, order := Without(h.order, addr)) else h
  }

  /** `Mmu::in_bounds`, for the non-empty spans it is asked about here. */
  predicate Inside(base: u32, size: nat, addr: u32, len: nat)
    requires len > 0
  {
    Offset(base, size, addr).Some? && addr + len - 1 < TWO32 && Offset(base, size, addr + len - 1).Some?
  }

  /** Poison the rounding slack, best effort: skipped where it would leave the window. */
  function PoisonSlack(base: u32, v: Planes, addr: u32, req: nat, bucket: nat): (r: (Planes, Option<Fault>))
    requires v.Valid() && req <= bucket
    ensures r.0.Valid() && |r.0.mem| == |v.mem|
  {
    if bucket == req || addr + req >= TWO32 || !Inside(base, |v.mem|, addr + req, bucket - req) then (v, None)
    else ProtectFrom(base, v, addr + req, bucket - req, NO_PERM, 0)
  }

  function AllocWithSlack(base: u32, v: Planes, h: Heap, addr: u32, req: nat, rounded: nat): (o: Outcome)
    requires v.Valid()
    ensures o.v.Valid() && |o.v.mem| == |v.mem|
  {
    if addr in h.live then Outcome(v, h, Some(DoubleAlloc(addr)))
    else
      var bucket := Max(rounded, req);
      var (v1, e1) := ProtectFrom(base, v, addr, req, FRESH, 0);
      if e1.Some? then Outcome(v1, h, Some(MmuFault(e1.value)))
      else
        var (v2, e2) := PoisonSlack(base, v1, addr, req, bucket);
        if e2.Some? then Outcome(v2, h, Some(MmuFault(e2.value)))
        else
          var h' := Evict(h, addr);
          Outcome(v2, h'.(live := h'.live[addr := LiveAlloc(bucket, Some((req, bucket)), true)]), None)
  }

  function AllocExact(base: u32, v: Planes, h: Heap, addr: u32, size: nat): (o: Outcome)
    requires v.Valid()
    ensures o.v.Valid() && |o.v.mem| == |v.mem|
  {
    if addr in h.live then Outcome(v, h, Some(DoubleAlloc(addr)))
    else
      var (v1, e1) := ProtectFrom(base, v, addr, size, FRESH, 0);
      if e1.Some? then Outcome(v1, h, Some(MmuFault(e1.value)))
      else
        var h' := Evict(h, addr);
        Outcome(v1, h'.(live := h'.live[addr := LiveAlloc(size, None, false)]), None)
  }

  /** The slack of a live allocation becomes writable, and raw again. */
  function ReopenSlack(base: u32, v: Planes, h: Heap, addr: u32): (o: Outcome)
    requires v.Valid()
    ensures o.v.Valid() && |o.v.mem| == |v.mem|
  {
    if addr !in h.live then Outcome(v, h, Some(UnknownPointer(addr)))
    else
      match h.live[addr].slack
      case None => Outcome(v, h, None)
      case Some((req, bucket)) =>
        if bucket <= req || addr + req >= TWO32 then Outcome(v, h, None)
        else
          var (v1, e) := ProtectFrom(base, v, addr + req, bucket - req, FRESH, 0);
          Outcome(v1, h, if e.Some? then Some(MmuFault(e.value)) else None)
  }

  /** Remember a freed address, forgetting the oldest once the list is full. */
  function Remember(h: Heap, cap: nat, addr: u32, a: LiveAlloc): Heap
  {
    var full := |h.order| >= cap && h.order != [];
    var order := if full then h.order[1..] else h.order;
    var q := if full then h.quarantined - {h.order[0]} else h.quarantined;
    h.(order := order + [addr], quarantined := q[addr := a])
  }

  function Free(base: u32, v: Planes, h: Heap, cap: nat, addr: u32): (o: Outcome)
    requires v.Valid()
    ensures o.v.Valid() && |o.v.mem| == |v.mem|
  {
    if addr !in h.live then Outcome(v, h, Some(InvalidFree(addr)))
    else
      var a := h.live[addr];
      var h' := h.(live := h.live - {addr});
      if !a.freePoisons then Outcome(v, h', None)
      else
        var (v1, e) := ProtectFrom(base, v, addr, a.size, NO_PERM, 0);
        if e.Some? then Outcome(v1, h', Some(MmuFault(e.value))) else Outcome(v1, Remember(h', cap, addr, a), None)
  }

  // ----- the quarantine, over any operations -----

  ghost predicate QuarantineOk(h: Heap, cap: nat)
  {
    && (forall i, j | 0 <= i < j < |h.order| :: h.order[i] != h.order[j])
    && (forall a :: a in h.order <==> a in h.quarantined)
    && (forall a | a in h.live :: a !in h.quarantined)
    && |h.order| <= Max(cap, 1)
  }

  lemma {:induction false} WithoutKeeps(order: seq<u32>, addr: u32)
    requires forall i, j | 0 <= i < j < |order| :: order[i] != order[j]
    ensures var r := Without(order, addr);
      && (forall i, j | 0 <= i < j < |r| :: r[i] != r[j]) && (forall a :: a in r <==> a in order && a != addr) && |r| <= |order|
  {
    if order != [] {
      WithoutKeeps(order[1..], addr);
      var rest := Without(order[1..], addr);
      assert order == [order[0]] + order[1..] && order[0] !in order[1..];
      assert forall a :: a in rest <==> a in order[1..] && a != addr;
      if order[0] == addr {
        assert Without(order, addr) == rest;
      } else {
        assert Without(order, addr) == [order[0]] + rest && order[0] !in rest;
      }
    }
  }

  /** Taking an address out of the queue leaves the others in their order. */
  lemma {:induction false} WithoutOrder(order: seq<u32>, addr: u32, i: nat)
    requires forall x, y | 0 <= x < y < |order| :: order[x] != order[y]
    ensures addr !in order ==> Without(order, addr) == order
    ensures i < |order| && order[i] == addr ==> Without(order, addr) == order[..i] + order[i + 1..]
  {
    if order != [] {
      var rest := order[1..];
      assert order == [order[0]] + rest;
      if i > 0 {
        WithoutOrder(rest, addr, i - 1);
        assert i < |order| ==> order[..i] == [order[0]] + rest[..i - 1] && order[i + 1..] == rest[i..];
      } else {
        WithoutOrder(rest, addr, |rest|);
      }
    }
  }

  lemma EvictKeeps(h: Heap, cap: nat, addr: u32, a: LiveAlloc)
    requires QuarantineOk(h, cap)
    ensures var e := Evict(h, addr); e.live == h.live && QuarantineOk(e.(live := e.live[addr := a]), cap)
  {
    hide Without;
    WithoutKeeps(h.order, addr);
  }

  /** Each operation keeps the list duplicate-free, equal to the map's keys, disjoint from what is live
      and within its bound, whatever it is given and whether or not it fails. */
  lemma QuarantineKept(base: u32, v: Planes, h: Heap, cap: nat, addr: u32, n: nat, rounded: nat)
    requires v.Valid() && QuarantineOk(h, cap)
    ensures QuarantineOk(AllocWithSlack(base, v, h, addr, n, rounded).h, cap)
    ensures QuarantineOk(AllocExact(base, v, h, addr, n).h, cap)
    ensures QuarantineOk(ReopenSlack(base, v, h, addr).h, cap)
    ensures QuarantineOk(Free(base, v, h, cap, addr).h, cap)
  {
    hide ProtectFrom, PoisonSlack, Evict, Remember, QuarantineOk;
    EvictKeeps(h, cap, addr, LiveAlloc(Max(rounded, n), Some((n, Max(rounded, n))), true));
    EvictKeeps(h, cap, addr, LiveAlloc(n, None, false));
    if addr in h.live {
      Unlive(h, cap, addr);
      RememberKeeps(h.(live := h.live - {addr}), cap, addr, h.live[addr]);
    }
  }

  lemma Unlive(h: Heap, cap: nat, addr: u32)
    requires QuarantineOk(h, cap) && addr in h.live
    ensures QuarantineOk(h.(live := h.live - {addr}), cap) && addr !in h.quarantined
  {
  }

  lemma RememberKeeps(h: Heap, cap: nat, addr: u32, a: LiveAlloc)
    requires QuarantineOk(h, cap) && addr !in h.live && addr !in h.quarantined
    ensures QuarantineOk(Remember(h, cap, addr, a), cap)
  {
    if |h.order| >= cap && h.order != [] {
      DropOldest(h, cap);
      Append(h.(order := h.order[1..], quarantined := h.quarantined - {h.order[0]}), cap, addr, a);
    } else {
      Append(h, cap, addr, a);
    }
  }

  lemma DropOldest(h: Heap, cap: nat)
    requires QuarantineOk(h, cap) && h.order != []
    ensures QuarantineOk(h.(order := h.order[1..], quarantined := h.quarantined - {h.order[0]}), cap)
  {
    assert h.order == [h.order[0]] + h.order[1..];
  }

  lemma Append(h: Heap, cap: nat, addr: u32, a: LiveAlloc)
    requires QuarantineOk(h, cap) && addr !in h.live && addr !in h.quarantined && |h.order| < Max(cap, 1)
    ensures QuarantineOk(h.(order := h.order + [addr], quarantined := h.quarantined[addr := a]), cap)
  {
  }
}
