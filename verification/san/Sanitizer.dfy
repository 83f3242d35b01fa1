/** The sanitizer object, updated in place over a soft-MMU (crates/fs-san/src/alloc.rs). */
module HeapSanitizer {
  import opened Words
  import opened GuestMemory
  import opened FlatMmu
  import opened Policy

  class Sanitizer {
    const cap: nat
    var live: map<u32, LiveAlloc>
    var order: seq<u32>
    var quarantined: map<u32, LiveAlloc>

    constructor (cap: nat)
      ensures this.cap == cap && Contents() == Heap(map[], [], map[])
    {
      this.cap := cap;
      live, order, quarantined := map[], [], map[];
    }

    ghost function Contents(): Heap
      reads this
    {
      Heap(live, order, quarantined)
    }

    function LiveSize(addr: u32): Option<nat>
      reads this
    {
      if addr in live then Some(live[addr].size) else None
    }

    method EvictQuarantine(addr: u32)
      modifies `order, `quarantined
      ensures Contents() == Evict(old(Contents()), addr)
    {
      if addr in quarantined {
        quarantined := quarantined - {addr};
        order := Without(order, addr);
      }
    }

    method AllocWithSlack(m: Mmu, addr: u32, req: nat, rounded: nat) returns (e: Option<SanError>)
      requires m.Valid()
      modifies this, m.perms
      ensures Outcome(m.View(), Contents(), e) == Policy.AllocWithSlack(m.base, old(m.View()), old(Contents()), addr, req, rounded)
    {
      hide ProtectFrom;
      if addr in live { return Some(DoubleAlloc(addr)); }
      var bucket := Max(rounded, req);
      var f := m.Protect(addr, req, FRESH);
      if f.Some? { return Some(MmuFault(f.value)); }
      if bucket != req && addr + req < TWO32 && Inside(m.base, m.mem.Length, addr + req, bucket - req) {
        f := m.Protect(addr + req, bucket - req, NO_PERM);
        if f.Some? { return Some(MmuFault(f.value)); }
      }
      EvictQuarantine(addr);
      live := live[addr := LiveAlloc(bucket, Some((req, bucket)), true)];
      e := None;
    }

    method AllocExactNoUafGuard(m: Mmu, addr: u32, size: nat) returns (e: Option<SanError>)
      requires m.Valid()
      modifies this, m.perms
      ensures Outcome(m.View(), Contents(), e) == AllocExact(m.base, old(m.View()), old(Contents()), addr, size)
    {
      hide ProtectFrom;
      if addr in live { return Some(DoubleAlloc(addr)); }
      var f := m.Protect(addr, size, FRESH);
      if f.Some? { return Some(MmuFault(f.value)); }
      EvictQuarantine(addr);
      live := live[addr := LiveAlloc(size, None, false)];
      e := None;
    }

    method ReopenSlack(m: Mmu, addr: u32) returns (e: Option<SanError>)
      requires m.Valid()
      modifies m.perms
      ensures Outcome(m.View(), Contents(), e) == Policy.ReopenSlack(m.base, old(m.View()), old(Contents()), addr)
    {
      hide ProtectFrom;
      if addr !in live { return Some(UnknownPointer(addr)); }
      if live[addr].slack.None? { return None; }
      var (req, bucket) := live[addr].slack.value;
      if bucket <= req || addr + req >= TWO32 { return None; }
      var f := m.Protect(addr + req, bucket - req, FRESH);
      e := if f.Some? then Some(MmuFault(f.value)) else None;
    }

    method Free(m: Mmu, addr: u32) returns (e: Option<SanError>)
      requires m.Valid()
      modifies this, m.perms
      ensures Outcome(m.View(), Contents(), e) == Policy.Free(m.base, old(m.View()), old(Contents()), cap, addr)
    {
      hide ProtectFrom;
      if addr !in live { return Some(InvalidFree(addr)); }
      var a := live[addr];
      live := live - {addr};
      if !a.freePoisons { return None; }
      var f := m.Protect(addr, a.size, NO_PERM);
      if f.Some? { return Some(MmuFault(f.value)); }
      if |order| >= cap && order != [] {
        quarantined := quarantined - {order[0]};
        order := order[1..];
      }
      order := order + [addr];
      quarantined := quarantined[addr := a];
      e := None;
    }
  }
}
