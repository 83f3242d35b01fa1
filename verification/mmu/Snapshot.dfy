/** The whole-machine snapshot (crates/fs-platform/src/lib.rs): RAM planes, hart, CLINT and the length of
    the console output, captured once and restored in time proportional to what was dirtied. */
module Snapshots {
  import opened Words
  import opened GuestMemory
  import opened FlatMmu
  import opened Runs
  import opened Lockstep

  /** A hart and a machine; what a hart and a CLINT hold does not matter here. */
  class Board<C, K> {
    const ram: Mmu
    var cpu: C
    var clint: K
    var uart: seq<u8>

    constructor (ram: Mmu, cpu: C, clint: K)
      ensures this.ram == ram && this.cpu == cpu && this.clint == clint && uart == []
    {
      this.ram, this.cpu, this.clint, uart := ram, cpu, clint, [];
    }
  }

  class Snapshot<C, K> {
    const golden: Planes
    const cpu: C
    const clint: K
    const uartLen: nat

    /** Capture, and switch RAM into dirty tracking. */
    constructor Capture(b: Board<C, K>)
      requires b.ram.Valid()
      modifies b.ram
      ensures golden == old(b.ram.View()) && cpu == b.cpu && clint == b.clint && uartLen == |b.uart|
      ensures b.ram.Valid() && b.ram.track && b.ram.dirty == [] && b.ram.View() == golden
      ensures Clean(b.ram.View(), b.ram.dirty, golden)
    {
      golden := Planes(b.ram.mem[..], b.ram.perms[..]);
      cpu, clint, uartLen := b.cpu, b.clint, |b.uart|;
      new;
      b.ram.EnableDirtyTracking();
    }

    /** Restoring is exact if and only if no block has changed unlisted. */
    method Reset(b: Board<C, K>)
      requires b.ram.Valid() && b.ram.track && golden.Valid() && |golden.mem| == b.ram.mem.Length
      modifies b, b.ram`dirty, b.ram`bitmap, b.ram.mem, b.ram.perms
      ensures b.ram.Valid() && b.ram.track && b.ram.dirty == []
      ensures b.cpu == cpu && b.clint == clint && b.uart == if |old(b.uart)| < uartLen then old(b.uart) else old(b.uart)[..uartLen]
      ensures b.ram.View() == golden <==> old(Clean(b.ram.View(), b.ram.dirty, golden))
    {
      RestoreExact(b.ram.View(), b.ram.dirty, golden);
      b.ram.ResetDirty(golden);
      b.cpu, b.clint := cpu, clint;
      if uartLen < |b.uart| {
        b.uart := b.uart[..uartLen];
      }
    }
  }

  /** A case between two resets, from a captured state: whatever the guest wrote, through whichever path and
      however far before faulting, the board comes back as it was; its RAM exactly if the taint left in unlisted
      blocks is golden's. */
  method Case<C, K>(s: Snapshot<C, K>, b: Board<C, K>, ops: seq<Op>, cpu: C, clint: K, printed: seq<u8>) returns (ans: seq<Answer>)
    requires b.ram.Valid() && b.ram.track && s.golden.Valid() && |s.golden.mem| == b.ram.mem.Length
    requires b.ram.View() == s.golden && b.ram.dirty == []
    requires b.cpu == s.cpu && b.clint == s.clint && |b.uart| == s.uartLen
    requires WellSized(ops) && GoldenResets(b.ram.base, s.golden, Tracked(s.golden, []), ops)
    modifies b, b.ram`dirty, b.ram`bitmap, b.ram.mem, b.ram.perms
    ensures b.ram.Valid() && b.ram.track && b.ram.dirty == []
    ensures b.ram.View() == s.golden <==>
      TaintGolden(b.ram.base, s.golden, TrackedRun(b.ram.base, s.golden, Tracked(s.golden, []), ops).0.d, ops)
    ensures b.cpu == old(b.cpu) && b.clint == old(b.clint) && b.uart == old(b.uart)
    ensures ans == Run(b.ram.base, s.golden, s.golden, ops).1
  {
    hide Clean, Run, TrackedRun, Mmu.Exact, GoldenResets, TaintGolden, WellSized;
    GoldenIsClean(s.golden);
    ans := RunFlat(b.ram, s.golden, ops);
    b.cpu, b.clint, b.uart := cpu, clint, b.uart + printed;
    s.Reset(b);
  }
}
