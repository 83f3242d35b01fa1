/** What a poll sees and what the interrupt registers hold (crates/fs-platform/src/lib.rs and
    crates/fs-riscv/src/lib.rs). */
module Polling {
  import opened Words
  import opened Rv32
  import opened System

  /** A driver iteration sees the retired count as the time, a machine timer interrupt iff the compare value
      has been reached, a supervisor one likewise, and the software bit. Nothing else of the hart changes but
      the diagnostics. */
  lemma ViewMeans<R>(c: Cpu<World<R>>)
    ensures var v := View(c);
      && v.world.clint == c.world.clint.(mtime := c.retired) && v.world.csr.mtimecmp == c.world.clint.mtimecmp
      && (v.world.csr.mtip <==> c.world.clint.mtimecmp <= c.retired)
      && (v.world.csr.stip <==> c.world.csr.stimecmp <= c.retired)
      && (v.world.csr.msip <==> c.world.clint.msip % 2 == 1)
      && v.world.csr.stimecmp == c.world.csr.stimecmp && v.world.ram == c.world.ram
      && v.regs == c.regs && v.pc == c.pc && v.retired == c.retired && v.htif == c.htif
  {
  }

  /** The compare register takes its two words one at a time, and the words read back. */
  lemma CompareWords(k: Clint, lo: u32, hi: u32)
    ensures var a := ClintStore(k, MTIMECMP, lo);
      var b := ClintStore(a, MTIMECMP + 4, hi);
      && b.mtimecmp == hi * 0x1_0000_0000 + lo && b.msip == k.msip && b.mtime == k.mtime
      && ClintStore(ClintStore(k, MTIMECMP + 4, hi), MTIMECMP, lo) == b
      && ClintLoad(b, MTIMECMP) == lo && ClintLoad(b, MTIMECMP + 4) == hi
      && a.mtimecmp % 0x1_0000_0000 == lo && a.mtimecmp / 0x1_0000_0000 == k.mtimecmp / 0x1_0000_0000
  {
    hide W32, W64;
    var h, l := k.mtimecmp / TWO32, k.mtimecmp % TWO32;
    TwoWords(h, lo);
    TwoWords(hi, l);
    TwoWords(hi, lo);
  }

  lemma TwoWords(hi: u32, lo: u32)
    ensures W64(hi * TWO32 + lo) == W64(lo + hi * TWO32) == hi * TWO32 + lo
    ensures (hi * TWO32 + lo) / TWO32 == hi && (hi * TWO32 + lo) % TWO32 == lo && W32(hi * TWO32 + lo) == lo && W32(hi) == hi
  {
    RemIs(hi * TWO32 + lo, TWO32, hi, lo);
  }

  /** The software bit is the lowest of what is written; the time cannot be written; what is neither is ignored. */
  lemma OtherRegisters(k: Clint, off: u32, v: u32)
    ensures ClintLoad(ClintStore(k, MSIP, v), MSIP) == v % 2 && ClintStore(k, MSIP, v) == k.(msip := v % 2)
    ensures off != MSIP && off != MTIMECMP && off != MTIMECMP + 4 ==> ClintStore(k, off, v) == k
    ensures ClintLoad(k, MTIME) == k.mtime % 0x1_0000_0000 && ClintLoad(k, MTIME + 4) == k.mtime / 0x1_0000_0000
  {
  }

  /** The device answers exactly in its window; elsewhere the memory does. */
  lemma RouteMeans<R>(ram: Bus<R>, w: World<R>, a: u32, n: nat, v: u32)
    ensures 0x0200_0000 <= a < 0x0201_0000 ==>
      && Route(ram, w, a, n) == (w, Ok(ClintLoad(w.clint, a - 0x0200_0000)))
      && RouteStore(ram, w, a, n, v) == (w.(clint := ClintStore(w.clint, a - 0x0200_0000, v)), None)
    ensures !(0x0200_0000 <= a < 0x0201_0000) ==>
      && Route(ram, w, a, n) == (w.(ram := ram.load(w.ram, a, n).0), ram.load(w.ram, a, n).1)
      && RouteStore(ram, w, a, n, v) == (w.(ram := ram.store(w.ram, a, n, v).0), ram.store(w.ram, a, n, v).1)
  {
  }
}
