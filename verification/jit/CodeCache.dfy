/** The two code caches (crates/fs-jit/src/lib.rs, chain.rs) and the arena compiled code lives in
    (crates/fs-jit/src/sys.rs). Both tables are direct-mapped and tagged by physical address, so a
    collision can only cost a recompile: what a tagged slot answers is what a fresh decode gives. */
module CodeCache {
  import opened Words
  import opened Rv32
  import opened Decoding
  import opened Flat
  import opened ChainProof
  import X86
  import ChainBytes
  import Codegen

  const EMPTY: u32 := 0xffff_ffff

  const MAX_RUN_LEN: nat := 64

  datatype CachedInsn = CachedInsn(tag: u32, d: Fetched)

  /** The entry is the fresh decode of every address that its tag is the translation of, and was read from
      pages that never change. */
  ghost predicate Holds(c: Code, e: CachedInsn)
  {
    c.golden(e.tag / PAGE) && forall va: u32 | c.xlate(va) == Ok(e.tag) :: Fresh(c, va) == Ok(e.d) && Stable(c, va, e)
  }

  ghost predicate Stable(c: Code, va: u32, e: CachedInsn)
  {
    var hi := c.Next(va, 2);
    e.d.ilen == 4 && hi.Some? && hi.value / PAGE != e.tag / PAGE ==> c.golden(hi.value / PAGE)
  }

  predicate RunEnds(c: Code, i: Inst) { IsTerminal(i) || (i.Other? && c.ends(i.kind)) }

  lemma HoldsFresh(c: Code, va: u32, pa: u32, f: Fetched)
    requires c.Coherent() && c.xlate(va) == Ok(pa) && FreshAt(c, va, pa) == Ok(f)
    requires c.golden(pa / PAGE) && Trusted(c, ExtraPage(c, va, pa / PAGE, f))
    ensures Holds(c, CachedInsn(pa, f))
  {
    hide FreshAt, LinkAt;
    forall w: u32 | c.xlate(w) == Ok(pa) ensures Fresh(c, w) == Ok(f) && Stable(c, w, CachedInsn(pa, f)) {
      LinkAlias(c, va, w, pa, 0);
    }
  }

  lemma EvenNext(c: Code, va: u32, pa: u32)
    requires c.Coherent() && va % 2 == 0 && FreshAt(c, va, pa).Ok?
    ensures var w := W32(va + FreshAt(c, va, pa).value.ilen);
      w % 2 == 0 && (c.xlate(w).Ok? ==> c.xlate(w).value % 2 == 0)
  {
  }

  class BlockCache {
    const slots: array<CachedInsn>
    var hits: nat
    var misses: nat

    ghost predicate Valid(c: Code)
      reads slots
    {
      slots.Length > 0 && forall i :: 0 <= i < slots.Length && slots[i].tag != EMPTY ==> Holds(c, slots[i])
    }

    constructor (c: Code, capacity: nat)
      requires capacity > 0
      ensures Valid(c) && fresh(slots) && hits == misses == 0
    {
      var empty := CachedInsn(EMPTY, Fetched(Fence, 0, 0));
      slots := new CachedInsn[capacity](_ => empty);
      hits, misses := 0, 0;
    }

    function Slot(pa: u32): nat
      requires slots.Length > 0
    {
      (pa / 2) % slots.Length
    }

    /** Whatever was hit, missed or evicted before, the answer is the interpreter's own fetch. */
    method Fetch(c: Code, pc: u32) returns (r: Result<Fetched, Trap>)
      requires c.Coherent() && Valid(c) && pc % 2 == 0
      modifies this, slots
      ensures Valid(c) && r == Fresh(c, pc)
      ensures hits + misses == old(hits + misses) + if c.xlate(pc).Ok? then 1 else 0
    {
      hide FreshAt;
      var t := c.xlate(pc);
      if t.Err? {
        return Err(t.error);
      }
      var cached := slots[Slot(t.value)];
      if cached.tag == t.value {
        hits := hits + 1;
        return Ok(cached.d);
      }
      misses := misses + 1;
      r := CompileRun(c, pc, t.value);
    }

    /** A fault is reported only for the first instruction; later ones are look-ahead. */
    method CompileRun(c: Code, va0: u32, pa0: u32) returns (r: Result<Fetched, Trap>)
      requires c.Coherent() && Valid(c) && va0 % 2 == 0 && c.xlate(va0) == Ok(pa0)
      modifies slots
      ensures Valid(c) && r == FreshAt(c, va0, pa0)
    {
      hide FreshAt, Fresh, ExtraPage, Trusted, W32, Holds, RunEnds, Code.Coherent;
      var page := pa0 / PAGE;
      var va: u32, pa: u32, first: Option<Fetched> := va0, pa0, None;
      for i := 0 to MAX_RUN_LEN
        invariant Valid(c) && va % 2 == 0 && c.xlate(va) == Ok(pa) && pa / PAGE == page
        invariant if i == 0 then first.None? && va == va0 && pa == pa0 else first.Some?
        invariant first.Some? ==> FreshAt(c, va0, pa0) == Ok(first.value)
      {
        var got := FreshAt(c, va, pa);
        if got.Err? {
          if first.None? { return got; }
          break;
        }
        var f := got.value;
        EvenNext(c, va, pa);
        if c.golden(page) && Trusted(c, ExtraPage(c, va, page, f)) {
          HoldsFresh(c, va, pa, f);
          slots[Slot(pa)] := CachedInsn(pa, f);
        }
        if first.None? { first := Some(f); }
        if RunEnds(c, f.inst) { break; }
        var next := c.xlate(W32(va + f.ilen));
        if next.Err? || next.value / PAGE != page { break; }
        va, pa := W32(va + f.ilen), next.value;
      }
      r := Ok(first.value);
    }
  }

  /** A bump allocator over one fixed block of memory; nothing is ever moved or freed. */
  class Arena {
    const mem: array<u8>
    var len: nat

    ghost predicate Valid()
      reads this
    {
      len <= mem.Length
    }

    ghost function Contents(): seq<u8>
      requires Valid()
      reads this, mem
    {
      mem[..len]
    }

    constructor (capacity: nat)
      ensures Valid() && fresh(mem) && mem.Length == capacity && Contents() == []
    {
      mem := new u8[capacity];
      len := 0;
    }

    method Write(code: seq<u8>) returns (off: Option<nat>)
      requires Valid()
      modifies this, mem
      ensures Valid()
      ensures off == if old(len) + |code| <= mem.Length then Some(old(len)) else None
      ensures Contents() == old(Contents()) + if off.Some? then code else []
    {
      if |code| > mem.Length - len {
        return None;
      }
      off := Some(len);
      forall k | 0 <= k < |code| {
        mem[len + k] := code[k];
      }
      len := len + |code|;
    }
  }

  datatype ChainSlot = ChainSlot(tag: u32, off: nat, len: nat, terminal: Option<(u32, u32)>)

  /** One compiled chain and where its bytes start. */
  datatype Region = Region(off: nat, steps: seq<Step>)

  function TerminalOf(steps: seq<Step>): Option<(u32, u32)>
    requires steps != []
  {
    var last := steps[|steps| - 1];
    if IsTerminal(last.inst) then Some((last.offset, last.ilen)) else None
  }

  /** Every region still holds exactly its chain's bytes, and regions do not overlap. */
  ghost predicate Laid(t: X86.Target, regions: seq<Region>, bytes: seq<u8>)
  {
    && (forall k | 0 <= k < |regions| :: regions[k].steps != [])
    && (forall k | 0 <= k < |regions| :: Placed(bytes, regions[k].off, ChainBytes.ChainBytes(t, regions[k].steps)))
    && (forall j, k | 0 <= j < k < |regions| ::
          regions[j].off + |ChainBytes.ChainBytes(t, regions[j].steps)| <= regions[k].off)
  }

  lemma LaidMore(t: X86.Target, regions: seq<Region>, bytes: seq<u8>, steps: seq<Step>)
    requires Laid(t, regions, bytes) && steps != []
    ensures Laid(t, regions + [Region(|bytes|, steps)], bytes + ChainBytes.ChainBytes(t, steps))
  {
    hide ChainBytes.ChainBytes;
    var code := ChainBytes.ChainBytes(t, steps);
    var all := regions + [Region(|bytes|, steps)];
    forall k | 0 <= k < |all| ensures Placed(bytes + code, all[k].off, ChainBytes.ChainBytes(t, all[k].steps)) {
      if k < |regions| {
        assert Placed(bytes, regions[k].off, ChainBytes.ChainBytes(t, regions[k].steps));
        var o, n := regions[k].off, |ChainBytes.ChainBytes(t, regions[k].steps)|;
        assert (bytes + code)[o..o + n] == bytes[o..o + n];
      }
    }
  }

  /** A chain slot answers for its tag, on a page that never changes: a region with the fresh chain, or nothing
      because there is nothing to compile or no room was left. */
  ghost predicate SlotOk(c: Code, s: ChainSlot, home: nat, regions: seq<Region>, full: nat)
  {
    c.golden(s.tag / PAGE) &&
    if s.len == 0 then full == 0 ==> forall va: u32 | c.xlate(va) == Ok(s.tag) :: Chain(c, va, s.tag) == []
    else
      && home < |regions| && regions[home].off == s.off && |regions[home].steps| == s.len
      && TerminalOf(regions[home].steps) == s.terminal
      && forall va: u32 | c.xlate(va) == Ok(s.tag) :: Chain(c, va, s.tag) == regions[home].steps
  }

  lemma ChainForAll(c: Code, va: u32, pa: u32)
    requires c.Coherent() && c.xlate(va) == Ok(pa)
    ensures forall w: u32 | c.xlate(w) == Ok(pa) :: Chain(c, w, pa) == Chain(c, va, pa)
  {
    hide ChainFrom;
    forall w: u32 | c.xlate(w) == Ok(pa) ensures Chain(c, w, pa) == Chain(c, va, pa) {
      ChainAlias(c, w, va, pa, pa / PAGE, 0, MAX_CHAIN_LEN);
    }
  }

  class ChainCache {
    const t: X86.Target
    const interp: BlockCache
    const slots: array<ChainSlot>
    const arena: Arena
    var misses: nat
    var full: nat
    /** Every chain compiled so far, in order, and each slot's place among them. */
    ghost var regions: seq<Region>
    ghost var home: seq<nat>

    ghost predicate Valid(c: Code)
      reads this, slots, arena, arena.mem, interp.slots
    {
      && slots.Length > 0 && |home| == slots.Length && arena.Valid() && interp.Valid(c)
      && Laid(t, regions, arena.Contents())
      && forall i :: 0 <= i < slots.Length && slots[i].tag != EMPTY ==> SlotOk(c, slots[i], home[i], regions, full)
    }

    constructor (c: Code, t: X86.Target, interpCapacity: nat, capacity: nat, arenaCapacity: nat)
      requires interpCapacity > 0 && capacity > 0
      ensures Valid(c) && regions == []
    {
      this.t := t;
      var empty := ChainSlot(EMPTY, 0, 0, None);
      interp := new BlockCache(c, interpCapacity);
      slots := new ChainSlot[capacity](_ => empty);
      arena := new Arena(arenaCapacity);
      misses, full := 0, 0;
      regions, home := [], seq(capacity, _ => 0);
    }

    function Slot(pa: u32): nat
      requires slots.Length > 0
    {
      (pa / 2) % slots.Length
    }

    /** The slot names arena bytes that are the compilation of the fresh chain at `(va, pa)`. */
    ghost predicate Compiled(c: Code, va: u32, pa: u32, s: ChainSlot)
      requires arena.Valid()
      reads arena, arena.mem
    {
      var chain := Chain(c, va, pa);
      && chain != [] && s.len == |chain| && s.terminal == TerminalOf(chain)
      && Placed(arena.Contents(), s.off, ChainBytes.ChainBytes(t, chain))
    }

    /** Decode, compile and append; a full arena leaves a slot that says "nothing compiled here". */
    method Compile(c: Code, va: u32, pa: u32) returns (slot: ChainSlot, ghost place: nat)
      requires c.Coherent() && arena.Valid() && Laid(t, regions, arena.Contents()) && c.xlate(va) == Ok(pa) && c.golden(pa / PAGE)
      modifies `full, `regions, arena, arena.mem
      ensures arena.Valid() && Laid(t, regions, arena.Contents())
      ensures old(regions) <= regions && old(arena.Contents()) <= arena.Contents() && full >= old(full)
      ensures slot.tag == pa && SlotOk(c, slot, place, regions, full)
      ensures slot.len > 0 ==> Compiled(c, va, pa, slot)
    {
      hide Chain, ChainBytes.ChainBytes, Code.Coherent;
      slot, place := ChainSlot(pa, 0, 0, None), |regions|;
      var steps := DecodeChain(c, va, pa);
      ChainForAll(c, va, pa);
      if steps != [] {
        ChainValid(c, va, pa);
        var code := Codegen.Compile(t, steps);
        LaidMore(t, regions, arena.Contents(), steps);
        var off := arena.Write(code);
        match off {
          case Some(o) =>
            slot := ChainSlot(pa, o, |steps|, TerminalOf(steps));
            regions := regions + [Region(o, steps)];
          case None =>
            full := full + 1;
        }
      }
    }

    method LookupOrCompile(c: Code, va: u32, pa: u32) returns (r: Option<ChainSlot>)
      requires c.Coherent() && Valid(c) && va % 2 == 0 && c.xlate(va) == Ok(pa)
      modifies `misses, `full, `regions, `home, slots, arena, arena.mem
      ensures Valid(c)
      ensures old(regions) <= regions && old(arena.Contents()) <= arena.Contents()
      ensures r.Some? <==> c.golden(pa / PAGE)
      ensures r.None? ==> unchanged(slots) && unchanged(arena)
      ensures r.Some? ==> r.value.tag == pa && (r.value.len > 0 ==> Compiled(c, va, pa, r.value))
      ensures r.Some? && r.value.len == 0 && full == 0 ==> Chain(c, va, pa) == []
      ensures old(slots[Slot(pa)].tag) == pa ==>
        r == Some(old(slots[Slot(pa)])) && misses == old(misses) && unchanged(slots) && unchanged(arena)
    {
      hide Chain, Laid, Code.Coherent;
      Even(c, va, pa);
      var idx := Slot(pa);
      if slots[idx].tag == pa {
        SlotCompiled(c, va, slots[idx], home[idx]);
        return Some(slots[idx]);
      }
      misses := misses + 1;
      if !c.golden(pa / PAGE) {
        return None;
      }
      ghost var was, wasFull := regions, full;
      var slot, place := Compile(c, va, pa);
      forall i | 0 <= i < slots.Length && slots[i].tag != EMPTY ensures SlotOk(c, slots[i], home[i], regions, full) {
        SlotKept(c, slots[i], home[i], was, wasFull, regions, full);
      }
      slots[idx] := slot;
      home := home[idx := place];
      r := Some(slot);
    }

    lemma SlotCompiled(c: Code, va: u32, s: ChainSlot, place: nat)
      requires arena.Valid() && Laid(t, regions, arena.Contents()) && c.xlate(va) == Ok(s.tag)
      requires SlotOk(c, s, place, regions, full)
      ensures s.len > 0 ==> Compiled(c, va, s.tag, s)
    {
      hide Chain, ChainBytes.ChainBytes;
    }

    static lemma SlotKept(c: Code, s: ChainSlot, place: nat, was: seq<Region>, wasFull: nat, now: seq<Region>, full: nat)
      requires SlotOk(c, s, place, was, wasFull) && was <= now && wasFull <= full
      ensures SlotOk(c, s, place, now, full)
    {
      hide Chain;
      assert place < |was| ==> now[place] == was[place];
    }

    static lemma Even(c: Code, va: u32, pa: u32)
      requires c.Coherent() && va % 2 == 0 && c.xlate(va) == Ok(pa)
      ensures pa % 2 == 0
    {
    }

    /** Calling the arena at a slot's offset runs the chain that a fresh decode at the entry gives:
        the machine returns, balanced, and delivers what the interpreter delivers. */
    lemma CallDelivers<W(!new)>(c: Code, h: X86.Host<W>, va: u32, pa: u32, s: ChainSlot, x: X86.X<W>) returns (k: nat)
      requires arena.Valid() && Compiled(c, va, pa, s) && c.xlate(va) == Ok(pa)
      requires h.t == t && h.Valid() && Lawful(h.bus) && Args(x) && x.stack == [] && x.cpu.Valid()
      ensures forall s | s in Chain(c, va, pa) :: !s.inst.Other?
      ensures var f := FlatRun(h, arena.Contents(), At(s.off, x), k);
        f.Finished? && Delivered(X86.Returned(f.x), Interp(h.bus, Chain(c, va, pa), x.cpu), x.cpu.pc)
    {
      hide Chain, ChainBytes.ChainBytes, FlatRun, Interp, Lawful;
      ChainValid(c, va, pa);
      k := ChainBytes.BytesCorrect(h, arena.Contents(), s.off, Chain(c, va, pa), x);
    }
  }
}
