/** The flat soft-MMU (crates/fs-mmu/src/lib.rs): two arrays updated in place, a dirty bitmap and a
    dirty list. Every access is what `GuestMemory` says of its planes. */
module FlatMmu {
  import opened Words
  import opened GuestMemory

  class Mmu {
    const base: u32
    const mem: array<u8>
    const perms: array<Perm>
    var track: bool
    /** Dirtied blocks in order, and one set of bit numbers for each 64-bit bitmap word. */
    var dirty: seq<nat>
    var bitmap: seq<set<nat>>

    ghost predicate Valid()
      reads this
    {
      mem.Length == perms.Length && Window(base, mem.Length) && (track ==> Exact())
    }

    function Blocks(): nat { (mem.Length + BLOCK - 1) / BLOCK }

    /** A bit is set if and only if its block is listed, and it is listed once. */
    ghost predicate Exact()
      reads this
    {
      && Blocks() <= |bitmap| * 64 && NoDup(dirty)
      && (forall blk | blk in dirty :: blk < Blocks())
      && forall w, bit | 0 <= w < |bitmap| && 0 <= bit < 64 :: bit in bitmap[w] <==> w * 64 + bit in dirty
    }

    ghost function View(): (v: Planes)
      requires Valid()
      reads this, mem, perms
      ensures v.Valid() && |v.mem| == mem.Length
    {
      Planes(mem[..], perms[..])
    }

    /** Zeroed contents, nothing mapped. */
    constructor (base: u32, size: nat)
      requires Window(base, size)
      ensures Valid() && fresh(mem) && fresh(perms) && mem.Length == size && this.base == base && !track && dirty == []
      ensures View() == Planes(seq(size, _ => 0), seq(size, _ => NO_PERM))
    {
      this.base := base;
      mem := new u8[size](_ => 0);
      perms := new Perm[size](_ => NO_PERM);
      track, dirty, bitmap := false, [], [];
      new;
      assert mem[..] == seq(size, _ => 0) && perms[..] == seq(size, _ => NO_PERM);
    }

    method EnableDirtyTracking()
      requires Valid()
      modifies this
      ensures Valid() && track && dirty == []
    {
      track, dirty := true, [];
      bitmap := seq((Blocks() + 63) / 64, _ => {});
    }

    method MarkDirty(off: nat)
      requires Valid() && track && off < mem.Length
      modifies `dirty, `bitmap
      ensures Valid() && dirty == Mark(old(dirty), off / BLOCK)
    {
      MarkBlock(off / BLOCK);
    }

    method MarkBlock(blk: nat)
      requires Valid() && track && blk < Blocks()
      modifies `dirty, `bitmap
      ensures Valid() && dirty == Mark(old(dirty), blk)
    {
      var w, bit := blk / 64, blk % 64;
      assert w * 64 + bit == blk;
      if bit !in bitmap[w] {
        bitmap := bitmap[w := bitmap[w] + {bit}];
        dirty := dirty + [blk];
        forall v, b | 0 <= v < |bitmap| && 0 <= b < 64 ensures b in bitmap[v] <==> v * 64 + b in dirty {
          assert v * 64 + b == blk ==> v == w && b == bit;
        }
      }
    }

    /** Zero only the words that hold a listed block: afterwards no bit is set anywhere. */
    method ClearDirty()
      requires Valid() && track
      modifies `dirty, `bitmap
      ensures Valid() && dirty == [] && forall w | 0 <= w < |bitmap| :: forall bit | 0 <= bit < 64 :: bit !in bitmap[w]
    {
      forall j | 0 <= j < |dirty| ensures dirty[j] / 64 < |bitmap| {
        assert dirty[j] in dirty;
      }
      for i := 0 to |dirty|
        invariant |bitmap| == |old(bitmap)| && dirty == old(dirty)
        invariant forall j | 0 <= j < |dirty| :: dirty[j] / 64 < |bitmap|
        invariant forall w | 0 <= w < |bitmap| :: bitmap[w] <= old(bitmap)[w]
        invariant forall j | 0 <= j < i :: bitmap[dirty[j] / 64] == {}
      {
        bitmap := bitmap[dirty[i] / 64 := {}];
      }
      forall w, bit | 0 <= w < |bitmap| && 0 <= bit < 64 ensures bit !in bitmap[w] {
        assert bit in old(bitmap)[w] <==> w * 64 + bit in dirty;
      }
      dirty := [];
    }

    /** Copy every listed block back, then start clean. */
    method ResetDirty(golden: Planes)
      requires Valid() && track && golden.Valid() && |golden.mem| == mem.Length
      modifies `dirty, `bitmap, mem, perms
      ensures Valid() && dirty == [] && View() == Restore(old(View()), old(dirty), golden)
    {
      ghost var was := View();
      for i := 0 to |dirty|
        invariant Valid() && dirty == old(dirty)
        invariant View() == Restore(was, dirty[..i], golden)
      {
        assert dirty[i] in dirty;
        var lo := dirty[i] * BLOCK;
        var hi := if lo + BLOCK < mem.Length then lo + BLOCK else mem.Length;
        forall k | lo <= k < hi {
          mem[k] := golden.mem[k];
        }
        forall k | lo <= k < hi {
          perms[k] := golden.perms[k];
        }
        assert dirty[..i + 1] == dirty[..i] + [dirty[i]];
        RestoreMore(was, dirty[..i], dirty[i], golden, View());
      }
      assert dirty[..|dirty|] == dirty;
      ClearDirty();
    }

    static lemma RestoreMore(was: Planes, d: seq<nat>, blk: nat, g: Planes, now: Planes)
      requires was.Valid() && g.Valid() && |was.mem| == |g.mem| && now.Valid() && |now.mem| == |was.mem|
      requires forall k | 0 <= k < |was.mem| ::
        now.mem[k] == (if k / BLOCK == blk then g.mem[k] else Restore(was, d, g).mem[k]) &&
        now.perms[k] == (if k / BLOCK == blk then g.perms[k] else Restore(was, d, g).perms[k])
      ensures now == Restore(was, d + [blk], g)
    {
      var w := Restore(was, d + [blk], g);
      assert now.mem == w.mem;
      assert now.perms == w.perms;
    }

    function OffsetOf(addr: u32): Option<nat> { Offset(base, mem.Length, addr) }

    predicate SpanAllows(off: nat, n: nat, access: Access)
      requires off + n <= perms.Length
      reads perms
    {
      forall k | off <= k < off + n :: Allows(perms[k], access)
    }

    /** A checked read or fetch: one pass over an open span, else byte by byte. */
    method Access(addr: u32, n: nat, access: Access) returns (r: Result<seq<u8>, Fault>)
      requires Valid()
      ensures r == GuestMemory.Read(base, View(), addr, n, access)
    {
      var o := OffsetOf(addr);
      if o.Some? && o.value + n <= mem.Length && SpanAllows(o.value, n, access) {
        ReadOpen(base, View(), addr, n, 0, access);
        return Ok(mem[o.value..o.value + n]);
      }
      r := AccessBytewise(addr, n, access);
    }

    method AccessBytewise(addr: u32, n: nat, access: Access) returns (r: Result<seq<u8>, Fault>)
      requires Valid()
      ensures r == GuestMemory.Read(base, View(), addr, n, access)
    {
      hide W32;
      var got: seq<u8> := [];
      AfterNone(GuestMemory.Read(base, View(), addr, n, access));
      for i := 0 to n
        invariant GuestMemory.Read(base, View(), addr, n, access) == After(got, ReadFrom(base, View(), addr, n, i, access))
      {
        var a := W32(addr + i);
        var o := OffsetOf(a);
        if o.None? { return Err(Fault(a, n, access, Unmapped)); }
        if !Allows(perms[o.value], access) { return Err(Fault(a, n, access, Permission)); }
        AfterMore(got, mem[o.value], ReadFrom(base, View(), addr, n, i + 1, access));
        got := got + [mem[o.value]];
      }
      assert got + [] == got;
      r := Ok(got);
    }

    method Write(addr: u32, data: seq<u8>) returns (e: Option<Fault>)
      requires Valid()
      modifies `dirty, `bitmap, mem, perms
      ensures Valid() && (View(), e) == GuestMemory.Write(base, old(View()), addr, data)
      ensures dirty == if track then DirtyFrom(base, old(View()), addr, data, 0, old(dirty)) else old(dirty)
    {
      hide WriteFrom, DirtyFrom, MarkBytes, MarkBlocks, Splice, Exact;
      var o := OffsetOf(addr);
      if o.Some? && o.value + |data| <= mem.Length && SpanAllows(o.value, |data|, WriteAccess) {
        WriteOpen(base, View(), addr, data, 0);
        DirtyOpen(base, View(), addr, data, 0, dirty);
        assert data[0..] == data;
        WriteSpan(o.value, data);
        MarkNone(dirty, o.value);
        if track && |data| > 0 {
          MarkSpan(dirty, o.value, |data|);
          MarkRange(o.value / BLOCK, (o.value + |data| - 1) / BLOCK + 1);
        }
        return None;
      }
      e := WriteBytewise(addr, data);
    }

    method WriteSpan(off: nat, data: seq<u8>)
      requires Valid() && off + |data| <= mem.Length
      modifies mem, perms
      ensures View() == Splice(old(View()), off, data)
    {
      ghost var was := View();
      forall k | 0 <= k < |data| {
        mem[off + k] := data[k];
      }
      forall k | off <= k < off + |data| {
        perms[k] := Upgrade(perms[k]);
      }
      assert View().mem == Splice(was, off, data).mem;
      assert View().perms == Splice(was, off, data).perms;
    }

    method MarkRange(lo: nat, end: nat)
      requires Valid() && track && end <= Blocks()
      modifies `dirty, `bitmap
      ensures Valid() && dirty == MarkBlocks(old(dirty), lo, end)
    {
      var blk := lo;
      while blk < end
        invariant Valid() && MarkBlocks(old(dirty), lo, end) == MarkBlocks(dirty, blk, end)
        invariant blk <= end || blk == lo
      {
        MarkBlock(blk);
        blk := blk + 1;
      }
    }

    method WriteBytewise(addr: u32, data: seq<u8>) returns (e: Option<Fault>)
      requires Valid()
      modifies `dirty, `bitmap, mem, perms
      ensures Valid() && (View(), e) == GuestMemory.Write(base, old(View()), addr, data)
      ensures dirty == if track then DirtyFrom(base, old(View()), addr, data, 0, old(dirty)) else old(dirty)
    {
      hide W32;
      ghost var was := View();
      for i := 0 to |data|
        invariant Valid() && GuestMemory.Write(base, was, addr, data) == WriteFrom(base, View(), addr, data, i)
        invariant if track then DirtyFrom(base, was, addr, data, 0, old(dirty)) == DirtyFrom(base, View(), addr, data, i, dirty)
          else dirty == old(dirty)
      {
        ghost var v := View();
        var a := W32(addr + i);
        var o := OffsetOf(a);
        if o.None? { return Some(Fault(a, |data|, WriteAccess, Unmapped)); }
        if !perms[o.value].w { return Some(Fault(a, |data|, WriteAccess, Permission)); }
        mem[o.value] := data[i];
        perms[o.value] := Upgrade(perms[o.value]);
        assert View() == Put(v, o.value, data[i]);
        if track {
          MarkDirty(o.value);
        }
      }
      e := None;
    }

    method Protect(addr: u32, len: nat, perm: Perm) returns (e: Option<Fault>)
      requires Valid()
      modifies perms
      ensures (View(), e) == ProtectFrom(base, old(View()), addr, len, perm, 0)
    {
      hide W32;
      ghost var was := View();
      for i := 0 to len
        invariant ProtectFrom(base, was, addr, len, perm, 0) == ProtectFrom(base, View(), addr, len, perm, i)
      {
        ghost var v := View();
        var a := W32(addr + i);
        var o := OffsetOf(a);
        if o.None? { return Some(Fault(a, len, WriteAccess, Unmapped)); }
        perms[o.value] := perm;
        assert View() == v.(perms := v.perms[o.value := perm]);
      }
      e := None;
    }

    /** Sets or clears the taint bit of each byte, unlisted by the dirty tracking. */
    method WriteShadow(addr: u32, taint: seq<bool>)
      requires Valid()
      modifies perms
      ensures View() == ShadowFrom(base, old(View()), addr, taint, 0)
    {
      hide W32;
      ghost var was := View();
      for i := 0 to |taint|
        invariant ShadowFrom(base, was, addr, taint, 0) == ShadowFrom(base, View(), addr, taint, i)
      {
        ghost var v := View();
        var o := OffsetOf(W32(addr + i));
        if o.Some? {
          perms[o.value] := perms[o.value].(vt := taint[i]);
          assert View() == v.(perms := v.perms[o.value := v.perms[o.value].(vt := taint[i])]);
        }
      }
    }

    method ReadRawState(addr: u32, len: nat) returns (mask: seq<bool>)
      requires Valid()
      ensures mask == RawState(base, View(), addr, len)
    {
      hide W32;
      mask := [];
      for i := 0 to len
        invariant mask == RawState(base, View(), addr, len)[..i]
      {
        var o := OffsetOf(W32(addr + i));
        mask := mask + [o.Some? && (perms[o.value].raw || perms[o.value].vt)];
      }
    }

    method Load(addr: u32, size: nat, access: Access) returns (r: Result<u32, Fault>)
      requires Valid() && (size == 1 || size == 2 || size == 4)
      ensures r == LoadSized(base, View(), addr, size, access)
    {
      if addr % size != 0 { return Err(Fault(addr, size, access, Unaligned)); }
      var b := Access(addr, size, access);
      r := if b.Err? then Err(b.error) else Ok(W32(FromLe(b.value)));
    }

    method Store(addr: u32, size: nat, val: u32) returns (e: Option<Fault>)
      requires Valid() && (size == 1 || size == 2 || size == 4)
      modifies `dirty, `bitmap, mem, perms
      ensures Valid() && (View(), e) == StoreSized(base, old(View()), addr, size, val)
      ensures dirty == if track && addr % size == 0 then DirtyFrom(base, old(View()), addr, Le(val, size), 0, old(dirty)) else old(dirty)
    {
      if addr % size != 0 { return Some(Fault(addr, size, WriteAccess, Unaligned)); }
      e := Write(addr, Le(val, size));
    }

    /** A location for direct access, if no byte of the span is special; a store's blocks are marked now. */
    method FastPtr(addr: u32, n: nat, forStore: bool) returns (p: Option<nat>)
      requires Valid()
      modifies `dirty, `bitmap
      ensures Valid() && p == if FastOpen(base, View(), addr, n, forStore) then Some(addr - base) else None
      ensures dirty == if p.Some? && forStore && track then MarkBytes(old(dirty), p.value, n) else old(dirty)
    {
      hide Exact, MarkBytes;
      var o := OffsetOf(addr);
      if o.None? || o.value + n > mem.Length { return None; }
      if exists k | o.value <= k < o.value + n :: !Trivial(perms[k], forStore) { return None; }
      if forStore && track { MarkEach(o.value, n); }
      p := o;
    }

    method MarkEach(off: nat, n: nat)
      requires Valid() && track && off + n <= mem.Length
      modifies `dirty, `bitmap
      ensures Valid() && dirty == MarkBytes(old(dirty), off, n)
    {
      hide Exact, Mark;
      var i := off;
      while i < off + n
        invariant off <= i <= off + n && Valid()
        invariant MarkBytes(old(dirty), off, n) == MarkBytes(dirty, i, off + n - i)
      {
        MarkDirty(i);
        i := i + 1;
      }
    }

    /** A fast location followed by the raw store through it is the checked write: same contents, same
        permissions, same dirty list. */
    method FastStore(addr: u32, data: seq<u8>) returns (hit: bool)
      requires Valid()
      modifies `dirty, `bitmap, mem
      ensures Valid() && hit == FastOpen(base, old(View()), addr, |data|, true)
      ensures hit ==> (View(), None) == GuestMemory.Write(base, old(View()), addr, data)
      ensures hit && track ==> dirty == DirtyFrom(base, old(View()), addr, data, 0, old(dirty))
      ensures !hit ==> View() == old(View()) && dirty == old(dirty)
    {
      hide GuestMemory.Write, DirtyFrom, MarkBytes, Exact;
      ghost var was := View();
      FastIsChecked(base, was, addr, data);
      var p := FastPtr(addr, |data|, true);
      hit := p.Some?;
      if hit {
        DirtyOpen(base, was, addr, data, 0, old(dirty)) by { TrivialOpen(base, was, addr, |data|); }
        PokeBytes(p.value, data);
      }
    }

    method PokeBytes(off: nat, data: seq<u8>)
      requires Valid() && off + |data| <= mem.Length
      modifies mem
      ensures Valid() && View() == Poke(old(View()), off, data)
    {
      hide Exact;
      ghost var was := View();
      forall k | 0 <= k < |data| {
        mem[off + k] := data[k];
      }
      assert View().mem == Poke(was, off, data).mem;
    }
  }
}
