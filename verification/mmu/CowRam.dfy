/** Copy-on-write RAM over one shared golden image (crates/fs-mmu/src/lib.rs). Its view, page overlay and
    golden together, obeys the same `GuestMemory` functions as the flat MMU. */
module CopyOnWrite {
  import opened Words
  import opened GuestMemory

  const PAGE_SIZE: nat := 4096
  const SENTINEL: nat := 0xffff_ffff

  class Golden {
    const base: u32
    const mem: array<u8>
    const perms: array<Perm>

    ghost predicate Valid() { mem.Length == perms.Length && Window(base, mem.Length) }

    ghost function View(): (v: Planes)
      requires Valid()
      reads mem, perms
      ensures v.Valid() && |v.mem| == mem.Length
    {
      Planes(mem[..], perms[..])
    }

    function NumPages(): nat { (mem.Length + PAGE_SIZE - 1) / PAGE_SIZE }

    constructor (base: u32, v: Planes)
      requires v.Valid() && Window(base, |v.mem|)
      ensures Valid() && View() == v && this.base == base && fresh(mem) && fresh(perms)
    {
      this.base := base;
      mem := new u8[|v.mem|](i requires 0 <= i < |v.mem| => v.mem[i]);
      perms := new Perm[|v.perms|](i requires 0 <= i < |v.perms| => v.perms[i]);
      new;
      assert mem[..] == v.mem && perms[..] == v.perms;
    }
  }

  /** One page's private copy of both planes. */
  datatype Page = Page(mem: seq<u8>, perms: seq<Perm>)
  {
    ghost predicate Whole() { |mem| == PAGE_SIZE && |perms| == PAGE_SIZE }
  }

  /** The golden planes, the page directory and the overlays, as values. */
  datatype Overlay = Overlay(g: Planes, dir: seq<nat>, pages: seq<Page>)
  {
    ghost predicate Valid() {
      && g.Valid() && |dir| == (|g.mem| + PAGE_SIZE - 1) / PAGE_SIZE
      && (forall pn | 0 <= pn < |dir| && dir[pn] != SENTINEL :: dir[pn] < |pages|)
      && (forall i, j | 0 <= i < j < |dir| && dir[i] != SENTINEL :: dir[i] != dir[j])
      && forall i | 0 <= i < |pages| :: pages[i].Whole()
    }

    ghost function MemAt(off: nat): u8
      requires Valid() && off < |g.mem|
    {
      var slot := dir[off / PAGE_SIZE];
      if slot == SENTINEL then g.mem[off] else pages[slot].mem[off % PAGE_SIZE]
    }

    ghost function PermAt(off: nat): Perm
      requires Valid() && off < |g.mem|
    {
      var slot := dir[off / PAGE_SIZE];
      if slot == SENTINEL then g.perms[off] else pages[slot].perms[off % PAGE_SIZE]
    }

    /** What is seen through the overlay. */
    ghost function Flat(): (v: Planes)
      requires Valid()
      ensures v.Valid() && |v.mem| == |g.mem|
      ensures forall k | 0 <= k < |g.mem| :: v.mem[k] == MemAt(k) && v.perms[k] == PermAt(k)
    {
      Planes(seq(|g.mem|, k requires 0 <= k < |g.mem| => MemAt(k)), seq(|g.mem|, k requires 0 <= k < |g.mem| => PermAt(k)))
    }
  }

  lemma SameFlat(a: Overlay, v: Planes)
    requires a.Valid() && v.Valid() && |v.mem| == |a.g.mem|
    requires forall k | 0 <= k < |a.g.mem| :: a.MemAt(k) == v.mem[k] && a.PermAt(k) == v.perms[k]
    ensures a.Flat() == v
  {
    assert a.Flat().mem == v.mem;
    assert a.Flat().perms == v.perms;
  }

  /** A page's private copy starts out as what is seen of it. */
  function CopyPage(g: Planes, pn: nat): (p: Page)
    requires g.Valid()
    ensures |p.mem| == PAGE_SIZE && |p.perms| == PAGE_SIZE
    ensures forall i | 0 <= i < PAGE_SIZE && pn * PAGE_SIZE + i < |g.mem| ::
      p.mem[i] == g.mem[pn * PAGE_SIZE + i] && p.perms[i] == g.perms[pn * PAGE_SIZE + i]
  {
    Page(seq(PAGE_SIZE, i requires 0 <= i < PAGE_SIZE => if pn * PAGE_SIZE + i < |g.mem| then g.mem[pn * PAGE_SIZE + i] else 0),
         seq(PAGE_SIZE, i requires 0 <= i < PAGE_SIZE => if pn * PAGE_SIZE + i < |g.mem| then g.perms[pn * PAGE_SIZE + i] else NO_PERM))
  }

  lemma CopyUnseen(o: Overlay, pn: nat)
    requires o.Valid() && pn < |o.dir| && o.dir[pn] == SENTINEL && |o.pages| < SENTINEL
    ensures var o' := Overlay(o.g, o.dir[pn := |o.pages|], o.pages + [CopyPage(o.g, pn)]); o'.Valid() && o'.Flat() == o.Flat()
  {
    var o' := Overlay(o.g, o.dir[pn := |o.pages|], o.pages + [CopyPage(o.g, pn)]);
    forall k | 0 <= k < |o.g.mem| ensures o'.MemAt(k) == o.MemAt(k) && o'.PermAt(k) == o.PermAt(k) {
      assert k / PAGE_SIZE * PAGE_SIZE + k % PAGE_SIZE == k;
    }
    SameFlat(o', o.Flat());
  }

  /** Replacing an overlaid page changes that page's bytes and no other. */
  lemma PageUpdate(o: Overlay, pn: nat, p: Page, w: Planes)
    requires o.Valid() && pn < |o.dir| && o.dir[pn] != SENTINEL && p.Whole() && w.Valid() && |w.mem| == |o.g.mem|
    requires forall k | 0 <= k < |w.mem| && k / PAGE_SIZE == pn :: w.mem[k] == p.mem[k % PAGE_SIZE] && w.perms[k] == p.perms[k % PAGE_SIZE]
    requires forall k | 0 <= k < |w.mem| && k / PAGE_SIZE != pn :: w.mem[k] == o.MemAt(k) && w.perms[k] == o.PermAt(k)
    ensures var o' := o.(pages := o.pages[o.dir[pn] := p]); o'.Valid() && o'.Flat() == w
  {
    var o' := o.(pages := o.pages[o.dir[pn] := p]);
    forall k | 0 <= k < |o.g.mem| ensures o'.MemAt(k) == w.mem[k] && o'.PermAt(k) == w.perms[k] {
      var q := k / PAGE_SIZE;
      assert q != pn && o.dir[q] != SENTINEL ==> o.dir[q] != o.dir[pn];
    }
    SameFlat(o', w);
  }

  /** Bytes and permissions of one page with a span replaced. */
  function PageSplice(p: Page, po: nat, data: seq<u8>, up: seq<Perm>): (q: Page)
    requires |p.mem| == |p.perms| == PAGE_SIZE && po + |data| <= PAGE_SIZE && |up| == |data|
    ensures |q.mem| == |q.perms| == PAGE_SIZE
  {
    Page(p.mem[..po] + data + p.mem[po + |data|..], p.perms[..po] + up + p.perms[po + |data|..])
  }

  /** A span replaced within its page is the span replaced in the whole view. */
  lemma SpanUpdate(o: Overlay, off: nat, data: seq<u8>, up: seq<Perm>, w: Planes)
    requires o.Valid() && off + |data| <= |o.g.mem| && off % PAGE_SIZE + |data| <= PAGE_SIZE && |up| == |data|
    requires off < |o.g.mem| && o.dir[off / PAGE_SIZE] != SENTINEL
    requires w.Valid() && |w.mem| == |o.g.mem|
    requires forall k | 0 <= k < |w.mem| && !(off <= k < off + |data|) :: w.mem[k] == o.MemAt(k) && w.perms[k] == o.PermAt(k)
    requires forall k | 0 <= k < |data| :: w.mem[off + k] == data[k] && w.perms[off + k] == up[k]
    ensures var slot := o.dir[off / PAGE_SIZE];
      var o' := o.(pages := o.pages[slot := PageSplice(o.pages[slot], off % PAGE_SIZE, data, up)]); o'.Valid() && o'.Flat() == w
  {
    var pn, po, slot := off / PAGE_SIZE, off % PAGE_SIZE, o.dir[off / PAGE_SIZE];
    var p := PageSplice(o.pages[slot], po, data, up);
    forall k | 0 <= k < |w.mem| && k / PAGE_SIZE == pn
      ensures w.mem[k] == p.mem[k % PAGE_SIZE] && w.perms[k] == p.perms[k % PAGE_SIZE]
    {
      assert k % PAGE_SIZE - po == k - off;
      if off <= k < off + |data| {
        assert w.mem[off + (k - off)] == data[k - off];
      }
    }
    assert forall k | off <= k < off + |data| :: k / PAGE_SIZE == pn;
    PageUpdate(o, pn, p, w);
  }

  lemma OnePage(off: nat, n: nat, k: nat)
    requires off % PAGE_SIZE + n <= PAGE_SIZE && k < n
    ensures (off + k) / PAGE_SIZE == off / PAGE_SIZE && (off + k) % PAGE_SIZE == off % PAGE_SIZE + k
  {
  }

  /** A span within a page, read from wherever the page is. */
  lemma PageRead(o: Overlay, off: nat, n: nat)
    requires o.Valid() && off < |o.g.mem| && off + n <= |o.g.mem| && off % PAGE_SIZE + n <= PAGE_SIZE
    ensures var slot, po := o.dir[off / PAGE_SIZE], off % PAGE_SIZE;
      o.Flat().mem[off..off + n] == if slot == SENTINEL then o.g.mem[off..off + n] else o.pages[slot].mem[po..po + n]
  {
    var slot, po := o.dir[off / PAGE_SIZE], off % PAGE_SIZE;
    var r := if slot == SENTINEL then o.g.mem[off..off + n] else o.pages[slot].mem[po..po + n];
    forall k | 0 <= k < n ensures r[k] == o.Flat().mem[off + k] {
      OnePage(off, n, k);
    }
  }

  function UpgradeAll(s: seq<Perm>): (r: seq<Perm>)
    ensures |r| == |s| && forall k | 0 <= k < |s| :: r[k] == Upgrade(s[k])
  {
    seq(|s|, k requires 0 <= k < |s| => Upgrade(s[k]))
  }

  lemma OverlaidPerms(o: Overlay, off: nat, n: nat)
    requires o.Valid() && off < |o.g.mem| && off + n <= |o.g.mem| && off % PAGE_SIZE + n <= PAGE_SIZE
    requires o.dir[off / PAGE_SIZE] != SENTINEL
    ensures var p, po := o.pages[o.dir[off / PAGE_SIZE]], off % PAGE_SIZE;
      p.perms[po..po + n] == o.Flat().perms[off..off + n]
  {
    var a := o.pages[o.dir[off / PAGE_SIZE]].perms[off % PAGE_SIZE..off % PAGE_SIZE + n];
    var b := o.Flat().perms[off..off + n];
    forall k | 0 <= k < n ensures a[k] == b[k] {
      OnePage(off, n, k);
      assert b[k] == o.PermAt(off + k);
    }
  }

  /** A checked write into an overlaid page. */
  lemma SpliceUpdate(o: Overlay, off: nat, data: seq<u8>)
    requires o.Valid() && off < |o.g.mem| && off + |data| <= |o.g.mem| && off % PAGE_SIZE + |data| <= PAGE_SIZE
    requires o.dir[off / PAGE_SIZE] != SENTINEL
    ensures var slot, po := o.dir[off / PAGE_SIZE], off % PAGE_SIZE;
      var p := o.pages[slot];
      var o' := o.(pages := o.pages[slot := PageSplice(p, po, data, UpgradeAll(p.perms[po..po + |data|]))]);
      o'.Valid() && o'.Flat() == Splice(o.Flat(), off, data)
  {
    hide PageSplice, Splice, Overlay.Flat, UpgradeAll, Overlay.Valid;
    PageOf(o, off);
    SlotWhole(o, off / PAGE_SIZE);
    SpliceAt(o.Flat(), off, data);
    var p, po := o.pages[o.dir[off / PAGE_SIZE]], off % PAGE_SIZE;
    var old_, up := p.perms[po..po + |data|], UpgradeAll(p.perms[po..po + |data|]);
    OverlaidPerms(o, off, |data|);
    forall k | 0 <= k < |data| ensures up[k] == Upgrade(o.Flat().perms[off + k]) {
      assert old_[k] == o.Flat().perms[off..off + |data|][k];
    }
    SpanUpdate(o, off, data, up, Splice(o.Flat(), off, data));
  }

  /** An overlaid page is there, and whole. */
  lemma SlotWhole(o: Overlay, pn: nat)
    requires o.Valid() && pn < |o.dir| && o.dir[pn] != SENTINEL
    ensures o.dir[pn] < |o.pages| && o.pages[o.dir[pn]].Whole()
  {
  }

  lemma PageOf(o: Overlay, off: nat)
    requires o.Valid() && off < |o.g.mem|
    ensures off / PAGE_SIZE < |o.dir|
  {
  }

  lemma PageSpliceSame(p: Page, po: nat, data: seq<u8>)
    requires p.Whole() && po + |data| <= PAGE_SIZE
    ensures PageSplice(p, po, data, p.perms[po..po + |data|]) == p.(mem := p.mem[..po] + data + p.mem[po + |data|..])
  {
    assert p.perms == p.perms[..po] + p.perms[po..po + |data|] + p.perms[po + |data|..];
  }

  /** A raw store into an overlaid page. */
  lemma PokeUpdate(o: Overlay, off: nat, data: seq<u8>)
    requires o.Valid() && off < |o.g.mem| && off + |data| <= |o.g.mem| && off % PAGE_SIZE + |data| <= PAGE_SIZE
    requires o.dir[off / PAGE_SIZE] != SENTINEL
    ensures var slot, po := o.dir[off / PAGE_SIZE], off % PAGE_SIZE;
      var p := o.pages[slot];
      var o' := o.(pages := o.pages[slot := p.(mem := p.mem[..po] + data + p.mem[po + |data|..])]);
      o'.Valid() && o'.Flat() == Poke(o.Flat(), off, data)
  {
    hide Poke, Overlay.Flat, PageSplice, Overlay.Valid;
    PageOf(o, off);
    SlotWhole(o, off / PAGE_SIZE);
    var p, po := o.pages[o.dir[off / PAGE_SIZE]], off % PAGE_SIZE;
    PokeAt(o.Flat(), off, data);
    OverlaidPerms(o, off, |data|);
    SpanUpdate(o, off, data, p.perms[po..po + |data|], Poke(o.Flat(), off, data));
    PageSpliceSame(p, po, data);
  }

  /** Distinct numbers below `n` are at most `n`. */
  lemma {:induction false} Pigeons(d: seq<nat>, n: nat)
    requires NoDup(d) && (d == [] || n > 0) && forall i | 0 <= i < |d| :: d[i] < n
    ensures |d| <= n
    decreases n
  {
    if d != [] {
      if i :| 0 <= i < |d| && d[i] == n - 1 {
        var rest := d[..i] + d[i + 1..];
        forall j | 0 <= j < |rest| ensures rest[j] < n - 1 {
          assert rest[j] == d[if j < i then j else j + 1];
        }
        assert rest != [] ==> rest[0] < n - 1;
        Pigeons(rest, n - 1);
      } else {
        assert d[0] < n - 1;
        Pigeons(d, n - 1);
      }
    }
  }

  class CowRam {
    const golden: Golden
    const dir: array<nat>
    var pages: seq<Page>
    var dirty: seq<nat>

    /** `dir` and `dirty` are mutually inverse, slot by slot. */
    ghost predicate Valid()
      reads this, dir
    {
      && golden.Valid() && dir.Length == golden.NumPages() && |pages| == |dirty|
      && (forall i | 0 <= i < |dirty| :: dirty[i] < dir.Length && dir[dirty[i]] == i)
      && (forall pn | 0 <= pn < dir.Length && dir[pn] != SENTINEL :: dir[pn] < |dirty| && dirty[dir[pn]] == pn)
      && forall i | 0 <= i < |pages| :: pages[i].Whole()
    }

    function Size(): nat { golden.mem.Length }

    function MemAt(off: nat): u8
      requires Valid() && off < Size()
      reads this, dir, golden.mem
    {
      var slot := dir[off / PAGE_SIZE];
      if slot == SENTINEL then golden.mem[off] else pages[slot].mem[off % PAGE_SIZE]
    }

    function PermAt(off: nat): Perm
      requires Valid() && off < Size()
      reads this, dir, golden.perms
    {
      var slot := dir[off / PAGE_SIZE];
      if slot == SENTINEL then golden.perms[off] else pages[slot].perms[off % PAGE_SIZE]
    }

    ghost function Contents(): (o: Overlay)
      requires Valid()
      reads this, dir, golden.mem, golden.perms
      ensures o.Valid() && |o.g.mem| == Size()
    {
      Overlay(golden.View(), dir[..], pages)
    }

    ghost function View(): (v: Planes)
      requires Valid()
      reads this, dir, golden.mem, golden.perms
      ensures v.Valid() && |v.mem| == Size()
    {
      Contents().Flat()
    }

    lemma Seen()
      requires Valid()
      ensures forall k | 0 <= k < Size() :: MemAt(k) == View().mem[k] && PermAt(k) == View().perms[k]
    {
    }

    lemma SpanSeen(addr: u32, n: nat, access: Access)
      requires Valid() && golden.base <= addr && addr - golden.base + n <= Size()
      ensures SpanAllows(addr - golden.base, n, access) ==> Open(golden.base, View(), addr, n, access)
    {
      Seen();
    }

    constructor (g: Golden)
      requires g.Valid()
      ensures Valid() && golden == g && fresh(dir) && View() == g.View() && dirty == []
    {
      golden := g;
      dir := new nat[g.NumPages()](_ => SENTINEL);
      pages, dirty := [], [];
      new;
      SameFlat(Contents(), g.View());
    }

    method EnsurePage(pn: nat) returns (slot: nat)
      requires Valid() && pn < dir.Length
      modifies `pages, `dirty, dir
      ensures Valid() && View() == old(View()) && slot < |pages| && dir[pn] == slot != SENTINEL
      ensures dirty == Mark(old(dirty), pn)
    {
      hide Overlay.Flat, Overlay.Valid;
      slot := dir[pn];
      if slot != SENTINEL { return; }
      Pigeons(dirty, dir.Length) by {
        assert NoDup(dirty);
      }
      CopyUnseen(Contents(), pn);
      slot := |pages|;
      pages := pages + [CopyPage(Planes(golden.mem[..], golden.perms[..]), pn)];
      dir[pn] := slot;
      dirty := dirty + [pn];
      assert dir[..] == old(dir[..])[pn := slot];
    }

    method SetPage(slot: nat, p: Page)
      requires Valid() && slot < |pages| && p.Whole()
      modifies `pages
      ensures Valid() && |pages| == |old(pages)| && Contents() == old(Contents()).(pages := old(pages)[slot := p])
    {
      pages := pages[slot := p];
    }

    function OffsetOf(addr: u32): Option<nat>
    {
      Offset(golden.base, Size(), addr)
    }

    /** The span lies in the window and in one page. */
    predicate InPage(off: nat, n: nat) { off + n <= Size() && off % PAGE_SIZE + n <= PAGE_SIZE }

    predicate SpanAllows(off: nat, n: nat, access: Access)
      requires Valid() && off + n <= Size()
      reads this, dir, golden.perms
    {
      forall k | off <= k < off + n :: Allows(PermAt(k), access)
    }

    method Access(addr: u32, n: nat, access: Access) returns (r: Result<seq<u8>, Fault>)
      requires Valid()
      ensures r == GuestMemory.Read(golden.base, View(), addr, n, access)
    {
      hide GuestMemory.Read, Overlay.Flat, Overlay.Valid, SpanAllows;
      var o := OffsetOf(addr);
      if o.Some? && InPage(o.value, n) && SpanAllows(o.value, n, access) {
        SpanSeen(addr, n, access);
        var s := ReadSpan(o.value, n);
        r := Ok(s);
        ReadWhole(golden.base, View(), addr, n, access);
        return;
      }
      r := AccessBytewise(addr, n, access);
    }

    method ReadSpan(off: nat, n: nat) returns (s: seq<u8>)
      requires Valid() && off < Size() && InPage(off, n)
      ensures s == View().mem[off..off + n]
    {
      PageRead(Contents(), off, n);
      var po, slot := off % PAGE_SIZE, dir[off / PAGE_SIZE];
      if slot == SENTINEL {
        s := golden.mem[off..off + n];
      } else {
        s := pages[slot].mem[po..po + n];
      }
    }

    method AccessBytewise(addr: u32, n: nat, access: Access) returns (r: Result<seq<u8>, Fault>)
      requires Valid()
      ensures r == GuestMemory.Read(golden.base, View(), addr, n, access)
    {
      hide W32, Overlay.Flat;
      Seen();
      var got: seq<u8> := [];
      AfterNone(GuestMemory.Read(golden.base, View(), addr, n, access));
      for i := 0 to n
        invariant |got| == i
        invariant GuestMemory.Read(golden.base, View(), addr, n, access) ==
          After(got, ReadFrom(golden.base, View(), addr, n, i, access))
      {
        var a := W32(addr + i);
        var o := OffsetOf(a);
        if o.None? { return Err(Fault(a, n, access, Unmapped)); }
        if !Allows(PermAt(o.value), access) { return Err(Fault(a, n, access, Permission)); }
        AfterMore(got, MemAt(o.value), ReadFrom(golden.base, View(), addr, n, i + 1, access));
        got := got + [MemAt(o.value)];
      }
      assert got + [] == got;
      r := Ok(got);
    }

    /** Overlay the page of a span, then write into the overlay. */
    method WriteSpan(off: nat, data: seq<u8>)
      requires Valid() && off < Size() && InPage(off, |data|)
      modifies `pages, `dirty, dir
      ensures Valid() && View() == Splice(old(View()), off, data)
    {
      hide Overlay.Flat, Overlay.Valid, Splice, PageSplice;
      var slot := EnsurePage(off / PAGE_SIZE);
      ghost var o := Contents();
      SpliceUpdate(o, off, data);
      var po, p := off % PAGE_SIZE, pages[slot];
      SetPage(slot, PageSplice(p, po, data, UpgradeAll(p.perms[po..po + |data|])));
    }

    method Write(addr: u32, data: seq<u8>) returns (e: Option<Fault>)
      requires Valid()
      modifies `pages, `dirty, dir
      ensures Valid() && (View(), e) == GuestMemory.Write(golden.base, old(View()), addr, data)
    {
      hide Splice, WriteFrom;
      var o := OffsetOf(addr);
      if o.Some? && InPage(o.value, |data|) && SpanAllows(o.value, |data|, WriteAccess) {
        SpanSeen(addr, |data|, WriteAccess);
        WriteOpen(golden.base, View(), addr, data, 0);
        assert data[0..] == data;
        WriteSpan(o.value, data);
        return None;
      }
      e := WriteBytewise(addr, data);
    }

    method WriteBytewise(addr: u32, data: seq<u8>) returns (e: Option<Fault>)
      requires Valid()
      modifies `pages, `dirty, dir
      ensures Valid() && (View(), e) == GuestMemory.Write(golden.base, old(View()), addr, data)
    {
      hide W32, Splice, Overlay.Flat, Overlay.Valid;
      ghost var was := View();
      for i := 0 to |data|
        invariant Valid() && GuestMemory.Write(golden.base, was, addr, data) == WriteFrom(golden.base, View(), addr, data, i)
      {
        ghost var v := View();
        var a := W32(addr + i);
        var o := OffsetOf(a);
        if o.None? { return Some(Fault(a, |data|, WriteAccess, Unmapped)); }
        Seen();
        if !PermAt(o.value).w { return Some(Fault(a, |data|, WriteAccess, Permission)); }
        WriteSpan(o.value, [data[i]]);
        SpliceOne(v, o.value, data[i]);
      }
      e := None;
    }

    method Load(addr: u32, size: nat, access: Access) returns (r: Result<u32, Fault>)
      requires Valid() && (size == 1 || size == 2 || size == 4)
      ensures r == LoadSized(golden.base, View(), addr, size, access)
    {
      if addr % size != 0 { return Err(Fault(addr, size, access, Unaligned)); }
      var b := Access(addr, size, access);
      r := if b.Err? then Err(b.error) else Ok(W32(FromLe(b.value)));
    }

    method Store(addr: u32, size: nat, val: u32) returns (e: Option<Fault>)
      requires Valid() && (size == 1 || size == 2 || size == 4)
      modifies `pages, `dirty, dir
      ensures Valid() && (View(), e) == StoreSized(golden.base, old(View()), addr, size, val)
    {
      if addr % size != 0 { return Some(Fault(addr, size, WriteAccess, Unaligned)); }
      e := Write(addr, Le(val, size));
    }

    /** A location for direct access within one page, if no byte of the span is special; for a store the
        page is overlaid now. */
    method FastPtr(addr: u32, n: nat, forStore: bool) returns (p: Option<nat>)
      requires Valid()
      modifies `pages, `dirty, dir
      ensures Valid() && View() == old(View())
      ensures p == if FastOpen(golden.base, View(), addr, n, forStore) && OnOnePage(addr, n) then Some(addr - golden.base) else None
      ensures dirty == if p.Some? && forStore then Mark(old(dirty), p.value / PAGE_SIZE) else old(dirty)
      ensures p.Some? && forStore ==> dir[p.value / PAGE_SIZE] != SENTINEL
    {
      hide Overlay.Flat, Overlay.Valid;
      p := OffsetOf(addr);
      if p.None? || !InPage(p.value, n) { return None; }
      Seen();
      if exists k | p.value <= k < p.value + n :: !Trivial(PermAt(k), forStore) { return None; }
      if forStore {
        var slot := EnsurePage(p.value / PAGE_SIZE);
      }
    }

    /** The raw store through a location that was handed out for a store. */
    method PokeAt(off: nat, data: seq<u8>)
      requires Valid() && off < Size() && InPage(off, |data|) && dir[off / PAGE_SIZE] != SENTINEL
      modifies `pages
      ensures Valid() && View() == Poke(old(View()), off, data)
    {
      hide Overlay.Flat, Overlay.Valid, Poke;
      PokeUpdate(Contents(), off, data);
      var slot, po := dir[off / PAGE_SIZE], off % PAGE_SIZE;
      var p := pages[slot];
      SetPage(slot, p.(mem := p.mem[..po] + data + p.mem[po + |data|..]));
    }

    /** A fast location followed by the raw store through it is the checked write, overlay included. */
    method FastStore(addr: u32, data: seq<u8>) returns (hit: bool)
      requires Valid()
      modifies `pages, `dirty, dir
      ensures Valid() && (hit ==> (View(), None) == GuestMemory.Write(golden.base, old(View()), addr, data))
      ensures !hit ==> View() == old(View()) && dirty == old(dirty)
      ensures hit == (FastOpen(golden.base, old(View()), addr, |data|, true) && OnOnePage(addr, |data|))
    {
      hide GuestMemory.Write, View, Poke;
      FastIsChecked(golden.base, View(), addr, data);
      var p := FastPtr(addr, |data|, true);
      hit := p.Some?;
      if hit {
        PokeAt(p.value, data);
      }
    }

    method ReadRawState(addr: u32, len: nat) returns (mask: seq<bool>)
      requires Valid()
      ensures mask == RawState(golden.base, View(), addr, len)
    {
      hide W32, Overlay.Flat;
      Seen();
      mask := [];
      for i := 0 to len
        invariant mask == RawState(golden.base, View(), addr, len)[..i]
      {
        var o := OffsetOf(W32(addr + i));
        mask := mask + [o.Some? && (PermAt(o.value).raw || PermAt(o.value).vt)];
      }
    }

    /** Within one page and starting in the window this is the flat MMU's taint store; otherwise nothing
        at all happens. */
    method WriteShadow(addr: u32, taint: seq<bool>)
      requires Valid()
      modifies `pages, `dirty, dir
      ensures Valid()
      ensures View() == if OnOnePage(addr, |taint|) then ShadowFrom(golden.base, old(View()), addr, taint, 0) else old(View())
    {
      var o := OffsetOf(addr);
      if o.None? || o.value % PAGE_SIZE + |taint| > PAGE_SIZE { return; }
      hide Overlay.Flat, Overlay.Valid, ShadowFrom;
      var slot := EnsurePage(o.value / PAGE_SIZE);
      TaintSpan(addr, taint);
    }

    method TaintSpan(addr: u32, taint: seq<bool>)
      requires Valid() && OnOnePage(addr, |taint|) && dir[(addr - golden.base) / PAGE_SIZE] != SENTINEL
      modifies `pages
      ensures Valid() && View() == ShadowFrom(golden.base, old(View()), addr, taint, 0)
    {
      hide Valid, OnOnePage, View, ShadowFrom;
      ghost var was := View();
      for i := 0 to |taint|
        invariant Valid() && |pages| == |old(pages)|
        invariant ShadowFrom(golden.base, was, addr, taint, 0) == ShadowFrom(golden.base, View(), addr, taint, i)
      {
        TaintAt(addr, taint, i);
      }
      ShadowDone(golden.base, View(), addr, taint);
    }

    method TaintAt(addr: u32, taint: seq<bool>, i: nat)
      requires Valid() && i < |taint| && OnOnePage(addr, |taint|) && dir[(addr - golden.base) / PAGE_SIZE] != SENTINEL
      modifies `pages
      ensures Valid() && |pages| == |old(pages)|
      ensures ShadowFrom(golden.base, View(), addr, taint, i + 1) == ShadowFrom(golden.base, old(View()), addr, taint, i)
    {
      hide Overlay.Flat, Overlay.Valid, ShadowFrom;
      var off := addr - golden.base;
      var slot, po := dir[off / PAGE_SIZE], off % PAGE_SIZE + i;
      TaintByte(Contents(), golden.base, addr, taint, i);
      var p := pages[slot];
      SetPage(slot, p.(perms := p.perms[po := p.perms[po].(vt := taint[i])]));
    }

    static lemma ShadowDone(base: u32, v: Planes, addr: u32, taint: seq<bool>)
      requires v.Valid()
      ensures ShadowFrom(base, v, addr, taint, |taint|) == v
    {
    }

    /** One byte's taint bit set in the overlay; past the window's end nothing is seen of it. */
    static lemma TaintByte(o: Overlay, base: u32, addr: u32, taint: seq<bool>, i: nat)
      requires o.Valid() && Window(base, |o.g.mem|) && i < |taint|
      requires base <= addr && addr - base < |o.g.mem| && (addr - base) % PAGE_SIZE + |taint| <= PAGE_SIZE
      requires o.dir[(addr - base) / PAGE_SIZE] != SENTINEL
      ensures var off := addr - base;
        var slot, po := o.dir[off / PAGE_SIZE], off % PAGE_SIZE + i;
        var p := o.pages[slot];
        var o' := o.(pages := o.pages[slot := p.(perms := p.perms[po := p.perms[po].(vt := taint[i])])]);
        o'.Valid() && ShadowFrom(base, o'.Flat(), addr, taint, i + 1) == ShadowFrom(base, o.Flat(), addr, taint, i)
    {
      hide W32, Overlay.Flat;
      var off, v := addr - base, o.Flat();
      Onward(base, |v.mem|, addr, |taint|, i);
      PageTaint(o, off, i, taint[i]);
    }

    /** One taint bit of a page replaced in the whole view, if it lies in the window. */
    static lemma PageTaint(o: Overlay, off: nat, i: nat, bit: bool)
      requires o.Valid() && off < |o.g.mem| && off % PAGE_SIZE + i < PAGE_SIZE && o.dir[off / PAGE_SIZE] != SENTINEL
      ensures var slot, po, v := o.dir[off / PAGE_SIZE], off % PAGE_SIZE + i, o.Flat();
        var p := o.pages[slot];
        var o' := o.(pages := o.pages[slot := p.(perms := p.perms[po := p.perms[po].(vt := bit)])]);
        o'.Valid() && o'.Flat() == if off + i < |v.mem| then v.(perms := v.perms[off + i := v.perms[off + i].(vt := bit)]) else v
    {
      var v, po := o.Flat(), off % PAGE_SIZE + i;
      hide Overlay.Flat;
      var p := o.pages[o.dir[off / PAGE_SIZE]];
      var q := p.(perms := p.perms[po := p.perms[po].(vt := bit)]);
      var w := if off + i < |v.mem| then v.(perms := v.perms[off + i := v.perms[off + i].(vt := bit)]) else v;
      OnePage(off, i + 1, i);
      forall k | 0 <= k < |w.mem| && k / PAGE_SIZE == off / PAGE_SIZE
        ensures w.mem[k] == q.mem[k % PAGE_SIZE] && w.perms[k] == q.perms[k % PAGE_SIZE]
      {
        assert k % PAGE_SIZE == po <==> k == off + i by { SamePage(k, off); }
      }
      PageUpdate(o, off / PAGE_SIZE, q, w);
    }

    static lemma SamePage(k: nat, off: nat)
      requires k / PAGE_SIZE == off / PAGE_SIZE
      ensures k % PAGE_SIZE - off % PAGE_SIZE == k - off
    {
    }

    /** Within a page the bytes after `addr` follow it in the window, or lie outside it. */
    static lemma Onward(base: u32, size: nat, addr: u32, n: nat, i: nat)
      requires Window(base, size) && base <= addr && addr - base < size && (addr - base) % PAGE_SIZE + n <= PAGE_SIZE && i < n
      ensures var off := addr - base + i; Offset(base, size, W32(addr + i)) == if off < size then Some(off) else None
    {
      var off := addr - base;
      var page := off / PAGE_SIZE;
      assert off + i < (page + 1) * PAGE_SIZE <= TWO32;
      if addr + i < TWO32 {
        assert W32(addr + i) == addr + i;
      } else {
        assert W32(addr + i) == addr + i - TWO32;
      }
    }

    predicate OnOnePage(addr: u32, n: nat)
    {
      OffsetOf(addr).Some? && OffsetOf(addr).value % PAGE_SIZE + n <= PAGE_SIZE
    }

    /** Forget every overlay. */
    method Reset()
      requires Valid()
      modifies `pages, `dirty, dir
      ensures Valid() && View() == golden.View() && dirty == []
    {
      for i := 0 to |dirty|
        invariant dirty == old(dirty) && dir.Length == golden.NumPages()
        invariant forall pn | 0 <= pn < dir.Length :: dir[pn] == SENTINEL || dir[pn] == old(dir[pn])
        invariant forall j | 0 <= j < i :: dir[dirty[j]] == SENTINEL
      {
        dir[dirty[i]] := SENTINEL;
      }
      forall pn | 0 <= pn < dir.Length ensures dir[pn] == SENTINEL {
        assert old(dir[pn]) != SENTINEL ==> dirty[old(dir[pn])] == pn;
      }
      pages, dirty := [], [];
      SameFlat(Contents(), golden.View());
    }
  }
}
