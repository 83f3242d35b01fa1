/** Guest memory as two parallel planes, and the byte-by-byte meaning of a checked access
    (crates/fs-mmu/src/lib.rs). A permission byte is a record of its six bits. */
module GuestMemory {
  import opened Words

  datatype Perm = Perm(r: bool, w: bool, x: bool, raw: bool, acc: bool, vt: bool)

  const NO_PERM := Perm(false, false, false, false, false, false)

  datatype Access = ReadAccess | WriteAccess | ExecAccess
  datatype FaultKind = Unmapped | Permission | Unaligned
  datatype Fault = Fault(addr: u32, len: nat, access: Access, kind: FaultKind)

  datatype Planes = Planes(mem: seq<u8>, perms: seq<Perm>)
  {
    ghost predicate Valid() { |mem| == |perms| }
  }

  predicate Allows(p: Perm, access: Access)
  {
    match access case ReadAccess => p.r case WriteAccess => p.w case ExecAccess => p.x
  }

  /** A first write makes a byte readable and no longer raw. */
  function Upgrade(p: Perm): Perm { p.(r := true, raw := false) }

  function Offset(base: u32, size: nat, a: u32): (o: Option<nat>)
    ensures o.Some? ==> o.value < size
  {
    if base <= a && a - base < size then Some(a - base) else None
  }

  /** Whether the byte at `a` may be accessed: where it is, or why not. */
  function Locate(base: u32, v: Planes, a: u32, len: nat, access: Access): (r: Result<nat, Fault>)
    requires v.Valid()
    ensures r.Ok? ==> r.value < |v.mem|
  {
    match Offset(base, |v.mem|, a)
    case None => Err(Fault(a, len, access, Unmapped))
    case Some(off) => if Allows(v.perms[off], access) then Ok(off) else Err(Fault(a, len, access, Permission))
  }

  /** Bytes `i..len` of a checked read. */
  function ReadFrom(base: u32, v: Planes, addr: u32, len: nat, i: nat, access: Access): (r: Result<seq<u8>, Fault>)
    requires v.Valid() && i <= len
    ensures r.Ok? ==> |r.value| == len - i
    decreases len - i
  {
    if i == len then Ok([])
    else
      match Locate(base, v, W32(addr + i), len, access)
      case Err(f) => Err(f)
      case Ok(off) => After([v.mem[off]], ReadFrom(base, v, addr, len, i + 1, access))
  }

  /** The bytes already read, in front of what the rest of the read gives. */
  function After(got: seq<u8>, r: Result<seq<u8>, Fault>): Result<seq<u8>, Fault>
  {
    if r.Ok? then Ok(got + r.value) else r
  }

  lemma AfterNone(r: Result<seq<u8>, Fault>)
    ensures After([], r) == r
  {
    assert r.Ok? ==> [] + r.value == r.value;
  }

  lemma AfterMore(got: seq<u8>, b: u8, r: Result<seq<u8>, Fault>)
    ensures After(got, After([b], r)) == After(got + [b], r)
  {
    assert r.Ok? ==> got + ([b] + r.value) == got + [b] + r.value;
  }

  function Read(base: u32, v: Planes, addr: u32, len: nat, access: Access): (r: Result<seq<u8>, Fault>)
    requires v.Valid()
    ensures r.Ok? ==> |r.value| == len
  {
    ReadFrom(base, v, addr, len, 0, access)
  }

  function Put(v: Planes, off: nat, b: u8): (w: Planes)
    requires v.Valid() && off < |v.mem|
    ensures w.Valid() && |w.mem| == |v.mem|
  {
    Planes(v.mem[off := b], v.perms[off := Upgrade(v.perms[off])])
  }

  /** Bytes `i..` of a checked write; a fault midway keeps what was written before it. */
  function WriteFrom(base: u32, v: Planes, addr: u32, data: seq<u8>, i: nat): (r: (Planes, Option<Fault>))
    requires v.Valid() && i <= |data|
    ensures r.0.Valid() && |r.0.mem| == |v.mem|
    decreases |data| - i
  {
    if i == |data| then (v, None)
    else
      match Locate(base, v, W32(addr + i), |data|, WriteAccess)
      case Err(f) => (v, Some(f))
      case Ok(off) => WriteFrom(base, Put(v, off, data[i]), addr, data, i + 1)
  }

  function Write(base: u32, v: Planes, addr: u32, data: seq<u8>): (r: (Planes, Option<Fault>))
    requires v.Valid()
    ensures r.0.Valid() && |r.0.mem| == |v.mem|
  {
    WriteFrom(base, v, addr, data, 0)
  }

  const BLOCK: nat := 64

  /** The dirty list: a block is appended the first time it is marked. */
  function Mark(d: seq<nat>, blk: nat): seq<nat> { if blk in d then d else d + [blk] }

  function MarkBytes(d: seq<nat>, off: nat, n: nat): seq<nat>
    decreases n
  {
    if n == 0 then d else MarkBytes(Mark(d, off / BLOCK), off + 1, n - 1)
  }

  function MarkBlocks(d: seq<nat>, lo: nat, end: nat): seq<nat>
    decreases end - lo
  {
    if lo >= end then d else MarkBlocks(Mark(d, lo), lo + 1, end)
  }

  /** The blocks a checked write marks, one byte at a time, up to a fault. */
  function DirtyFrom(base: u32, v: Planes, addr: u32, data: seq<u8>, i: nat, d: seq<nat>): seq<nat>
    requires v.Valid() && i <= |data|
    decreases |data| - i
  {
    if i == |data| then d
    else
      match Locate(base, v, W32(addr + i), |data|, WriteAccess)
      case Err(_) => d
      case Ok(off) => DirtyFrom(base, Put(v, off, data[i]), addr, data, i + 1, Mark(d, off / BLOCK))
  }

  // ----- the one-pass form of an access to a span that allows it -----

  /** The window does not wrap around the address space. */
  ghost predicate Window(base: u32, size: nat) { base + size <= TWO32 }

  ghost predicate Open(base: u32, v: Planes, addr: u32, n: nat, access: Access)
  {
    && v.Valid() && Window(base, |v.mem|) && base <= addr && addr - base + n <= |v.mem|
    && forall k | addr - base <= k < addr - base + n :: Allows(v.perms[k], access)
  }

  function Splice(v: Planes, off: nat, data: seq<u8>): (w: Planes)
    requires v.Valid() && off + |data| <= |v.mem|
    ensures w.Valid() && |w.mem| == |v.mem|
  {
    Planes(v.mem[..off] + data + v.mem[off + |data|..],
           v.perms[..off] + seq(|data|, k requires 0 <= k < |data| => Upgrade(v.perms[off + k])) + v.perms[off + |data|..])
  }

  lemma LocateOpen(base: u32, v: Planes, addr: u32, n: nat, i: nat, access: Access)
    requires Open(base, v, addr, n, access) && i < n
    ensures Locate(base, v, W32(addr + i), n, access) == Ok(addr - base + i)
  {
    assert W32(addr + i) == addr + i;
  }

  lemma {:induction false} ReadOpen(base: u32, v: Planes, addr: u32, n: nat, i: nat, access: Access)
    requires Open(base, v, addr, n, access) && i <= n
    ensures ReadFrom(base, v, addr, n, i, access) == Ok(v.mem[addr - base + i..addr - base + n])
    decreases n - i
  {
    hide W32, Locate, ReadFrom;
    var off := addr - base + i;
    if i < n {
      LocateOpen(base, v, addr, n, i, access);
      ReadOpen(base, v, addr, n, i + 1, access);
      ReadOne(base, v, addr, n, i, off, access);
      assert [v.mem[off]] + v.mem[off + 1..addr - base + n] == v.mem[off..addr - base + n];
    } else {
      assert v.mem[off..addr - base + n] == [] by { assert off == addr - base + n; }
      ReadNone(base, v, addr, n, access);
    }
  }

  lemma ReadNone(base: u32, v: Planes, addr: u32, n: nat, access: Access)
    requires v.Valid()
    ensures ReadFrom(base, v, addr, n, n, access) == Ok([])
  {
  }

  lemma ReadOne(base: u32, v: Planes, addr: u32, n: nat, i: nat, off: nat, access: Access)
    requires v.Valid() && i < n && Locate(base, v, W32(addr + i), n, access) == Ok(off) && ReadFrom(base, v, addr, n, i + 1, access).Ok?
    ensures ReadFrom(base, v, addr, n, i, access) == Ok([v.mem[off]] + ReadFrom(base, v, addr, n, i + 1, access).value)
  {
    hide W32, Locate;
  }

  lemma ReadWhole(base: u32, v: Planes, addr: u32, n: nat, access: Access)
    requires Open(base, v, addr, n, access)
    ensures Read(base, v, addr, n, access) == Ok(v.mem[addr - base..addr - base + n])
  {
    ReadOpen(base, v, addr, n, 0, access);
  }

  lemma {:induction false} WriteOpen(base: u32, v: Planes, addr: u32, data: seq<u8>, i: nat)
    requires Open(base, v, addr, |data|, WriteAccess) && i <= |data|
    ensures WriteFrom(base, v, addr, data, i) == (Splice(v, addr - base + i, data[i..]), None)
    decreases |data| - i
  {
    hide W32, Locate;
    var off := addr - base + i;
    if i < |data| {
      LocateOpen(base, v, addr, |data|, i, WriteAccess);
      WriteOpen(base, Put(v, off, data[i]), addr, data, i + 1);
      assert data[i..][1..] == data[i + 1..] && data[i..][0] == data[i];
      SpliceStep(v, off, data[i..]);
      assert Splice(Put(v, off, data[i]), off + 1, data[i + 1..]) == Splice(v, off, data[i..]);
    } else {
      assert data[i..] == [];
      SpliceNone(v, off, data[i..]);
    }
  }

  lemma SpliceAt(v: Planes, off: nat, data: seq<u8>)
    requires v.Valid() && off + |data| <= |v.mem|
    ensures var w := Splice(v, off, data);
      && (forall k | 0 <= k < |v.mem| && !(off <= k < off + |data|) :: w.mem[k] == v.mem[k] && w.perms[k] == v.perms[k])
      && forall k | 0 <= k < |data| :: w.mem[off + k] == data[k] && w.perms[off + k] == Upgrade(v.perms[off + k])
  {
    var w := Splice(v, off, data);
    forall k | 0 <= k < |v.mem| && !(off <= k < off + |data|) ensures w.mem[k] == v.mem[k] && w.perms[k] == v.perms[k] {
    }
    forall k | 0 <= k < |data| ensures w.mem[off + k] == data[k] && w.perms[off + k] == Upgrade(v.perms[off + k]) {
    }
  }

  lemma PokeAt(v: Planes, off: nat, data: seq<u8>)
    requires v.Valid() && off + |data| <= |v.mem|
    ensures var w := Poke(v, off, data);
      && (forall k | 0 <= k < |v.mem| && !(off <= k < off + |data|) :: w.mem[k] == v.mem[k])
      && forall k | 0 <= k < |data| :: w.mem[off + k] == data[k]
  {
  }

  lemma SpliceOne(v: Planes, off: nat, b: u8)
    requires v.Valid() && off < |v.mem|
    ensures Splice(v, off, [b]) == Put(v, off, b)
  {
    var w := Splice(v, off, [b]);
    assert w.mem == v.mem[off := b];
    assert w.perms == v.perms[off := Upgrade(v.perms[off])];
  }

  lemma SpliceNone(v: Planes, off: nat, none: seq<u8>)
    requires v.Valid() && off <= |v.mem| && |none| == 0
    ensures Splice(v, off, none) == v
  {
    var w := Splice(v, off, none);
    assert w.mem == v.mem;
    assert w.perms == v.perms;
  }

  /** Over bytes that are readable and not raw already, only the contents change. */
  lemma SpliceTrivial(v: Planes, off: nat, data: seq<u8>)
    requires v.Valid() && off + |data| <= |v.mem|
    requires forall k | off <= k < off + |data| :: v.perms[k].r && !v.perms[k].raw
    ensures Splice(v, off, data) == Poke(v, off, data)
  {
    var up := seq(|data|, k requires 0 <= k < |data| => Upgrade(v.perms[off + k]));
    forall k | 0 <= k < |data| ensures up[k] == v.perms[off + k] {
      var p := v.perms[off + k];
      assert p.r && !p.raw && p == Perm(true, p.w, p.x, false, p.acc, p.vt);
      assert up[k] == Upgrade(p);
    }
    assert up == v.perms[off..off + |data|];
    assert v.perms == v.perms[..off] + v.perms[off..off + |data|] + v.perms[off + |data|..];
  }

  lemma SpliceStep(v: Planes, off: nat, data: seq<u8>)
    requires v.Valid() && data != [] && off + |data| <= |v.mem|
    ensures Splice(Put(v, off, data[0]), off + 1, data[1..]) == Splice(v, off, data)
  {
    var a, b := Splice(Put(v, off, data[0]), off + 1, data[1..]), Splice(v, off, data);
    assert a.mem == b.mem;
    assert a.perms == b.perms;
  }

  lemma PutOpen(base: u32, v: Planes, addr: u32, n: nat, off: nat, b: u8)
    requires Open(base, v, addr, n, WriteAccess) && off < |v.mem|
    ensures Open(base, Put(v, off, b), addr, n, WriteAccess)
  {
  }

  lemma MarkNone(d: seq<nat>, off: nat)
    ensures MarkBytes(d, off, 0) == d
  {
  }

  lemma {:induction false} DirtyOpen(base: u32, v: Planes, addr: u32, data: seq<u8>, i: nat, d: seq<nat>)
    requires v.Valid() && base <= addr && Open(base, v, addr, |data|, WriteAccess) && i <= |data|
    ensures DirtyFrom(base, v, addr, data, i, d) == MarkBytes(d, addr - base + i, |data| - i)
    decreases |data| - i
  {
    hide W32, Locate, Put, Mark, Open;
    if i < |data| {
      LocateOpen(base, v, addr, |data|, i, WriteAccess);
      PutOpen(base, v, addr, |data|, addr - base + i, data[i]);
      DirtyOpen(base, Put(v, addr - base + i, data[i]), addr, data, i + 1, Mark(d, (addr - base + i) / BLOCK));
    }
  }

  /** Marking every byte of a span is marking the blocks it spans, in order. */
  lemma {:induction false} MarkSpan(d: seq<nat>, off: nat, n: nat)
    requires n > 0
    ensures MarkBytes(d, off, n) == MarkBlocks(d, off / BLOCK, (off + n - 1) / BLOCK + 1)
    decreases n
  {
    var b := off / BLOCK;
    if n > 1 {
      MarkSpan(Mark(d, b), off + 1, n - 1);
      assert Mark(Mark(d, b), b) == Mark(d, b);
    } else {
      assert MarkBytes(d, off, 1) == MarkBytes(Mark(d, b), off + 1, 0);
    }
  }

  // ----- sized, aligned accesses -----

  /** One, two or four bytes, naturally aligned, little-endian. */
  function LoadSized(base: u32, v: Planes, addr: u32, size: nat, access: Access): Result<u32, Fault>
    requires v.Valid() && (size == 1 || size == 2 || size == 4)
  {
    if addr % size != 0 then Err(Fault(addr, size, access, Unaligned))
    else
      match Read(base, v, addr, size, access)
      case Err(f) => Err(f)
      case Ok(b) => Ok(W32(FromLe(b)))
  }

  function StoreSized(base: u32, v: Planes, addr: u32, size: nat, val: u32): (r: (Planes, Option<Fault>))
    requires v.Valid() && (size == 1 || size == 2 || size == 4)
    ensures r.0.Valid() && |r.0.mem| == |v.mem|
  {
    if addr % size != 0 then (v, Some(Fault(addr, size, WriteAccess, Unaligned))) else Write(base, v, addr, Le(val, size))
  }

  /** What a fast location demands of every byte: the needed bits, and no oracle watching. */
  predicate Trivial(p: Perm, forStore: bool) { p.r && (forStore ==> p.w) && !p.raw && !p.acc }

  ghost predicate FastOpen(base: u32, v: Planes, addr: u32, n: nat, forStore: bool)
  {
    && v.Valid() && base <= addr && addr - base < |v.mem| && addr - base + n <= |v.mem|
    && forall k | addr - base <= k < addr - base + n :: Trivial(v.perms[k], forStore)
  }

  lemma TrivialOpen(base: u32, v: Planes, addr: u32, n: nat)
    requires Window(base, |v.mem|) && FastOpen(base, v, addr, n, true)
    ensures Open(base, v, addr, n, WriteAccess)
  {
  }

  /** Storing bytes straight at a location. */
  function Poke(v: Planes, off: nat, data: seq<u8>): (w: Planes)
    requires off + |data| <= |v.mem|
    ensures |w.mem| == |v.mem| && w.perms == v.perms
  {
    v.(mem := v.mem[..off] + data + v.mem[off + |data|..])
  }

  /** Where a fast location is given, storing through it is the checked write, and reading through it
      the checked read. */
  lemma FastIsChecked(base: u32, v: Planes, addr: u32, data: seq<u8>)
    requires Window(base, |v.mem|)
    ensures FastOpen(base, v, addr, |data|, true) ==> Write(base, v, addr, data) == (Poke(v, addr - base, data), None)
    ensures FastOpen(base, v, addr, |data|, false) ==>
      Read(base, v, addr, |data|, ReadAccess) == Ok(v.mem[addr - base..addr - base + |data|])
  {
    hide W32, ReadFrom, WriteFrom;
    if FastOpen(base, v, addr, |data|, true) {
      WriteOpen(base, v, addr, data, 0);
      assert data[0..] == data;
      SpliceTrivial(v, addr - base, data);
    }
    if FastOpen(base, v, addr, |data|, false) {
      ReadOpen(base, v, addr, |data|, 0, ReadAccess);
    }
  }

  // ----- taint shadow -----

  /** Bit `i` of the mask says whether byte `i` is tainted. */
  function ShadowFrom(base: u32, v: Planes, addr: u32, taint: seq<bool>, i: nat): (w: Planes)
    requires v.Valid() && i <= |taint|
    ensures w.Valid() && |w.mem| == |v.mem|
    decreases |taint| - i
  {
    if i == |taint| then v
    else
      match Offset(base, |v.mem|, W32(addr + i))
      case None => ShadowFrom(base, v, addr, taint, i + 1)
      case Some(off) =>
        ShadowFrom(base, v.(perms := v.perms[off := v.perms[off].(vt := taint[i])]), addr, taint, i + 1)
  }

  function RawState(base: u32, v: Planes, addr: u32, len: nat): (s: seq<bool>)
    requires v.Valid()
    ensures |s| == len
  {
    seq(len, i requires 0 <= i < len =>
      var o := Offset(base, |v.mem|, W32(addr + i));
      o.Some? && (v.perms[o.value].raw || v.perms[o.value].vt))
  }

  /** Stamp `perm` over a region, byte by byte; what precedes an unmapped byte stays stamped. */
  function ProtectFrom(base: u32, v: Planes, addr: u32, len: nat, perm: Perm, i: nat): (r: (Planes, Option<Fault>))
    requires v.Valid() && i <= len
    ensures r.0.Valid() && |r.0.mem| == |v.mem|
    decreases len - i
  {
    if i == len then (v, None)
    else
      var a := W32(addr + i);
      match Offset(base, |v.mem|, a)
      case None => (v, Some(Fault(a, len, WriteAccess, Unmapped)))
      case Some(off) => ProtectFrom(base, v.(perms := v.perms[off := perm]), addr, len, perm, i + 1)
  }

  function Stamp(v: Planes, off: nat, len: nat, perm: Perm): (w: Planes)
    requires v.Valid() && off + len <= |v.mem|
    ensures w.Valid() && w.mem == v.mem
  {
    v.(perms := v.perms[..off] + seq(len, _ => perm) + v.perms[off + len..])
  }

  lemma StampAt(v: Planes, off: nat, n: nat, p: Perm, k: nat)
    requires v.Valid() && off + n <= |v.mem| && k < |v.mem|
    ensures Stamp(v, off, n, p).perms[k] == if off <= k < off + n then p else v.perms[k]
  {
  }

  lemma StampNone(v: Planes, off: nat, p: Perm)
    requires v.Valid() && off <= |v.mem|
    ensures Stamp(v, off, 0, p) == v
  {
    assert Stamp(v, off, 0, p).perms == v.perms;
  }

  lemma StampNext(v: Planes, off: nat, len: nat, p: Perm)
    requires v.Valid() && len > 0 && off + len <= |v.mem|
    ensures Stamp(v.(perms := v.perms[off := p]), off + 1, len - 1, p) == Stamp(v, off, len, p)
  {
    assert Stamp(v.(perms := v.perms[off := p]), off + 1, len - 1, p).perms == Stamp(v, off, len, p).perms;
  }

  ghost predicate InBounds(base: u32, v: Planes, addr: int, len: int)
  {
    Window(base, |v.mem|) && base <= addr && 0 <= len && addr - base + len <= |v.mem|
  }

  lemma {:induction false} ProtectInBounds(base: u32, v: Planes, addr: u32, len: nat, perm: Perm, i: nat)
    requires v.Valid() && InBounds(base, v, addr, len) && i <= len
    ensures ProtectFrom(base, v, addr, len, perm, i) == (Stamp(v, addr - base + i, len - i, perm), None)
    decreases len - i
  {
    hide Stamp;
    var off := addr - base + i;
    if i < len {
      assert W32(addr + i) == addr + i;
      hide W32;
      ProtectInBounds(base, v.(perms := v.perms[off := perm]), addr, len, perm, i + 1);
      StampNext(v, off, len - i, perm);
    } else {
      StampNone(v, off, perm);
    }
  }

  // ----- dirty tracking and reset -----

  ghost predicate NoDup(d: seq<nat>) { forall i, j | 0 <= i < j < |d| :: d[i] != d[j] }

  /** Outside the listed blocks the planes are golden. */
  ghost predicate Clean(v: Planes, d: seq<nat>, g: Planes)
  {
    v.Valid() && g.Valid() && |v.mem| == |g.mem| &&
    forall k | 0 <= k < |v.mem| && k / BLOCK !in d :: v.mem[k] == g.mem[k] && v.perms[k] == g.perms[k]
  }

  /** Copy the listed blocks back from golden. */
  function Restore(v: Planes, d: seq<nat>, g: Planes): (w: Planes)
    requires v.Valid() && g.Valid() && |v.mem| == |g.mem|
    ensures w.Valid() && |w.mem| == |v.mem|
  {
    Planes(seq(|v.mem|, k requires 0 <= k < |v.mem| => if k / BLOCK in d then g.mem[k] else v.mem[k]),
           seq(|v.mem|, k requires 0 <= k < |v.mem| => if k / BLOCK in d then g.perms[k] else v.perms[k]))
  }

  /** The reset restores the whole image exactly when every unlisted block is still golden. */
  lemma RestoreExact(v: Planes, d: seq<nat>, g: Planes)
    requires v.Valid() && g.Valid() && |v.mem| == |g.mem|
    ensures Restore(v, d, g) == g <==> Clean(v, d, g)
  {
    var w := Restore(v, d, g);
    if w == g {
      forall k | 0 <= k < |v.mem| && k / BLOCK !in d ensures v.mem[k] == g.mem[k] && v.perms[k] == g.perms[k] {
        assert w.mem[k] == v.mem[k] && w.perms[k] == v.perms[k];
      }
    }
  }

  /** Every checked write, whole, partial or faulting, lists the blocks it changes. */
  lemma {:induction false} WriteStaysClean(base: u32, v: Planes, addr: u32, data: seq<u8>, i: nat, d: seq<nat>, g: Planes)
    requires Clean(v, d, g) && i <= |data|
    ensures Clean(WriteFrom(base, v, addr, data, i).0, DirtyFrom(base, v, addr, data, i, d), g)
    decreases |data| - i
  {
    hide W32;
    if i < |data| {
      var at := Locate(base, v, W32(addr + i), |data|, WriteAccess);
      if at.Ok? {
        var v', d' := Put(v, at.value, data[i]), Mark(d, at.value / BLOCK);
        assert at.value / BLOCK in d';
        WriteStaysClean(base, v', addr, data, i + 1, d', g);
      }
    }
  }

  /** Where byte `i` of a span is, if in the window. */
  function Place(base: u32, size: nat, addr: u32, i: int): (o: Option<nat>)
    ensures o.Some? ==> o.value < size
  {
    Offset(base, size, W32(addr + i))
  }

  lemma PlacesDiffer(base: u32, size: nat, addr: u32, i: nat, j: nat)
    requires i < j < TWO32 && Place(base, size, addr, i).Some?
    ensures Place(base, size, addr, i) != Place(base, size, addr, j)
  {
    assert W32(addr + i) != W32(addr + j) by { WrapsDiffer(addr + i, j - i); }
  }

  lemma WrapsDiffer(x: nat, d: nat)
    requires 0 < d < TWO32
    ensures W32(x) != W32(x + d)
  {
  }

  /** The taint store on each byte: the last one to name it decides, and only one does. */
  lemma {:induction false} ShadowAt(base: u32, v: Planes, addr: u32, taint: seq<bool>, i: nat)
    requires v.Valid() && i <= |taint| <= TWO32
    ensures var w := ShadowFrom(base, v, addr, taint, i);
      && (forall j, k | i <= j < |taint| && Place(base, |v.mem|, addr, j) == Some(k) :: w.perms[k].vt == taint[j])
      && (forall k | 0 <= k < |v.mem| && (forall j | i <= j < |taint| :: Place(base, |v.mem|, addr, j) != Some(k)) ::
            w.perms[k] == v.perms[k])
    decreases |taint| - i
  {
    hide W32, Offset;
    if i < |taint| {
      var o := Place(base, |v.mem|, addr, i);
      var v' := if o.Some? then v.(perms := v.perms[o.value := v.perms[o.value].(vt := taint[i])]) else v;
      ShadowAt(base, v', addr, taint, i + 1);
      var w := ShadowFrom(base, v, addr, taint, i);
      assert w == ShadowFrom(base, v', addr, taint, i + 1);
      if o.Some? {
        forall j | i < j < |taint| ensures Place(base, |v.mem|, addr, j) != o {
          PlacesDiffer(base, |v.mem|, addr, i, j);
        }
        assert w.perms[o.value] == v'.perms[o.value];
      }
    }
  }

  /** Every byte of the span that lies in an unlisted block is given the taint it has in golden. */
  ghost predicate GoldenTaint(base: u32, addr: u32, taint: seq<bool>, d: seq<nat>, g: Planes)
    requires g.Valid()
  {
    forall i, k | 0 <= i < |taint| && Place(base, |g.mem|, addr, i) == Some(k) && k / BLOCK !in d ::
      taint[i] == g.perms[k].vt
  }

  /** A taint store changes permissions without listing anything: a reset still brings the whole image back
      iff the store gives golden's own taint to the bytes it reaches in unlisted blocks. */
  lemma ShadowClean(base: u32, v: Planes, addr: u32, taint: seq<bool>, d: seq<nat>, g: Planes)
    requires Clean(v, d, g) && |taint| <= TWO32
    ensures Restore(ShadowFrom(base, v, addr, taint, 0), d, g) == g <==> GoldenTaint(base, addr, taint, d, g)
  {
    hide Place, Restore;
    var w := ShadowFrom(base, v, addr, taint, 0);
    ShadowOnlyTaint(base, v, addr, taint, 0);
    ShadowAt(base, v, addr, taint, 0);
    RestoreExact(w, d, g);
    if Clean(w, d, g) {
      forall i, k | 0 <= i < |taint| && Place(base, |g.mem|, addr, i) == Some(k) && k / BLOCK !in d
        ensures taint[i] == g.perms[k].vt
      {
        assert w.perms[k].vt == taint[i];
      }
    }
    if GoldenTaint(base, addr, taint, d, g) {
      forall k | 0 <= k < |w.mem| && k / BLOCK !in d ensures w.mem[k] == g.mem[k] && w.perms[k] == g.perms[k] {
        assert w.perms[k].(vt := v.perms[k].vt) == v.perms[k];
        if i :| 0 <= i < |taint| && Place(base, |g.mem|, addr, i) == Some(k) {
          assert w.perms[k].vt == taint[i];
        } else {
          assert w.perms[k] == v.perms[k];
        }
      }
    }
  }

  lemma {:induction false} ShadowOnlyTaint(base: u32, v: Planes, addr: u32, taint: seq<bool>, i: nat)
    requires v.Valid() && i <= |taint|
    ensures var w := ShadowFrom(base, v, addr, taint, i);
      w.mem == v.mem && forall k | 0 <= k < |v.mem| :: w.perms[k].(vt := v.perms[k].vt) == v.perms[k]
    decreases |taint| - i
  {
    hide W32;
    if i < |taint| {
      var o := Offset(base, |v.mem|, W32(addr + i));
      var v' := if o.Some? then v.(perms := v.perms[o.value := v.perms[o.value].(vt := taint[i])]) else v;
      ShadowOnlyTaint(base, v', addr, taint, i + 1);
    }
  }

  /** The taint of one byte survives a reset of an image nothing was written to. */
  lemma TaintSurvives(base: u32, g: Planes)
    requires g.Valid() && |g.mem| > 0 && !g.perms[0].vt
    ensures Restore(ShadowFrom(base, g, base, [true], 0), [], g) != g
  {
    var w := ShadowFrom(base, g, base, [true], 0);
    assert W32(base + 0) == base;
    assert w == g.(perms := g.perms[0 := g.perms[0].(vt := true)]);
    assert Restore(w, [], g).perms[0].vt;
  }
}
