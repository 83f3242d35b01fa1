/** What a checked access consults and what it leaves behind, with the permission bits written out
    (crates/fs-mmu/src/lib.rs). */
module Checks {
  import opened Words
  import opened GuestMemory
  import opened Runs
  import RamBus
  import Rv32

  /** Where byte `i` of a span is, relative to the window. */
  function At(base: u32, addr: u32, i: nat): int { (addr + i) % TWO32 - base }

  predicate InWindow(base: u32, v: Planes, addr: u32, i: nat) { 0 <= At(base, addr, i) < |v.mem| }

  /** Reads consult the read bit, writes the write bit, fetches the execute bit, and nothing else. */
  predicate May(base: u32, v: Planes, addr: u32, i: nat, access: Access)
    requires |v.mem| == |v.perms|
  {
    InWindow(base, v, addr, i) &&
    var p := v.perms[At(base, addr, i)];
    match access case ReadAccess => p.r case WriteAccess => p.w case ExecAccess => p.x
  }

  /** The fault of a span whose byte `i` denies. */
  function Denial(base: u32, v: Planes, addr: u32, n: nat, i: nat, access: Access): Fault
  {
    Fault((addr + i) % TWO32, n, access, if InWindow(base, v, addr, i) then Permission else Unmapped)
  }

  lemma LocateMeans(base: u32, v: Planes, addr: u32, n: nat, i: nat, access: Access)
    requires v.Valid()
    ensures Locate(base, v, W32(addr + i), n, access) ==
      if May(base, v, addr, i, access) then Ok(At(base, addr, i)) else Err(Denial(base, v, addr, n, i, access))
  {
  }

  /** The answer of a read or fetch: every byte, or the fault of the first that denies. */
  ghost predicate ReadLaw(base: u32, v: Planes, addr: u32, n: nat, i: nat, access: Access, r: Result<seq<u8>, Fault>)
    requires v.Valid() && i <= n
  {
    match r
    case Ok(s) =>
      |s| == n - i && forall j | i <= j < n :: May(base, v, addr, j, access) && s[j - i] == v.mem[At(base, addr, j)]
    case Err(f) =>
      exists j :: i <= j < n && !May(base, v, addr, j, access) && f == Denial(base, v, addr, n, j, access) &&
                  forall k | i <= k < j :: May(base, v, addr, k, access)
  }

  lemma {:induction false} ReadFromMeans(base: u32, v: Planes, addr: u32, n: nat, i: nat, access: Access)
    requires v.Valid() && i <= n
    ensures ReadLaw(base, v, addr, n, i, access, ReadFrom(base, v, addr, n, i, access))
    decreases n - i
  {
    hide W32, Locate, May, Denial;
    if i < n {
      LocateMeans(base, v, addr, n, i, access);
      if May(base, v, addr, i, access) {
        ReadFromMeans(base, v, addr, n, i + 1, access);
        assert 0 <= At(base, addr, i) < |v.mem| by { MayInside(base, v, addr, i, access); }
        ReadLess(base, v, addr, n, i, access, ReadFrom(base, v, addr, n, i + 1, access));
      }
    }
  }

  lemma MayInside(base: u32, v: Planes, addr: u32, i: nat, access: Access)
    requires v.Valid() && May(base, v, addr, i, access)
    ensures InWindow(base, v, addr, i)
  {
  }

  lemma ReadLess(base: u32, v: Planes, addr: u32, n: nat, i: nat, access: Access, r: Result<seq<u8>, Fault>)
    requires v.Valid() && i < n && May(base, v, addr, i, access) && InWindow(base, v, addr, i)
    requires ReadLaw(base, v, addr, n, i + 1, access, r)
    ensures ReadLaw(base, v, addr, n, i, access, After([v.mem[At(base, addr, i)]], r))
  {
    hide Denial, At;
    if r.Ok? {
      var s := [v.mem[At(base, addr, i)]] + r.value;
      forall j | i <= j < n ensures May(base, v, addr, j, access) && s[j - i] == v.mem[At(base, addr, j)] {
        if j > i {
          assert s[j - i] == r.value[j - (i + 1)];
        }
      }
    } else {
      var j :| i + 1 <= j < n && !May(base, v, addr, j, access) && r.error == Denial(base, v, addr, n, j, access) &&
               forall k | i + 1 <= k < j :: May(base, v, addr, k, access);
      forall k | i <= k < j ensures May(base, v, addr, k, access) {
      }
    }
  }

  /** A read or fetch returns every byte it may, or reports the first it may not. */
  lemma ReadMeans(base: u32, v: Planes, addr: u32, n: nat, access: Access)
    requires v.Valid()
    ensures ReadLaw(base, v, addr, n, 0, access, Read(base, v, addr, n, access))
  {
    ReadFromMeans(base, v, addr, n, 0, access);
  }

  /** A fetch succeeds iff every byte is mapped and executable, readable or not. */
  lemma FetchIff(base: u32, v: Planes, addr: u32, n: nat)
    requires v.Valid()
    ensures Read(base, v, addr, n, ExecAccess).Ok? <==>
      forall i | 0 <= i < n :: InWindow(base, v, addr, i) && v.perms[At(base, addr, i)].x
  {
    hide Read, At;
    ReadMeans(base, v, addr, n, ExecAccess);
  }

  lemma LoadIff(base: u32, v: Planes, addr: u32, n: nat)
    requires v.Valid()
    ensures Read(base, v, addr, n, ReadAccess).Ok? <==>
      forall i | 0 <= i < n :: InWindow(base, v, addr, i) && v.perms[At(base, addr, i)].r
  {
    hide Read, At;
    ReadMeans(base, v, addr, n, ReadAccess);
  }

  // ----- writes -----

  /** How many bytes from the `i`th on may be written in a row: a write commits exactly these. */
  function Reach(base: u32, v: Planes, addr: u32, n: nat, i: nat): (j: nat)
    requires v.Valid() && i <= n
    ensures i <= j <= n
    decreases n - i
  {
    if i < n && May(base, v, addr, i, WriteAccess) then Reach(base, v, addr, n, i + 1) else i
  }

  lemma {:induction false} ReachMeans(base: u32, v: Planes, addr: u32, n: nat, i: nat)
    requires v.Valid() && i <= n
    ensures var j := Reach(base, v, addr, n, i);
      (forall k | i <= k < j :: May(base, v, addr, k, WriteAccess)) && (j < n ==> !May(base, v, addr, j, WriteAccess))
    decreases n - i
  {
    hide May;
    if i < n && May(base, v, addr, i, WriteAccess) {
      ReachMeans(base, v, addr, n, i + 1);
    }
  }

  /** The last of the bytes `i..j` that lands on byte `k`. */
  ghost predicate LandsLast(base: u32, addr: u32, i: nat, j: nat, k: nat, x: nat)
  {
    i <= x < j && At(base, addr, x) == k && forall y | x < y < j :: At(base, addr, y) != k
  }

  ghost predicate Missed(base: u32, addr: u32, i: nat, j: nat, k: nat) { forall x | i <= x < j :: At(base, addr, x) != k }

  /** Byte `k` after a write that committed `data[i..j]`: the last byte to land there, now readable and no
      longer raw and with its other bits kept; or as it was. */
  ghost predicate WrittenAt(base: u32, v: Planes, w: Planes, addr: u32, data: seq<u8>, i: nat, j: nat, k: nat)
    requires v.Valid() && w.Valid() && |w.mem| == |v.mem| && k < |v.mem| && i <= j <= |data|
  {
    && (forall x: nat | LandsLast(base, addr, i, j, k, x) :: w.mem[k] == data[x])
    && (Missed(base, addr, i, j, k) ==> w.mem[k] == v.mem[k] && w.perms[k] == v.perms[k])
    && (!Missed(base, addr, i, j, k) ==>
          var p, q := v.perms[k], w.perms[k];
          q.r && !q.raw && q.w == p.w && q.x == p.x && q.acc == p.acc && q.vt == p.vt)
  }

  lemma SameMay(base: u32, v: Planes, w: Planes, addr: u32, n: nat, i: nat)
    requires v.Valid() && w.Valid() && |w.mem| == |v.mem| && i <= n
    requires forall k | 0 <= k < |v.mem| :: w.perms[k].w == v.perms[k].w
    ensures Reach(base, w, addr, n, i) == Reach(base, v, addr, n, i)
    decreases n - i
  {
    if i < n && May(base, v, addr, i, WriteAccess) {
      SameMay(base, v, w, addr, n, i + 1);
    }
  }

  lemma {:induction false} WriteFromMeans(base: u32, v: Planes, addr: u32, data: seq<u8>, i: nat, k: nat)
    requires v.Valid() && i <= |data| && k < |v.mem|
    ensures WrittenAt(base, v, WriteFrom(base, v, addr, data, i).0, addr, data, i, Reach(base, v, addr, |data|, i), k)
    decreases |data| - i
  {
    hide W32, Locate, May, Denial, WrittenAt;
    var w, j := WriteFrom(base, v, addr, data, i).0, Reach(base, v, addr, |data|, i);
    if i < |data| {
      LocateMeans(base, v, addr, |data|, i, WriteAccess);
      if May(base, v, addr, i, WriteAccess) {
        MayInside(base, v, addr, i, WriteAccess);
        var off := At(base, addr, i);
        var u := Put(v, off, data[i]);
        SameMay(base, v, u, addr, |data|, i + 1);
        WriteFromMeans(base, u, addr, data, i + 1, k);
        WrittenMore(base, v, w, addr, data, i, j, k);
      } else {
        WrittenNone(base, v, addr, data, i, k);
      }
    } else {
      WrittenNone(base, v, addr, data, i, k);
    }
  }

  lemma SameDenial(base: u32, v: Planes, u: Planes, addr: u32, n: nat, j: nat)
    requires |u.mem| == |v.mem|
    ensures Denial(base, u, addr, n, j, WriteAccess) == Denial(base, v, addr, n, j, WriteAccess)
  {
  }

  lemma WrittenNone(base: u32, v: Planes, addr: u32, data: seq<u8>, i: nat, k: nat)
    requires v.Valid() && i <= |data| && k < |v.mem|
    ensures WrittenAt(base, v, v, addr, data, i, i, k)
  {
    assert Missed(base, addr, i, i, k);
  }

  lemma WrittenMore(base: u32, v: Planes, w: Planes, addr: u32, data: seq<u8>, i: nat, j: nat, k: nat)
    requires v.Valid() && w.Valid() && |w.mem| == |v.mem| && k < |v.mem| && i < j <= |data| && InWindow(base, v, addr, i)
    requires WrittenAt(base, Put(v, At(base, addr, i), data[i]), w, addr, data, i + 1, j, k)
    ensures WrittenAt(base, v, w, addr, data, i, j, k)
  {
    hide At;
    var off := At(base, addr, i);
    assert Missed(base, addr, i, j, k) <==> off != k && Missed(base, addr, i + 1, j, k);
    forall x: nat | LandsLast(base, addr, i, j, k, x) ensures w.mem[k] == data[x] {
      if x > i {
        assert LandsLast(base, addr, i + 1, j, k, x);
      } else {
        assert Missed(base, addr, i + 1, j, k);
      }
    }
  }

  /** A write commits the longest prefix of bytes it may write, and faults at the first it may not; a byte
      it reaches holds the last data to land there and becomes readable and no longer raw, keeping its other
      bits; no other byte changes. */
  lemma WriteMeans(base: u32, v: Planes, addr: u32, data: seq<u8>)
    requires v.Valid()
    ensures var (w, e), j := Write(base, v, addr, data), Reach(base, v, addr, |data|, 0);
      && (forall x: nat | x < j :: InWindow(base, v, addr, x) && v.perms[At(base, addr, x)].w)
      && (j < |data| ==> !(InWindow(base, v, addr, j) && v.perms[At(base, addr, j)].w))
      && e == (if j == |data| then None else Some(Denial(base, v, addr, |data|, j, WriteAccess)))
      && forall k | 0 <= k < |v.mem| :: WrittenAt(base, v, w, addr, data, 0, j, k)
  {
    hide WrittenAt, Denial, At, WriteFrom;
    ReachMeans(base, v, addr, |data|, 0);
    forall x: nat | x < Reach(base, v, addr, |data|, 0) ensures InWindow(base, v, addr, x) && v.perms[At(base, addr, x)].w {
      assert May(base, v, addr, x, WriteAccess);
    }
    forall k | 0 <= k < |v.mem| ensures WrittenAt(base, v, Write(base, v, addr, data).0, addr, data, 0, Reach(base, v, addr, |data|, 0), k) {
      WriteFromMeans(base, v, addr, data, 0, k);
    }
    WriteFromFault(base, v, addr, data, 0);
    assert Write(base, v, addr, data) == WriteFrom(base, v, addr, data, 0) by { WriteIs(base, v, addr, data); }
  }

  lemma WriteIs(base: u32, v: Planes, addr: u32, data: seq<u8>)
    requires v.Valid()
    ensures Write(base, v, addr, data) == WriteFrom(base, v, addr, data, 0)
  {
  }

  lemma {:induction false} WriteFromFault(base: u32, v: Planes, addr: u32, data: seq<u8>, i: nat)
    requires v.Valid() && i <= |data|
    ensures var j := Reach(base, v, addr, |data|, i);
      WriteFrom(base, v, addr, data, i).1 == if j == |data| then None else Some(Denial(base, v, addr, |data|, j, WriteAccess))
    decreases |data| - i
  {
    hide W32, Locate, May, Denial;
    if i < |data| {
      LocateMeans(base, v, addr, |data|, i, WriteAccess);
      if May(base, v, addr, i, WriteAccess) {
        MayInside(base, v, addr, i, WriteAccess);
        var u := Put(v, At(base, addr, i), data[i]);
        SameMay(base, v, u, addr, |data|, i + 1);
        SameDenial(base, v, u, addr, |data|, Reach(base, v, addr, |data|, i));
        WriteFromFault(base, u, addr, data, i + 1);
      }
    }
  }

  // ----- direct access, raw state, sized access -----

  /** A fast location is given iff the span lies in the window and each byte is readable, writable too when
      asked for a store, and neither raw nor watched. */
  lemma FastIff(base: u32, v: Planes, addr: u32, n: nat, forStore: bool)
    requires v.Valid()
    ensures FastOpen(base, v, addr, n, forStore) <==>
      base <= addr < base + |v.mem| && addr + n <= base + |v.mem| &&
      forall k | addr - base <= k < addr - base + n ::
        v.perms[k].r && !v.perms[k].raw && !v.perms[k].acc && (!forStore || v.perms[k].w)
  {
  }

  /** The raw-state query marks a byte iff it is mapped and never written or tainted. */
  lemma RawIff(base: u32, v: Planes, addr: u32, n: nat, i: nat)
    requires v.Valid() && i < n
    ensures RawState(base, v, addr, n)[i] <==>
      InWindow(base, v, addr, i) && (v.perms[At(base, addr, i)].raw || v.perms[At(base, addr, i)].vt)
  {
    var o := Offset(base, |v.mem|, W32(addr + i));
    assert RawState(base, v, addr, n)[i] == (o.Some? && (v.perms[o.value].raw || v.perms[o.value].vt));
  }

  /** A sized load is refused when unaligned, and is little-endian otherwise. */
  lemma SizedLoad(base: u32, v: Planes, addr: u32, size: nat, access: Access)
    requires v.Valid() && (size == 1 || size == 2 || size == 4)
    ensures var r, s := LoadSized(base, v, addr, size, access), Read(base, v, addr, size, access);
      if addr % size != 0 then r == Err(Fault(addr, size, access, Unaligned))
      else if s.Err? then r == Err(s.error)
      else
        r.Ok? && |s.value| == size &&
        r.value == Byte(s.value, 0) + (if size > 1 then 0x100 * Byte(s.value, 1) else 0) +
                   (if size > 2 then 0x1_0000 * Byte(s.value, 2) + 0x100_0000 * Byte(s.value, 3) else 0)
  {
    hide Read, FromLe;
    var s := Read(base, v, addr, size, access);
    if addr % size == 0 && s.Ok? {
      LittleEnd(s.value);
    }
  }

  lemma LittleEnd(s: seq<u8>)
    requires |s| == 1 || |s| == 2 || |s| == 4
    ensures FromLe(s) == Byte(s, 0) + (if |s| > 1 then 0x100 * Byte(s, 1) else 0) +
                         (if |s| > 2 then 0x1_0000 * Byte(s, 2) + 0x100_0000 * Byte(s, 3) else 0)
    ensures FromLe(s) < TWO32
  {
    hide FromLe;
    FirstByte(s);
    NoBytes(s[|s|..]);
    if |s| > 1 {
      FirstByte(s[1..]);
      assert s[1..][1..] == s[2..];
    }
    if |s| > 2 {
      FirstByte(s[2..]);
      FirstByte(s[3..]);
      assert s[2..][1..] == s[3..] && s[3..][1..] == s[4..];
    }
  }

  function Byte(s: seq<u8>, i: nat): int
    requires i < |s|
  {
    s[i]
  }

  lemma FirstByte(s: seq<u8>)
    requires s != []
    ensures FromLe(s) == Byte(s, 0) + 0x100 * FromLe(s[1..])
  {
  }

  lemma NoBytes(s: seq<u8>)
    requires s == []
    ensures FromLe(s) == 0
  {
  }

  /** Storing a value and loading it back gives its low bytes, wherever the store was not refused. */
  lemma StoreThenLoad(base: u32, v: Planes, addr: u32, size: nat, val: u32)
    requires v.Valid() && Window(base, |v.mem|) && (size == 1 || size == 2 || size == 4)
    requires StoreSized(base, v, addr, size, val).1.None?
    ensures LoadSized(base, StoreSized(base, v, addr, size, val).0, addr, size, ReadAccess) ==
      Ok(if size == 1 then val % 0x100 else if size == 2 then val % 0x1_0000 else val)
  {
    hide Read, Write, Le, FromLe, W32;
    var data := Le(val, size);
    StoredOpen(base, v, addr, size, data);
    WriteBack(base, v, addr, data);
    RamBus.LeLow(val, size);
    LeWidths();
    var low := Rv32.LowBytes(val, size);
    LeRoundTrip(low, size);
    assert low < TWO32 && W32(low) == low by { InRange(low); }
  }

  lemma InRange(x: u32)
    ensures W32(x) == x
  {
  }

  /** A write of a few aligned bytes that is not refused found them all writable in a row. */
  lemma StoredOpen(base: u32, v: Planes, addr: u32, size: nat, data: seq<u8>)
    requires v.Valid() && Window(base, |v.mem|) && (size == 1 || size == 2 || size == 4) && addr % size == 0 && |data| == size
    requires Write(base, v, addr, data).1.None?
    ensures Open(base, v, addr, size, WriteAccess)
  {
    hide Write, At, Denial;
    WriteMeans(base, v, addr, data);
    var j := Reach(base, v, addr, size, 0);
    assert j == size;
    forall i: nat | i < size ensures At(base, addr, i) == addr - base + i {
      NoWrap(base, addr, size, i);
    }
    assert InWindow(base, v, addr, 0);
    forall k | addr - base <= k < addr - base + size ensures 0 <= k < |v.mem| && Allows(v.perms[k], WriteAccess) {
      var i: nat := k - (addr - base);
      assert InWindow(base, v, addr, i) && v.perms[At(base, addr, i)].w;
    }
  }

  lemma NoWrap(base: u32, addr: u32, size: nat, i: nat)
    requires (size == 1 || size == 2 || size == 4) && addr % size == 0 && i < size
    ensures At(base, addr, i) == addr - base + i
  {
    assert addr + i < TWO32;
  }

  lemma WriteBack(base: u32, v: Planes, addr: u32, data: seq<u8>)
    requires Open(base, v, addr, |data|, WriteAccess)
    ensures Write(base, v, addr, data).1.None? && Read(base, Write(base, v, addr, data).0, addr, |data|, ReadAccess) == Ok(data)
  {
    hide W32, WriteFrom, ReadFrom;
    var off := addr - base;
    WriteOpen(base, v, addr, data, 0);
    assert data[0..] == data;
    var w := Splice(v, off, data);
    SpliceAt(v, off, data);
    forall k | off <= k < off + |data| ensures Allows(w.perms[k], ReadAccess) {
      assert w.perms[off + (k - off)] == Upgrade(v.perms[off + (k - off)]);
    }
    ReadOpen(base, w, addr, |data|, 0, ReadAccess);
    forall k | 0 <= k < |data| ensures w.mem[off..off + |data|][k] == data[k] {
      assert w.mem[off + k] == data[k];
    }
  }

  ghost predicate RawLaw(base: u32, v: Planes, addr: u32, n: nat, m: seq<bool>)
    requires v.Valid()
  {
    |m| == n &&
    forall i | 0 <= i < n :: m[i] <==> InWindow(base, v, addr, i) && (v.perms[At(base, addr, i)].raw || v.perms[At(base, addr, i)].vt)
  }

  lemma RawAll(base: u32, v: Planes, addr: u32, n: nat)
    requires v.Valid()
    ensures RawLaw(base, v, addr, n, RawState(base, v, addr, n))
  {
    hide RawState;
    forall i | 0 <= i < n
      ensures RawState(base, v, addr, n)[i] <==>
        InWindow(base, v, addr, i) && (v.perms[At(base, addr, i)].raw || v.perms[At(base, addr, i)].vt)
    {
      RawIff(base, v, addr, n, i);
    }
  }

  /** What an operation of a run consults, leaves and answers. */
  ghost predicate OpLaw(base: u32, g: Planes, v: Planes, op: Op, w: Planes, a: Answer)
    requires v.Valid() && SizeOk(op)
  {
    match op
    case ReadOp(x, n) => w == v && a.Bytes? && ReadLaw(base, v, x, n, 0, ReadAccess, a.r)
    case FetchOp(x, n) => w == v && a.Bytes? && ReadLaw(base, v, x, n, 0, ExecAccess, a.r)
    case WriteOp(x, data) => (w, a) == (Write(base, v, x, data).0, Done(Write(base, v, x, data).1))
    case FastWriteOp(x, data) => (w, a) == (Write(base, v, x, data).0, Done(Write(base, v, x, data).1))
    case StoreOp(x, n, val) =>
      if x % n != 0 then (w, a) == (v, Done(Some(Fault(x, n, WriteAccess, Unaligned))))
      else (w, a) == (Write(base, v, x, Le(val, n)).0, Done(Write(base, v, x, Le(val, n)).1))
    case ShadowOp(x, t) => w == ShadowFrom(base, v, x, t, 0) && a == Done(None)
    case RawOp(x, n) => w == v && a.Mask? && RawLaw(base, v, x, n, a.m)
    case ResetOp => w == g && a == Done(None)
  }

  lemma AnswersMean(base: u32, g: Planes, v: Planes, op: Op)
    requires v.Valid() && g.Valid() && |v.mem| == |g.mem| && SizeOk(op)
    ensures OpLaw(base, g, v, op, Do(base, g, v, op).0, Do(base, g, v, op).1)
  {
    hide Read, Write, RawState, ReadLaw, RawLaw;
    if op.ReadOp? {
      ReadMeans(base, v, op.addr, op.len, ReadAccess);
    } else if op.FetchOp? {
      ReadMeans(base, v, op.addr, op.len, ExecAccess);
    } else if op.RawOp? {
      RawAll(base, v, op.addr, op.len);
    }
  }
}
