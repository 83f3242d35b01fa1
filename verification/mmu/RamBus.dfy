/** The soft-MMU as the memory behind native code: fast locations keep the promise the chain compiler's
    correctness rests on. */
module RamBus {
  import opened Words
  import opened GuestMemory
  import opened Rv32

  type Image = v: Planes | v.Valid() witness Planes([], [])

  datatype Ram = Ram(v: Image, dirty: seq<nat>)

  /** Faults as the traps the hart would see. */
  function TrapOf(f: Fault): Trap
  {
    Rv32.Trap(match f.access
              case ReadAccess => if f.kind.Unaligned? then 4 else 5
              case WriteAccess => if f.kind.Unaligned? then 6 else 7
              case ExecAccess => if f.kind.Unaligned? then 0 else 1,
              f.addr)
  }

  function Load(base: u32, m: Ram, a: u32, n: nat): (Ram, Result<u32, Trap>)
  {
    if !Sized(n) then (m, Ok(0))
    else match LoadSized(base, m.v, a, n, ReadAccess)
         case Err(f) => (m, Err(TrapOf(f)))
         case Ok(x) => (m, Ok(x))
  }

  function Store(base: u32, m: Ram, a: u32, n: nat, x: u32): (Ram, Option<Trap>)
  {
    if !Sized(n) then (m, None)
    else
      var (w, e) := StoreSized(base, m.v, a, n, x);
      var d := if a % n == 0 then DirtyFrom(base, m.v, a, Le(x, n), 0, m.dirty) else m.dirty;
      (Ram(w, d), if e.Some? then Some(TrapOf(e.value)) else None)
  }

  predicate Fits(base: u32, m: Ram, a: u32, n: nat, forStore: bool)
  {
    && base + |m.v.mem| <= TWO32 && base <= a && a - base < |m.v.mem| && a - base + n <= |m.v.mem|
    && forall k | a - base <= k < a - base + n :: Trivial(m.v.perms[k], forStore)
  }

  function FastLoad(base: u32, m: Ram, a: u32, n: nat): Option<nat>
  {
    if Fits(base, m, a, n, false) then Some(a - base) else None
  }

  function FastStore(base: u32, m: Ram, a: u32, n: nat): (Ram, Option<nat>)
  {
    if Fits(base, m, a, n, true) then (m.(dirty := MarkBytes(m.dirty, a - base, n)), Some(a - base)) else (m, None)
  }

  function Peek(m: Ram, p: nat, n: nat): u32
  {
    if p + n <= |m.v.mem| then W32(FromLe(m.v.mem[p..p + n])) else 0
  }

  function PokeRam(m: Ram, p: nat, n: nat, x: u32): Ram
  {
    if p + n <= |m.v.mem| then m.(v := Poke(m.v, p, Le(x, n))) else m
  }

  function RamBus(base: u32): Bus<Ram>
  {
    Bus((m: Ram, a, n) => Load(base, m, a, n), (m: Ram, a, n, x) => Store(base, m, a, n, x),
        (m: Ram, a, n) => FastLoad(base, m, a, n), (m: Ram, a, n) => FastStore(base, m, a, n),
        (m: Ram, p, n) => Peek(m, p, n), (m: Ram, p, n, x) => PokeRam(m, p, n, x), (a: u32, n: nat) => false)
  }

  lemma {:induction false} FromLeBound(s: seq<u8>)
    ensures FromLe(s) < Pow256(|s|)
    decreases |s|
  {
    if s != [] {
      FromLeBound(s[1..]);
    }
  }

  lemma LowIsAll(s: seq<u8>)
    requires Sized(|s|)
    ensures LowBytes(W32(FromLe(s)), |s|) == W32(FromLe(s))
  {
    FromLeBound(s);
    LeWidths();
  }

  lemma LeLow(x: u32, n: nat)
    requires Sized(n)
    ensures Le(LowBytes(x, n), n) == Le(x, n)
  {
    hide Le;
    if n == 2 {
      TwoBytes(x);
      TwoBytes(x % 0x1_0000);
      LowHalves(x);
    } else if n == 1 {
      OneByte(x);
      OneByte(x % 0x100);
    }
  }

  lemma OneByte(x: nat)
    ensures Le(x, 1) == [x % 256]
  {
  }

  lemma TwoBytes(x: nat)
    ensures Le(x, 2) == [x % 256, x / 256 % 256]
  {
    hide Le;
    assert Le(x, 2) == [x % 256] + Le(x / 256, 1) by { NextByte(x, 2); }
    OneByte(x / 256);
  }

  lemma NextByte(x: nat, n: nat)
    requires n > 0
    ensures Le(x, n) == [x % 256] + Le(x / 256, n - 1)
  {
  }

  lemma LowHalves(x: nat)
    ensures x % 0x1_0000 % 256 == x % 256 && x % 0x1_0000 / 256 % 256 == x / 256 % 256
  {
    var q, h, l := x / 0x1_0000, x % 0x1_0000 / 256, x % 0x1_0000 % 256;
    Rest256(x, 256 * q + h, l);
    Rest256(256 * q + h, q, h);
  }

  lemma Rest256(x: nat, k: nat, l: nat)
    requires x == 256 * k + l && l < 256
    ensures x / 256 == k && x % 256 == l
  {
  }

  lemma FastLoadLawful(base: u32, m: Ram, a: u32, n: nat)
    requires Sized(n) && a % n == 0 && FastLoad(base, m, a, n).Some?
    ensures Load(base, m, a, n) == (m, Ok(LowBytes(Peek(m, FastLoad(base, m, a, n).value, n), n)))
  {
    hide Read, W32, FromLe;
    FastIsChecked(base, m.v, a, Le(0, n));
    LowIsAll(m.v.mem[a - base..a - base + n]);
  }

  lemma FastStoreLawful(base: u32, m: Ram, a: u32, n: nat, x: u32)
    requires Sized(n) && a % n == 0 && FastStore(base, m, a, n).1.Some?
    ensures var (w, p) := FastStore(base, m, a, n);
      Store(base, m, a, n, x) == (PokeRam(w, p.value, n, LowBytes(x, n)), None)
  {
    hide Write, DirtyFrom, MarkBytes, Poke, Le, LowBytes;
    FastIsChecked(base, m.v, a, Le(x, n));
    TrivialOpen(base, m.v, a, n);
    DirtyOpen(base, m.v, a, Le(x, n), 0, m.dirty);
    LeLow(x, n);
  }

  /** What `ChainTheorem` asks of a bus, the soft-MMU gives. */
  lemma RamLawful(base: u32)
    ensures Lawful(RamBus(base))
  {
    hide Load, Store, FastLoad, FastStore, Peek, PokeRam, LowBytes;
    var b := RamBus(base);
    forall m: Ram, a: u32, n: nat | Sized(n) && a % n == 0 && b.fastLoad(m, a, n).Some?
      ensures b.load(m, a, n) == (m, Ok(LowBytes(b.peek(m, b.fastLoad(m, a, n).value, n), n)))
    {
      FastLoadLawful(base, m, a, n);
    }
    forall m: Ram, a: u32, n: nat | Sized(n) && a % n == 0 && b.fastStore(m, a, n).1.None?
      ensures b.fastStore(m, a, n).0 == m
    {
      Declined(base, m, a, n);
    }
    forall m: Ram, a: u32, n: nat, x: u32 | Sized(n) && a % n == 0 && b.fastStore(m, a, n).1.Some?
      ensures !b.mayAssert(a, n) && b.store(m, a, n, x) ==
        (b.poke(b.fastStore(m, a, n).0, b.fastStore(m, a, n).1.value, n, LowBytes(x, n)), None)
    {
      FastStoreLawful(base, m, a, n, x);
    }
  }

  lemma Declined(base: u32, m: Ram, a: u32, n: nat)
    ensures FastStore(base, m, a, n).1.None? ==> FastStore(base, m, a, n).0 == m
  {
  }

  /** What the MMU denies traps as a load or store access fault with the denied address, an unaligned access as a
      misaligned one, and a denied load changes nothing. */
  lemma RamFaults(base: u32, m: Ram, a: u32, n: nat, x: u32)
    requires Sized(n)
    ensures var r, e := LoadSized(base, m.v, a, n, ReadAccess), StoreSized(base, m.v, a, n, x).1;
      && RamBus(base).load(m, a, n) == (m, if r.Ok? then Ok(r.value) else Err(Rv32.Trap(if a % n != 0 then 4 else 5, r.error.addr)))
      && RamBus(base).store(m, a, n, x).1 == (if e.None? then None else Some(Rv32.Trap(if a % n != 0 then 6 else 7, e.value.addr)))
      && RamBus(base).store(m, a, n, x).0.v == StoreSized(base, m.v, a, n, x).0
  {
    hide LoadSized, StoreSized;
    FaultKinds(base, m.v, a, n, x);
  }

  lemma FaultKinds(base: u32, v: Planes, a: u32, n: nat, x: u32)
    requires v.Valid() && Sized(n)
    ensures var r, e := LoadSized(base, v, a, n, ReadAccess), StoreSized(base, v, a, n, x).1;
      (r.Err? ==> r.error.access == ReadAccess && (r.error.kind.Unaligned? <==> a % n != 0)) &&
      (e.Some? ==> e.value.access == WriteAccess && (e.value.kind.Unaligned? <==> a % n != 0))
  {
    hide ReadFrom, WriteFrom;
    ReadKind(base, v, a, n, 0);
    WriteKind(base, v, a, Le(x, n), 0);
  }

  lemma {:induction false} ReadKind(base: u32, v: Planes, a: u32, n: nat, i: nat)
    requires v.Valid() && i <= n
    ensures var r := ReadFrom(base, v, a, n, i, ReadAccess); r.Err? ==> r.error.access == ReadAccess && !r.error.kind.Unaligned?
    decreases n - i
  {
    hide W32;
    if i < n {
      ReadKind(base, v, a, n, i + 1);
    }
  }

  lemma {:induction false} WriteKind(base: u32, v: Planes, a: u32, data: seq<u8>, i: nat)
    requires v.Valid() && i <= |data|
    ensures var e := WriteFrom(base, v, a, data, i).1; e.Some? ==> e.value.access == WriteAccess && !e.value.kind.Unaligned?
    decreases |data| - i
  {
    hide W32;
    if i < |data| {
      var at := Locate(base, v, W32(a + i), |data|, WriteAccess);
      if at.Ok? {
        WriteKind(base, Put(v, at.value, data[i]), a, data, i + 1);
      }
    }
  }
}
