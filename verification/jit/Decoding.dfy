/** Reading code: one fresh fetch-and-decode, and the straight-line chain that starts at an address
    (crates/fs-jit/src/chain.rs and lib.rs), under code bytes and a translation that stay fixed. */
module Decoding {
  import opened Words
  import opened Rv32

  /** `xlate` translates an instruction address, `ifetch` reads a half-word at a physical one;
      `golden` tells which physical pages may be cached, `ends` which kinds outside the chain subset
      end a cached run (mret, sret, ecall, ebreak, illegal). */
  datatype Code = Code(
    xlate: u32 -> Result<u32, Trap>,
    ifetch: u32 -> Result<u16, Trap>,
    expand: u16 -> Inst,
    decode: u32 -> Inst,
    golden: nat -> bool,
    ends: nat -> bool)
  {
    /** Translation keeps the low bit, and what follows an address depends on its physical address
        alone: two aliases continue alike. */
    ghost predicate Coherent() {
      && (forall va: u32 | xlate(va).Ok? :: xlate(va).value % 2 == va % 2)
      && (forall v: u32, w: u32, d: u32 | xlate(v).Ok? && xlate(v) == xlate(w) && (d == 2 || d == 4) ::
            Next(v, d) == Next(w, d))
    }

    function Next(va: u32, d: u32): Option<u32> {
      var r := xlate(W32(va + d));
      if r.Ok? then Some(r.value) else None
    }
  }

  datatype Fetched = Fetched(inst: Inst, ilen: u32, iword: u32)

  const PAGE: nat := 0x1000

  /** The instruction at `va`, whose first half-word is at `pa`, read and decoded afresh. */
  function FreshAt(c: Code, va: u32, pa: u32): Result<Fetched, Trap>
  {
    match c.ifetch(pa)
    case Err(e) => Err(e)
    case Ok(lo) =>
      if lo % 4 != 3 then Ok(Fetched(c.expand(lo), 2, lo))
      else
        match c.xlate(W32(va + 2))
        case Err(e) => Err(e)
        case Ok(hi_pa) =>
          match c.ifetch(hi_pa)
          case Err(e) => Err(e)
          case Ok(hi) => Ok(Fetched(c.decode(lo + 0x1_0000 * hi), 4, lo + 0x1_0000 * hi))
  }

  function Fresh(c: Code, va: u32): Result<Fetched, Trap>
  {
    match c.xlate(va)
    case Err(e) => Err(e)
    case Ok(pa) => FreshAt(c, va, pa)
  }

  /** The page of the second half-word, when it is not the run's page. */
  function ExtraPage(c: Code, va: u32, page: nat, f: Fetched): Option<nat>
  {
    if f.ilen == 2 then None
    else match c.Next(va, 2)
         case None => None
         case Some(p) => if p / PAGE != page then Some(p / PAGE) else None
  }

  predicate Trusted(c: Code, p: Option<nat>) { p.None? || c.golden(p.value) }

  /** What a chain does with the instruction at `(va, pa)`: end before it, end after it, or take it
      and go on at `next`. */
  datatype Link = Stop | Last(f: Fetched) | More(f: Fetched, next: u32)

  function LinkAt(c: Code, va: u32, pa: u32, page: nat): Link
  {
    match FreshAt(c, va, pa)
    case Err(_) => Stop
    case Ok(f) =>
      if !Trusted(c, ExtraPage(c, va, page, f)) then Stop
      else if IsTerminal(f.inst) then Last(f)
      else if !IsLink(f.inst) then Stop
      else
        var next := c.Next(va, f.ilen);
        if next.None? || next.value / PAGE != page then Last(f) else More(f, next.value)
  }

  /** The steps of a chain from `(va, pa)` on: at most `n` more, all starting on `page`. */
  function ChainFrom(c: Code, va: u32, pa: u32, page: nat, offset: u32, n: nat): seq<Step>
    decreases n
  {
    if n == 0 then []
    else
      match LinkAt(c, va, pa, page)
      case Stop => []
      case Last(f) => [Step(f.inst, f.ilen, offset)]
      case More(f, next) =>
        [Step(f.inst, f.ilen, offset)] +
        ChainFrom(c, W32(va + f.ilen), next, page, W32(offset + f.ilen), n - 1)
  }

  function Chain(c: Code, va: u32, pa: u32): seq<Step> { ChainFrom(c, va, pa, pa / PAGE, 0, MAX_CHAIN_LEN) }

  /** `decode_chain`. */
  method DecodeChain(c: Code, va0: u32, pa0: u32) returns (steps: seq<Step>)
    ensures steps == Chain(c, va0, pa0)
  {
    hide LinkAt, W32, FreshAt, Code.Next, ChainFrom;
    var page := pa0 / PAGE;
    steps := [];
    var va: u32, pa: u32, offset: u32 := va0, pa0, 0;
    while |steps| < MAX_CHAIN_LEN
      invariant |steps| <= MAX_CHAIN_LEN
      invariant steps + ChainFrom(c, va, pa, page, offset, MAX_CHAIN_LEN - |steps|) == Chain(c, va0, pa0)
      decreases MAX_CHAIN_LEN - |steps|
    {
      ChainNext(c, va, pa, page, offset, MAX_CHAIN_LEN - |steps|);
      match LinkAt(c, va, pa, page) {
        case Stop =>
          break;
        case Last(f) =>
          steps := steps + [Step(f.inst, f.ilen, offset)];
          return;
        case More(f, next) =>
          ghost var rest := ChainFrom(c, W32(va + f.ilen), next, page, W32(offset + f.ilen), MAX_CHAIN_LEN - |steps| - 1);
          Regroup(steps, [Step(f.inst, f.ilen, offset)], rest);
          steps := steps + [Step(f.inst, f.ilen, offset)];
          va, pa, offset := W32(va + f.ilen), next, W32(offset + f.ilen);
      }
    }
    ChainNone(c, va, pa, page, offset);
  }

  lemma ChainNone(c: Code, va: u32, pa: u32, page: nat, offset: u32)
    ensures ChainFrom(c, va, pa, page, offset, 0) == []
  {
  }

  lemma ChainNext(c: Code, va: u32, pa: u32, page: nat, offset: u32, n: nat)
    requires n > 0
    ensures ChainFrom(c, va, pa, page, offset, n) ==
      match LinkAt(c, va, pa, page)
      case Stop => []
      case Last(f) => [Step(f.inst, f.ilen, offset)]
      case More(f, next) =>
        [Step(f.inst, f.ilen, offset)] + ChainFrom(c, W32(va + f.ilen), next, page, W32(offset + f.ilen), n - 1)
  {
    hide LinkAt, W32;
  }

  lemma Regroup(a: seq<Step>, b: seq<Step>, c: seq<Step>)
    ensures a + (b + c) == a + b + c
  {
  }

  /** Step `s`, at its own address, is what a fresh fetch there gives. */
  ghost predicate Faithful(c: Code, va: u32, offset: int, s: Step)
  {
    var f := Fresh(c, W32(va + (s.offset - offset)));
    f.Ok? && f.value.inst == s.inst && f.value.ilen == s.ilen
  }

  lemma FaithfulLater(c: Code, va: u32, offset: int, d: u32, s: Step)
    ensures Faithful(c, W32(va + d), offset + d, s) == Faithful(c, va, offset, s)
  {
    hide Fresh;
    WrapShift(va, d, s.offset - offset - d);
  }

  /** Nothing can be added at the end of the chain: its last step allows no successor, or the successor is
      not taken; and an empty chain has nothing to start with. */
  ghost predicate Ended(c: Code, va: u32, pa: u32, page: nat, offset: int, s: seq<Step>)
  {
    if s == [] then LinkAt(c, va, pa, page).Stop?
    else
      var last := s[|s| - 1];
      var v := W32(va + (last.offset - offset));
      c.xlate(v).Ok? &&
      var l := LinkAt(c, v, c.xlate(v).value, page);
      l.Last? || (l.More? && LinkAt(c, W32(v + last.ilen), l.next, page).Stop?)
  }

  lemma EndedLater(c: Code, va: u32, pa: u32, page: nat, offset: int, d: u32, next: u32, s: seq<Step>)
    requires s != [] && Ended(c, W32(va + d), next, page, offset + d, s)
    ensures Ended(c, va, pa, page, offset, s)
  {
    hide LinkAt;
    WrapShift(va, d, s[|s| - 1].offset - offset - d);
  }

  lemma EndedOne(c: Code, va: u32, pa: u32, page: nat, offset: u32, s: Step)
    requires c.xlate(va) == Ok(pa) && s.offset == offset
    requires var l := LinkAt(c, va, pa, page);
      l.Last? || (l.More? && Ended(c, W32(va + s.ilen), l.next, page, offset + s.ilen, []))
    ensures Ended(c, va, pa, page, offset, [s])
  {
    hide LinkAt;
    assert W32(va + (s.offset - offset)) == va;
  }

  lemma EndedMore(c: Code, va: u32, pa: u32, page: nat, offset: u32, s: Step, next: u32, rest: seq<Step>)
    requires rest != [] && Ended(c, W32(va + s.ilen), next, page, offset + s.ilen, rest)
    ensures Ended(c, va, pa, page, offset, [s] + rest)
  {
    hide LinkAt, W32;
    EndedLater(c, va, pa, page, offset, s.ilen, next, rest);
    assert ([s] + rest)[|rest|] == rest[|rest| - 1];
  }

  /** A chain shorter than its cap ends only where it must. */
  lemma {:induction false} ChainMaximal(c: Code, va: u32, pa: u32, page: nat, offset: u32, n: nat)
    requires c.xlate(va) == Ok(pa) && offset + 4 * n < TWO32
    ensures var s := ChainFrom(c, va, pa, page, offset, n); |s| < n ==> Ended(c, va, pa, page, offset, s)
    decreases n
  {
    hide FreshAt, IsLink, IsTerminal, LinkAt, Code.Next, ChainFrom, Ended, W32;
    if n > 0 {
      LinkFacts(c, va, pa, page);
      ChainNext(c, va, pa, page, offset, n);
      match LinkAt(c, va, pa, page) {
        case Stop => EndedNow(c, va, pa, page, offset);
        case Last(f) => EndedOne(c, va, pa, page, offset, Step(f.inst, f.ilen, offset));
        case More(f, next) =>
          NextIs(c, va, f.ilen, next);
          NoWrap(offset, f.ilen);
          ChainMaximal(c, W32(va + f.ilen), next, page, offset + f.ilen, n - 1);
          var rest := ChainFrom(c, W32(va + f.ilen), next, page, offset + f.ilen, n - 1);
          if |rest| < n - 1 {
            EndedAfter(c, va, pa, page, offset, Step(f.inst, f.ilen, offset), next, rest);
          }
      }
    }
  }

  lemma EndedNow(c: Code, va: u32, pa: u32, page: nat, offset: u32)
    requires LinkAt(c, va, pa, page).Stop?
    ensures Ended(c, va, pa, page, offset, [])
  {
    hide LinkAt;
  }

  lemma EndedAfter(c: Code, va: u32, pa: u32, page: nat, offset: u32, s: Step, next: u32, rest: seq<Step>)
    requires c.xlate(va) == Ok(pa) && s.offset == offset
    requires var l := LinkAt(c, va, pa, page); l.More? && l.next == next
    requires Ended(c, W32(va + s.ilen), next, page, offset + s.ilen, rest)
    ensures Ended(c, va, pa, page, offset, [s] + rest)
  {
    hide LinkAt, W32, Ended;
    if rest == [] {
      EndedOne(c, va, pa, page, offset, s);
      assert [s] + rest == [s];
    } else {
      EndedMore(c, va, pa, page, offset, s, next, rest);
    }
  }

  lemma NextIs(c: Code, va: u32, d: u32, pa: u32)
    requires c.Next(va, d) == Some(pa)
    ensures c.xlate(W32(va + d)) == Ok(pa)
  {
  }

  lemma LinkFacts(c: Code, va: u32, pa: u32, page: nat)
    ensures var l := LinkAt(c, va, pa, page);
      && (!l.Stop? ==> FreshAt(c, va, pa) == Ok(l.f) && (l.f.ilen == 2 || l.f.ilen == 4))
      && (l.Last? ==> IsLink(l.f.inst) || IsTerminal(l.f.inst))
      && (l.More? ==> IsLink(l.f.inst) && c.Next(va, l.f.ilen) == Some(l.next))
  {
  }

  /** What a decoded chain is: contiguous steps, each one what a fresh fetch at its own address gives. */
  lemma {:induction false} ChainShape(c: Code, va: u32, pa: u32, page: nat, offset: u32, n: nat)
    requires c.xlate(va) == Ok(pa) && offset + 4 * n < TWO32
    ensures var s := ChainFrom(c, va, pa, page, offset, n);
      && |s| <= n && (s != [] ==> s[0].offset == offset) && Contiguous(s)
      && forall k | 0 <= k < |s| :: Faithful(c, va, offset, s[k])
    decreases n
  {
    hide LinkAt, FreshAt, W32, Faithful, IsLink, IsTerminal;
    var s, l := ChainFrom(c, va, pa, page, offset, n), LinkAt(c, va, pa, page);
    LinkFacts(c, va, pa, page);
    if n > 0 && !l.Stop? {
      First(c, va, pa, offset);
      if l.More? {
        var d := l.f.ilen;
        NoWrap(offset, d);
        ChainShape(c, W32(va + d), l.next, page, offset + d, n - 1);
        var rest := ChainFrom(c, W32(va + d), l.next, page, offset + d, n - 1);
        forall k | 0 <= k < |rest| ensures Faithful(c, va, offset, rest[k]) {
          FaithfulLater(c, va, offset, d, rest[k]);
        }
      }
    }
  }

  lemma First(c: Code, va: u32, pa: u32, offset: u32)
    requires c.xlate(va) == Ok(pa) && FreshAt(c, va, pa).Ok?
    ensures var f := FreshAt(c, va, pa).value; Faithful(c, va, offset, Step(f.inst, f.ilen, offset))
  {
    hide FreshAt;
    assert W32(va + 0) == va;
  }

  lemma NoWrap(a: u32, d: u32)
    requires a + d < TWO32
    ensures W32(a + d) == a + d
  {
  }

  lemma WrapShift(va: u32, d: u32, e: int)
    ensures W32(va + (d + e)) == W32(W32(va + d) + e)
  {
    var q := (va + d) / TWO32;
    assert W32(va + d) + e == va + (d + e) - TWO32 * q;
    Cycles(va + (d + e), q);
  }

  lemma Cycles(x: int, q: int)
    ensures W32(x - TWO32 * q) == W32(x)
  {
  }

  lemma ChainValid(c: Code, va: u32, pa: u32)
    requires c.xlate(va) == Ok(pa) && Chain(c, va, pa) != []
    ensures ValidChain(Chain(c, va, pa))
    ensures forall s | s in Chain(c, va, pa) :: !s.inst.Other?
  {
    ChainShape(c, va, pa, pa / PAGE, 0, MAX_CHAIN_LEN);
  }

  /** Aliases of one physical address decode alike; faults alone may report different addresses. */
  lemma LinkAlias(c: Code, v: u32, w: u32, pa: u32, page: nat)
    requires c.Coherent() && c.xlate(v) == c.xlate(w) == Ok(pa)
    ensures LinkAt(c, v, pa, page) == LinkAt(c, w, pa, page)
    ensures FreshAt(c, v, pa).Ok? ==> FreshAt(c, v, pa) == FreshAt(c, w, pa)
  {
    assert c.Next(v, 2) == c.Next(w, 2) && c.Next(v, 4) == c.Next(w, 4);
  }

  lemma {:induction false} ChainAlias(c: Code, v: u32, w: u32, pa: u32, page: nat, offset: u32, n: nat)
    requires c.Coherent() && c.xlate(v) == c.xlate(w) == Ok(pa)
    ensures ChainFrom(c, v, pa, page, offset, n) == ChainFrom(c, w, pa, page, offset, n)
    decreases n
  {
    hide LinkAt, W32;
    var l := LinkAt(c, v, pa, page);
    LinkAlias(c, v, w, pa, page);
    LinkFacts(c, v, pa, page);
    LinkFacts(c, w, pa, page);
    if n > 0 && l.More? {
      ChainAlias(c, W32(v + l.f.ilen), W32(w + l.f.ilen), l.next, page, W32(offset + l.f.ilen), n - 1);
    }
  }
}
