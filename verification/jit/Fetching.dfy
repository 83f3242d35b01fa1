/** How an instruction is read and where a chain's bytes lie (crates/fs-jit/src/lib.rs and chain.rs). */
module Fetching {
  import opened Words
  import opened Rv32
  import opened Decoding

  /** A compressed instruction is its half-word, expanded; any other is the half-word here and, above it, the
      one at the translation of the address two further on. What cannot be read or translated is reported. */
  lemma FetchMeans(c: Code, va: u32, pa: u32)
    ensures var r, lo, hi := FreshAt(c, va, pa), c.ifetch(pa), c.xlate((va + 2) % TWO32);
      && (lo.Err? ==> r == Err(lo.error))
      && (lo.Ok? && lo.value % 4 != 3 ==> r == Ok(Fetched(c.expand(lo.value), 2, lo.value)))
      && (lo.Ok? && lo.value % 4 == 3 && hi.Err? ==> r == Err(hi.error))
      && (lo.Ok? && lo.value % 4 == 3 && hi.Ok? ==>
            match c.ifetch(hi.value)
            case Err(e) => r == Err(e)
            case Ok(h) =>
              r.Ok? && r.value.ilen == 4 && r.value.inst == c.decode(r.value.iword) &&
              r.value.iword % 0x1_0000 == lo.value && r.value.iword / 0x1_0000 == h)
  {
  }

  /** The instruction at a place can be in a chain: it is read, its second half, if it lies on another page, is
      on one that never changes, and it is straight-line arithmetic, a load or store, or a jump or branch. */
  ghost predicate CanChain(c: Code, va: u32, pa: u32, page: nat)
  {
    var r, hi := FreshAt(c, va, pa), c.xlate((va + 2) % TWO32);
    && r.Ok?
    && (r.value.ilen == 4 && hi.Ok? && hi.value / PAGE != page ==> c.golden(hi.value / PAGE))
    && (match r.value.inst
        case Lui(_, _) => true case Auipc(_, _) => true case OpImm(_, _, _, _) => true case Op(_, _, _, _) => true
        case Fence => true case Load(_, _, _, _) => true case Store(_, _, _, _) => true
        case Branch(_, _, _, _) => true case Jal(_, _) => true case Jalr(_, _, _) => true
        case Other(_) => false)
  }

  /** A chain stops before what cannot be in one; it ends with a jump or branch, or where the next instruction
      is not translated or starts on another page; and goes on otherwise. */
  lemma LinkMeans(c: Code, va: u32, pa: u32, page: nat)
    ensures var l := LinkAt(c, va, pa, page);
      && (l.Stop? <==> !CanChain(c, va, pa, page))
      && (!l.Stop? ==>
            var f := FreshAt(c, va, pa).value;
            var next := c.xlate((va + f.ilen) % TWO32);
            && l.f == f
            && (l.Last? <==> f.inst.Branch? || f.inst.Jal? || f.inst.Jalr? || next.Err? || next.value / PAGE != page)
            && (l.More? ==> next == Ok(l.next)))
  {
    assert FreshAt(c, va, pa).Ok? ==> FreshAt(c, va, pa).value.ilen == 2 || FreshAt(c, va, pa).value.ilen == 4;
    hide FreshAt;
  }

  /** Step `s` starts on the chain's page, and its second half is there or on a page that never changes. */
  ghost predicate StaysAt(c: Code, va: u32, page: nat, offset: int, s: Step)
  {
    var v := W32(va + (s.offset - offset));
    var hi := c.xlate(W32(v + 2));
    && c.xlate(v).Ok? && c.xlate(v).value / PAGE == page
    && (s.ilen == 4 && hi.Ok? && hi.value / PAGE != page ==> c.golden(hi.value / PAGE))
  }

  lemma StaysLater(c: Code, va: u32, page: nat, offset: int, d: u32, s: Step)
    requires StaysAt(c, W32(va + d), page, offset + d, s)
    ensures StaysAt(c, va, page, offset, s)
  {
    WrapShift(va, d, s.offset - offset - d);
  }

  lemma StaysHere(c: Code, va: u32, pa: u32, page: nat, offset: u32, s: Step)
    requires c.xlate(va) == Ok(pa) && pa / PAGE == page && s.offset == offset && CanChain(c, va, pa, page)
    requires FreshAt(c, va, pa).Ok? && s.ilen == FreshAt(c, va, pa).value.ilen
    ensures StaysAt(c, va, page, offset, s)
  {
    hide FreshAt;
    assert W32(va + (s.offset - offset)) == va;
  }

  /** Every byte of a chain lies on the page it starts on or on one that never changes. */
  lemma {:induction false} ChainStays(c: Code, va: u32, pa: u32, page: nat, offset: u32, n: nat)
    requires c.xlate(va) == Ok(pa) && pa / PAGE == page && offset + 4 * n < TWO32
    ensures forall k | 0 <= k < |ChainFrom(c, va, pa, page, offset, n)| ::
      StaysAt(c, va, page, offset, ChainFrom(c, va, pa, page, offset, n)[k])
    decreases n
  {
    hide FreshAt, IsLink, IsTerminal, LinkAt, Code.Next, ChainFrom, StaysAt, CanChain, W32;
    if n > 0 {
      ChainNext(c, va, pa, page, offset, n);
      LinkMeans(c, va, pa, page);
      LinkFacts(c, va, pa, page);
      match LinkAt(c, va, pa, page) {
        case Stop =>
        case Last(f) => StaysHere(c, va, pa, page, offset, Step(f.inst, f.ilen, offset));
        case More(f, next) =>
          StaysHere(c, va, pa, page, offset, Step(f.inst, f.ilen, offset));
          NoWrap(offset, f.ilen);
          NextIs(c, va, f.ilen, next);
          SamePage(c, va, pa, page);
          ChainStays(c, W32(va + f.ilen), next, page, offset + f.ilen, n - 1);
          var rest := ChainFrom(c, W32(va + f.ilen), next, page, offset + f.ilen, n - 1);
          forall k | 0 <= k < |rest| ensures StaysAt(c, va, page, offset, rest[k]) {
            StaysLater(c, va, page, offset, f.ilen, rest[k]);
          }
      }
    } else {
      ChainNone(c, va, pa, page, offset);
    }
  }

  lemma SamePage(c: Code, va: u32, pa: u32, page: nat)
    ensures var l := LinkAt(c, va, pa, page); l.More? ==> l.next / PAGE == page
  {
    hide FreshAt;
  }
}
