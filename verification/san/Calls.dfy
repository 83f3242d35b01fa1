/** What the sanitizer answers over any run of calls, well-behaved or not (crates/fs-san/src/alloc.rs): which
    frees, allocations and reopenings it refuses, told from the calls and the answers before. */
module HeapCalls {
  import opened Words
  import opened GuestMemory
  import opened Policy

  /** A call of the allocator's hooks, or a write of the guest's. */
  datatype Call =
    | Take(addr: u32, req: nat, rounded: nat)
    | TakeExact(addr: u32, size: nat)
    | Give(addr: u32)
    | Widen(addr: u32)
    | Touch(addr: u32, data: seq<u8>)

  predicate Takes(c: Call, a: u32) { (c.Take? || c.TakeExact?) && c.addr == a }

  predicate Gives(c: Call, a: u32) { c.Give? && c.addr == a }

  function Serve(base: u32, cap: nat, v: Planes, h: Heap, c: Call): (o: Outcome)
    requires v.Valid()
    ensures o.v.Valid() && |o.v.mem| == |v.mem|
  {
    match c
    case Take(a, req, rounded) => AllocWithSlack(base, v, h, a, req, rounded)
    case TakeExact(a, size) => AllocExact(base, v, h, a, size)
    case Give(a) => Free(base, v, h, cap, a)
    case Widen(a) => ReopenSlack(base, v, h, a)
    case Touch(a, data) => Outcome(Write(base, v, a, data).0, h, None)
  }

  type Answers = seq<Option<SanError>>

  function RunCalls(base: u32, cap: nat, v: Planes, h: Heap, cs: seq<Call>): (r: (Planes, Heap, Answers))
    requires v.Valid()
    ensures r.0.Valid() && |r.0.mem| == |v.mem| && |r.2| == |cs|
  {
    if cs == [] then (v, h, [])
    else
      var (u, k, answers) := RunCalls(base, cap, v, h, cs[..|cs| - 1]);
      var o := Serve(base, cap, u, k, cs[|cs| - 1]);
      (o.v, o.h, answers + [o.e])
  }

  /** `a` was handed out, or owned at the start, and has not been given back since. */
  ghost predicate Owned(cs: seq<Call>, answers: Answers, a: u32, start: bool)
    requires |answers| == |cs|
  {
    || (start && forall x | 0 <= x < |cs| :: !Gives(cs[x], a))
    || exists j :: 0 <= j < |cs| && TakenAt(cs, answers, a, j)
  }

  ghost predicate TakenAt(cs: seq<Call>, answers: Answers, a: u32, j: nat)
    requires |answers| == |cs| && j < |cs|
  {
    Takes(cs[j], a) && answers[j].None? && forall x | j < x < |cs| :: !Gives(cs[x], a)
  }

  lemma OwnedMore(cs: seq<Call>, answers: Answers, c: Call, e: Option<SanError>, a: u32, start: bool)
    requires |answers| == |cs|
    ensures Owned(cs + [c], answers + [e], a, start) <==>
      (Takes(c, a) && e.None?) || (!Gives(c, a) && Owned(cs, answers, a, start))
  {
    hide Takes, Gives;
    var more, told := cs + [c], answers + [e];
    Exclusive(c, a);
    if Takes(c, a) && e.None? {
      assert TakenAt(more, told, a, |cs|);
    }
    if !Gives(c, a) && Owned(cs, answers, a, start) {
      if j :| 0 <= j < |cs| && TakenAt(cs, answers, a, j) {
        assert TakenAt(more, told, a, j);
      }
    }
    if Owned(more, told, a, start) && !(Takes(c, a) && e.None?) {
      assert more[|cs|] == c && told[|cs|] == e;
      if j :| 0 <= j < |more| && TakenAt(more, told, a, j) {
        forall x | j < x < |cs| ensures !Gives(cs[x], a) {
          assert more[x] == cs[x];
        }
        assert TakenAt(cs, answers, a, j);
      } else {
        forall x | 0 <= x < |cs| ensures !Gives(cs[x], a) {
          assert more[x] == cs[x];
        }
      }
    }
  }

  lemma Exclusive(c: Call, a: u32)
    ensures !(Takes(c, a) && Gives(c, a))
  {
  }

  /** What a call does to the live set. */
  lemma ServeLive(base: u32, cap: nat, v: Planes, h: Heap, c: Call, a: u32)
    requires v.Valid()
    ensures var o := Serve(base, cap, v, h, c);
      a in o.h.live <==> (Takes(c, a) && o.e.None?) || (!Gives(c, a) && a in h.live)
  {
    hide ProtectFrom, PoisonSlack, Write, Without;
  }

  /** The live set is what the calls and their answers say. */
  lemma {:induction false} LiveIs(base: u32, cap: nat, v: Planes, h: Heap, cs: seq<Call>, a: u32)
    requires v.Valid()
    ensures var (_, k, answers) := RunCalls(base, cap, v, h, cs); a in k.live <==> Owned(cs, answers, a, a in h.live)
    decreases |cs|
  {
    hide Serve, Owned;
    if cs == [] {
      OwnedNone(a, a in h.live);
    } else {
      var less, c := cs[..|cs| - 1], cs[|cs| - 1];
      var (u, k, answers) := RunCalls(base, cap, v, h, less);
      LiveIs(base, cap, v, h, less, a);
      ServeLive(base, cap, u, k, c, a);
      OwnedMore(less, answers, c, Serve(base, cap, u, k, c).e, a, a in h.live);
      assert cs == less + [c];
    }
  }

  lemma OwnedNone(a: u32, start: bool)
    ensures Owned([], [], a, start) <==> start
  {
  }

  // ----- spans -----

  predicate Mapped(base: u32, size: nat, addr: u32, i: nat) { 0 <= (addr + i) % TWO32 - base < size }

  ghost predicate AllMapped(base: u32, size: nat, addr: u32, len: nat) { forall i: nat | i < len :: Mapped(base, size, addr, i) }

  /** Stamping a span succeeds iff every byte of it is mapped, and otherwise faults at the first that is not. */
  lemma {:induction false} ProtectIff(base: u32, v: Planes, addr: u32, len: nat, perm: Perm, i: nat)
    requires v.Valid() && i <= len
    ensures var e := ProtectFrom(base, v, addr, len, perm, i).1;
      (e.None? <==> forall j: nat | i <= j < len :: Mapped(base, |v.mem|, addr, j)) &&
      (e.Some? ==> exists j: nat :: i <= j < len && !Mapped(base, |v.mem|, addr, j) &&
                     e == Some(Fault((addr + j) % TWO32, len, WriteAccess, Unmapped)) &&
                     forall k: nat | i <= k < j :: Mapped(base, |v.mem|, addr, k))
    decreases len - i
  {
    if i < len {
      var o := Offset(base, |v.mem|, W32(addr + i));
      assert o.Some? <==> Mapped(base, |v.mem|, addr, i);
      hide Mapped;
      if o.Some? {
        var u := v.(perms := v.perms[o.value := perm]);
        ProtectIff(base, u, addr, len, perm, i + 1);
        var e := ProtectFrom(base, u, addr, len, perm, i + 1).1;
        if e.Some? {
          var j: nat :| i + 1 <= j < len && !Mapped(base, |v.mem|, addr, j) &&
                        e == Some(Fault((addr + j) % TWO32, len, WriteAccess, Unmapped)) &&
                        forall k: nat | i + 1 <= k < j :: Mapped(base, |v.mem|, addr, k);
          assert forall k: nat | i <= k < j :: Mapped(base, |v.mem|, addr, k);
        }
      }
    }
  }

  /** Poisoning slack is best effort: it never fails. */
  lemma SlackNeverFails(base: u32, v: Planes, addr: u32, req: nat, bucket: nat)
    requires v.Valid() && req <= bucket
    ensures PoisonSlack(base, v, addr, req, bucket).1.None?
  {
    if bucket > req && addr + req < TWO32 && Inside(base, |v.mem|, addr + req, bucket - req) {
      var at: u32 := addr + req;
      ProtectIff(base, v, at, bucket - req, NO_PERM, 0);
      forall j: nat | j < bucket - req ensures Mapped(base, |v.mem|, at, j) {
        assert at + j < TWO32;
      }
    }
  }

  // ----- answers -----

  /** The next free, after any run: of what is not owned it is refused and changes nothing; of what is owned it
      ends the ownership, and succeeds unless part of a bucket to be poisoned is not mapped. */
  lemma FreeAnswers(base: u32, cap: nat, v: Planes, h: Heap, cs: seq<Call>, a: u32)
    requires v.Valid()
    ensures var (u, k, answers) := RunCalls(base, cap, v, h, cs);
      var o, owned := Free(base, u, k, cap, a), Owned(cs, answers, a, a in h.live);
      && (!owned ==> o == Outcome(u, k, Some(InvalidFree(a))))
      && (owned ==> a in k.live && a !in o.h.live && (o.e.None? || o.e.value.MmuFault?))
      && (owned ==> (o.e.None? <==> (k.live[a].freePoisons ==> AllMapped(base, |v.mem|, a, k.live[a].size))))
  {
    hide Owned, RunCalls, ProtectFrom;
    LiveIs(base, cap, v, h, cs, a);
    var (u, k, _) := RunCalls(base, cap, v, h, cs);
    if a in k.live {
      ProtectIff(base, u, a, k.live[a].size, NO_PERM, 0);
    }
  }

  /** The next allocation: at what is owned it is refused and changes nothing; elsewhere it succeeds iff every
      byte of the payload is mapped, wherever the slack is. */
  lemma TakeAnswers(base: u32, cap: nat, v: Planes, h: Heap, cs: seq<Call>, a: u32, n: nat, rounded: nat)
    requires v.Valid()
    ensures var (u, k, answers) := RunCalls(base, cap, v, h, cs);
      var o, x, owned := AllocWithSlack(base, u, k, a, n, rounded), AllocExact(base, u, k, a, n), Owned(cs, answers, a, a in h.live);
      && (owned ==> o == x == Outcome(u, k, Some(DoubleAlloc(a))))
      && (!owned ==> (o.e.None? <==> AllMapped(base, |v.mem|, a, n)) && (x.e.None? <==> AllMapped(base, |v.mem|, a, n)))
      && (!owned ==> (o.e.None? || o.e.value.MmuFault?) && (x.e.None? || x.e.value.MmuFault?))
  {
    hide Owned, RunCalls, ProtectFrom, PoisonSlack;
    LiveIs(base, cap, v, h, cs, a);
    var (u, k, _) := RunCalls(base, cap, v, h, cs);
    ProtectIff(base, u, a, n, FRESH, 0);
    SlackNeverFails(base, ProtectFrom(base, u, a, n, FRESH, 0).0, a, n, Max(rounded, n));
  }

  /** The larger of request and bucket, and the bytes between the two as slack. */
  predicate RecordOk(x: LiveAlloc, req: nat, rounded: nat)
  {
    && x.freePoisons && x.slack == Some((req, x.size))
    && x.size >= req && x.size >= rounded && (x.size == req || x.size == rounded)
  }

  /** What an allocation records: its bucket, never smaller than the request, and whether freeing poisons. */
  lemma TakeRecords(base: u32, v: Planes, h: Heap, a: u32, n: nat, rounded: nat)
    requires v.Valid()
    ensures var o, x := AllocWithSlack(base, v, h, a, n, rounded), AllocExact(base, v, h, a, n);
      && (o.e.None? ==> a in o.h.live && a !in o.h.quarantined && RecordOk(o.h.live[a], n, rounded))
      && (x.e.None? ==> a in x.h.live && a !in x.h.quarantined && x.h.live[a] == LiveAlloc(n, None, false))
  {
    hide ProtectFrom, PoisonSlack, Without;
  }

  /** The next reopening: of what is not owned it is refused and changes nothing. */
  lemma WidenAnswers(base: u32, cap: nat, v: Planes, h: Heap, cs: seq<Call>, a: u32)
    requires v.Valid()
    ensures var (u, k, answers) := RunCalls(base, cap, v, h, cs);
      var o, owned := ReopenSlack(base, u, k, a), Owned(cs, answers, a, a in h.live);
      && (!owned ==> o == Outcome(u, k, Some(UnknownPointer(a))))
      && (owned ==> a in k.live && o.h == k && (o.e.None? || o.e.value.MmuFault?) && (k.live[a].slack.None? ==> o == Outcome(u, k, None)))
  {
    hide Owned, RunCalls, ProtectFrom;
    LiveIs(base, cap, v, h, cs, a);
  }

  /** A double free is caught, however long after the first and whatever came between, short of another
      successful allocation there. */
  lemma DoubleFree(base: u32, cap: nat, v: Planes, h: Heap, cs: seq<Call>, f: nat, a: u32)
    requires v.Valid() && f < |cs| && cs[f] == Give(a)
    requires var answers := RunCalls(base, cap, v, h, cs).2; forall x | f < x < |cs| && Takes(cs[x], a) :: answers[x].Some?
    ensures var (u, k, _) := RunCalls(base, cap, v, h, cs); Free(base, u, k, cap, a) == Outcome(u, k, Some(InvalidFree(a)))
  {
    hide RunCalls, ProtectFrom;
    FreeAnswers(base, cap, v, h, cs, a);
    var (_, _, answers) := RunCalls(base, cap, v, h, cs);
    GivenAway(cs, answers, f, a, a in h.live);
  }

  lemma GivenAway(cs: seq<Call>, answers: Answers, f: nat, a: u32, start: bool)
    requires |answers| == |cs| && f < |cs| && Gives(cs[f], a)
    requires forall x | f < x < |cs| && Takes(cs[x], a) :: answers[x].Some?
    ensures !Owned(cs, answers, a, start)
  {
    hide Takes, Gives;
    forall j | 0 <= j < |cs| ensures !TakenAt(cs, answers, a, j) {
      Exclusive(cs[j], a);
    }
  }

  /** A poisoning free puts the address last in the queue; the oldest leaves it iff it was full. */
  lemma FreeRemembers(base: u32, v: Planes, h: Heap, cap: nat, a: u32)
    requires v.Valid() && a in h.live && h.live[a].freePoisons && Free(base, v, h, cap, a).e.None?
    ensures var q := Free(base, v, h, cap, a).h;
      && q.order != [] && q.order[|q.order| - 1] == a && a in q.quarantined && q.quarantined[a] == h.live[a]
      && (if |h.order| < cap || h.order == [] then q.order == h.order + [a] else |q.order| == |h.order| && q.order == (h.order + [a])[1..])
  {
    hide ProtectFrom;
  }

  // ----- what is stamped -----

  ghost predicate Over(base: u32, v: Planes, a: u32, n: int)
  {
    v.Valid() && Window(base, |v.mem|) && base <= a && 0 <= n && a - base + n <= |v.mem|
  }

  /** A payload handed out inside the window may be written and not read, and counts as never written; with
      room for it, the slack behind may not be touched at all; nothing else and no contents change. */
  lemma TakeStamps(base: u32, v: Planes, h: Heap, a: u32, n: nat, rounded: nat, k: nat)
    requires Over(base, v, a, Max(rounded, n)) && a !in h.live && k < |v.mem|
    ensures var o, x, off := AllocWithSlack(base, v, h, a, n, rounded), AllocExact(base, v, h, a, n), a - base;
      && o.e.None? && x.e.None? && o.v.mem == v.mem && x.v.mem == v.mem
      && (off <= k < off + n ==> Fresh(o.v.perms[k]) && Fresh(x.v.perms[k]))
      && (off + n <= k < off + rounded ==> Shut(o.v.perms[k]) && x.v.perms[k] == v.perms[k])
      && (k < off || (off + n <= k && off + rounded <= k) ==> o.v.perms[k] == v.perms[k] && x.v.perms[k] == v.perms[k])
  {
    hide ProtectFrom, Stamp, PoisonSlack, Evict;
    var bucket, off := Max(rounded, n), a - base;
    ProtectInBounds(base, v, a, n, FRESH, 0);
    var u := Stamp(v, off, n, FRESH);
    SlackStamps(base, u, a, n, bucket);
    StampAt(v, off, n, FRESH, k);
    StampAt(u, off + n, bucket - n, NO_PERM, k);
  }

  /** Inside the window the slack is stamped throughout. */
  lemma SlackStamps(base: u32, v: Planes, a: u32, n: nat, bucket: nat)
    requires Over(base, v, a, bucket) && n <= bucket
    ensures PoisonSlack(base, v, a, n, bucket) == (Stamp(v, a - base + n, bucket - n, NO_PERM), None)
  {
    hide ProtectFrom, Stamp;
    if n == bucket {
      StampNone(v, a - base + n, NO_PERM);
    } else {
      ProtectInBounds(base, v, a + n, bucket - n, NO_PERM, 0);
    }
  }

  predicate Fresh(p: Perm) { p.w && p.raw && !p.r && !p.x && !p.acc && !p.vt }

  predicate Shut(p: Perm) { !p.r && !p.w && !p.x && !p.raw && !p.acc && !p.vt }

  /** A poisoning free shuts the whole bucket; reopening makes the slack writable and never written; neither
      touches anything else. */
  lemma GiveStamps(base: u32, v: Planes, h: Heap, cap: nat, a: u32, k: nat)
    requires a in h.live && Over(base, v, a, h.live[a].size) && k < |v.mem|
    requires h.live[a].slack.Some? ==> h.live[a].slack.value.0 <= h.live[a].slack.value.1 == h.live[a].size
    ensures var o, w, x, off := Free(base, v, h, cap, a), ReopenSlack(base, v, h, a), h.live[a], a - base;
      && o.e.None? && w.e.None? && o.v.mem == v.mem && w.v.mem == v.mem
      && (if x.freePoisons && off <= k < off + x.size then Shut(o.v.perms[k]) else o.v.perms[k] == v.perms[k])
      && (if x.slack.Some? && off + x.slack.value.0 <= k < off + x.slack.value.1 then Fresh(w.v.perms[k]) else w.v.perms[k] == v.perms[k])
  {
    hide ProtectFrom, Remember, Stamp;
    var x := h.live[a];
    ProtectInBounds(base, v, a, x.size, NO_PERM, 0);
    StampAt(v, a - base, x.size, NO_PERM, k);
    if x.slack.Some? && x.slack.value.0 < x.slack.value.1 {
      ProtectInBounds(base, v, a + x.slack.value.0, x.slack.value.1 - x.slack.value.0, FRESH, 0);
      StampAt(v, a - base + x.slack.value.0, x.slack.value.1 - x.slack.value.0, FRESH, k);
    }
  }
}
