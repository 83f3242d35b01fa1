/** Lowering a typed program to calls, fixups and a scratch image, and its wire form
    (crates/fs-prog/src/lower.rs). */
module Lowering {
  import opened Words
  import opened Typed
  import opened Scratch

  datatype Src = Reg(call: nat) | MemAt(off: nat)

  datatype Fixup = Fixup(dstCall: nat, dstArg: nat, src: Src)

  datatype Concrete = Concrete(nr: u32, args: seq<u32>)

  datatype Lowered = Lowered(calls: seq<Concrete>, fixups: seq<Fixup>, scratch: seq<u8>)

  /** The writer, the fixups so far, and where each call's out-array was put. */
  datatype State = State(w: Writer, fixups: seq<Fixup>, out: seq<Option<nat>>)

  const MAX_ARGS: nat := 6

  /** Arguments are walked in pairs with their types. */
  function Arity(c: Call): nat { if |c.desc.args| < |c.args| then |c.desc.args| else |c.args| }

  predicate SmallCalls(p: Prog) { forall i | 0 <= i < |p| :: Arity(p[i]) <= MAX_ARGS }

  function SrcOf(p: Prog, out: seq<Option<nat>>, call: nat, slot: nat): Src
    requires |out| == |p|
  {
    if call < |p| && p[call].desc.produces.OutArray? then
      MemAt((if out[call].Some? then out[call].value else 0) + 4 * slot)
    else Reg(call)
  }

  function LowerArg(p: Prog, base: u32, i: nat, j: nat, st: State): (r: (State, u32))
    requires i < |p| && j < Arity(p[i]) && |st.out| == |p|
    ensures |r.0.out| == |p|
  {
    var ty := p[i].desc.args[j];
    match p[i].args[j]
    case ResV(ref) =>
      if !ty.Res? then (st, 0)
      else (match ref
            case Seed(s) => (st, W32(s))
            case Produced(c, slot) => (st.(fixups := st.fixups + [Fixup(i, j, SrcOf(p, st.out, c, slot))]), 0))
    case Imm(v) => (st, W32(v))
    case PtrV(pointee) =>
      if !ty.PtrT? then (st, 0)
      else
        var (w, off) := Serialize(st.w, base, ty.inner, pointee);
        var own := p[i].desc.produces.OutArray? && p[i].desc.produces.arg == j;
        (st.(w := w, out := if own then st.out[i := Some(off)] else st.out), W32(base + off))
    case _ => (st, 0)
  }

  /** The first `k` arguments of call `i`. */
  function LowerArgs(p: Prog, base: u32, i: nat, st: State, k: nat): (r: (State, seq<u32>))
    requires i < |p| && k <= Arity(p[i]) && |st.out| == |p|
    ensures |r.0.out| == |p| && |r.1| == k
    decreases k
  {
    if k == 0 then (st, [])
    else
      var (s1, args) := LowerArgs(p, base, i, st, k - 1);
      var (s2, a) := LowerArg(p, base, i, k - 1, s1);
      (s2, args + [a])
  }

  function Pad(args: seq<u32>): (r: seq<u32>)
    requires |args| <= MAX_ARGS
    ensures |r| == MAX_ARGS
  {
    args + seq(MAX_ARGS - |args|, _ => 0)
  }

  /** The first `n` calls. */
  function LowerCalls(p: Prog, base: u32, cap: nat, n: nat): (r: (State, seq<Concrete>))
    requires n <= |p| && SmallCalls(p)
    ensures |r.0.out| == |p| && |r.1| == n
    decreases n
  {
    if n == 0 then (State(Writer([], cap, true), [], seq(|p|, _ => None)), [])
    else
      var (st, calls) := LowerCalls(p, base, cap, n - 1);
      var (st', args) := LowerArgs(p, base, n - 1, st, Arity(p[n - 1]));
      (st', calls + [Concrete(p[n - 1].desc.nr, Pad(args))])
  }

  function Lower(p: Prog, base: u32, cap: nat): Lowered
    requires SmallCalls(p)
  {
    var (st, calls) := LowerCalls(p, base, cap, |p|);
    Lowered(calls, st.fixups, st.w.bytes)
  }

  /** `lower_with_cap`: one pass over the calls, the writer and the tables updated in place. */
  method LowerWithCap(p: Prog, base: u32, cap: nat) returns (l: Lowered)
    requires SmallCalls(p)
    ensures l == Lower(p, base, cap)
  {
    hide Serialize, W32;
    var w := new ScratchWriter(cap);
    var fixups: seq<Fixup>, out: seq<Option<nat>>, calls: seq<Concrete> := [], seq(|p|, _ => None), [];
    for i := 0 to |p|
      invariant fresh(w) && w.Valid() && |out| == |p|
      invariant (State(w.Contents(), fixups, out), calls) == LowerCalls(p, base, cap, i)
    {
      ghost var st := State(w.Contents(), fixups, out);
      var args: seq<u32> := [];
      for j := 0 to Arity(p[i])
        invariant fresh(w) && w.Valid() && |out| == |p|
        invariant (State(w.Contents(), fixups, out), args) == LowerArgs(p, base, i, st, j)
      {
        var ty, a := p[i].desc.args[j], 0;
        match p[i].args[j] {
          case ResV(ref) =>
            if ty.Res? {
              match ref {
                case Seed(s) => a := W32(s);
                case Produced(c, slot) => fixups := fixups + [Fixup(i, j, SrcOf(p, out, c, slot))];
              }
            }
          case Imm(v) => a := W32(v);
          case PtrV(pointee) =>
            if ty.PtrT? {
              var off := w.SerializeInto(base, ty.inner, pointee);
              if p[i].desc.produces.OutArray? && p[i].desc.produces.arg == j {
                out := out[i := Some(off)];
              }
              a := W32(base + off);
            }
          case _ =>
        }
        args := args + [a];
      }
      calls := calls + [Concrete(p[i].desc.nr, Pad(args))];
    }
    l := Lowered(calls, fixups, w.bytes);
  }

  // ----- the wire form -----

  const MAX_FIXUPS: nat := 32
  const CALL_WORDS: nat := 7
  const FIXUP_WORDS: nat := 4
  const FIXUP_BASE: nat := 1 + MAX_CALLS * CALL_WORDS
  const WIRE_WORDS: nat := FIXUP_BASE + 1 + MAX_FIXUPS * FIXUP_WORDS

  predicate SixArgs(l: Lowered) { forall i | 0 <= i < |l.calls| :: |l.calls[i].args| == MAX_ARGS }

  function AtMost(n: nat, m: nat): nat { if n < m then n else m }

  function CallWord(c: Concrete, k: nat): u32
    requires k < CALL_WORDS && |c.args| == MAX_ARGS
  {
    if k == 0 then c.nr else c.args[k - 1]
  }

  function FixupWord(f: Fixup, k: nat): u32
  {
    if k == 0 then W32(f.dstCall)
    else if k == 1 then W32(f.dstArg)
    else if k == 2 then (if f.src.Reg? then 0 else 1)
    else W32(if f.src.Reg? then f.src.call else f.src.off)
  }

  /** Word `k` of the wire buffer. */
  function WireWord(l: Lowered, k: nat): u32
    requires SixArgs(l)
  {
    if k == 0 then AtMost(|l.calls|, MAX_CALLS)
    else if k < FIXUP_BASE then
      var i := (k - 1) / CALL_WORDS;
      if i < |l.calls| then CallWord(l.calls[i], (k - 1) % CALL_WORDS) else 0
    else if k == FIXUP_BASE then AtMost(|l.fixups|, MAX_FIXUPS)
    else
      var f := (k - FIXUP_BASE - 1) / FIXUP_WORDS;
      if f < |l.fixups| then FixupWord(l.fixups[f], (k - FIXUP_BASE - 1) % FIXUP_WORDS) else 0
  }

  function Wire(l: Lowered): (w: seq<u32>)
    requires SixArgs(l)
    ensures |w| == WIRE_WORDS
  {
    seq(WIRE_WORDS, k requires 0 <= k < WIRE_WORDS => WireWord(l, k))
  }

  method ToWire(l: Lowered) returns (buf: array<u32>)
    requires SixArgs(l)
    ensures fresh(buf) && buf[..] == Wire(l)
  {
    hide WireWord, CallWord, FixupWord;
    buf := new u32[WIRE_WORDS](_ => 0);
    buf[0] := AtMost(|l.calls|, MAX_CALLS);
    var n := AtMost(|l.calls|, MAX_CALLS);
    for i := 0 to n
      invariant forall k | 0 <= k < 1 + i * CALL_WORDS :: buf[k] == if k == 0 then n else WireWord(l, k)
      invariant forall k | 1 + i * CALL_WORDS <= k < WIRE_WORDS :: buf[k] == 0
    {
      for k := 0 to CALL_WORDS
        invariant forall q | 0 <= q < 1 + i * CALL_WORDS + k :: buf[q] == if q == 0 then n else WireWord(l, q)
        invariant forall q | 1 + i * CALL_WORDS + k <= q < WIRE_WORDS :: buf[q] == 0
      {
        CallSlot(l, i, k);
        buf[1 + i * CALL_WORDS + k] := CallWord(l.calls[i], k);
      }
    }
    forall k | 1 + n * CALL_WORDS <= k < FIXUP_BASE ensures WireWord(l, k) == 0 {
      CallSlotEmpty(l, k);
    }
    var m := AtMost(|l.fixups|, MAX_FIXUPS);
    buf[FIXUP_BASE] := m;
    for f := 0 to m
      invariant forall k | 0 <= k <= FIXUP_BASE :: buf[k] == if k == 0 then n else if k == FIXUP_BASE then m else WireWord(l, k)
      invariant forall k | FIXUP_BASE < k < FIXUP_BASE + 1 + f * FIXUP_WORDS :: buf[k] == WireWord(l, k)
      invariant forall k | FIXUP_BASE + 1 + f * FIXUP_WORDS <= k < WIRE_WORDS :: buf[k] == 0
    {
      for k := 0 to FIXUP_WORDS
        invariant forall q | 0 <= q <= FIXUP_BASE :: buf[q] == if q == 0 then n else if q == FIXUP_BASE then m else WireWord(l, q)
        invariant forall q | FIXUP_BASE < q < FIXUP_BASE + 1 + f * FIXUP_WORDS + k :: buf[q] == WireWord(l, q)
        invariant forall q | FIXUP_BASE + 1 + f * FIXUP_WORDS + k <= q < WIRE_WORDS :: buf[q] == 0
      {
        FixupSlot(l, f, k);
        buf[FIXUP_BASE + 1 + f * FIXUP_WORDS + k] := FixupWord(l.fixups[f], k);
      }
    }
    forall k | FIXUP_BASE + 1 + m * FIXUP_WORDS <= k < WIRE_WORDS ensures WireWord(l, k) == 0 {
      FixupSlotEmpty(l, k);
    }
    Headers(l);
    assert forall k | 0 <= k < WIRE_WORDS :: buf[..][k] == Wire(l)[k];
  }

  lemma Headers(l: Lowered)
    requires SixArgs(l)
    ensures WireWord(l, 0) == AtMost(|l.calls|, MAX_CALLS) && WireWord(l, FIXUP_BASE) == AtMost(|l.fixups|, MAX_FIXUPS)
  {
  }

  lemma CallSlot(l: Lowered, i: nat, k: nat)
    requires SixArgs(l) && i < AtMost(|l.calls|, MAX_CALLS) && k < CALL_WORDS
    ensures 1 + i * CALL_WORDS + k < FIXUP_BASE && WireWord(l, 1 + i * CALL_WORDS + k) == CallWord(l.calls[i], k)
  {
    assert (i * CALL_WORDS + k) / CALL_WORDS == i && (i * CALL_WORDS + k) % CALL_WORDS == k;
  }

  lemma CallSlotEmpty(l: Lowered, k: nat)
    requires SixArgs(l) && 1 + AtMost(|l.calls|, MAX_CALLS) * CALL_WORDS <= k < FIXUP_BASE
    ensures WireWord(l, k) == 0
  {
  }

  lemma FixupSlot(l: Lowered, f: nat, k: nat)
    requires SixArgs(l) && f < AtMost(|l.fixups|, MAX_FIXUPS) && k < FIXUP_WORDS
    ensures FIXUP_BASE + 1 + f * FIXUP_WORDS + k < WIRE_WORDS
    ensures WireWord(l, FIXUP_BASE + 1 + f * FIXUP_WORDS + k) == FixupWord(l.fixups[f], k)
  {
    assert (f * FIXUP_WORDS + k) / FIXUP_WORDS == f && (f * FIXUP_WORDS + k) % FIXUP_WORDS == k;
  }

  lemma FixupSlotEmpty(l: Lowered, k: nat)
    requires SixArgs(l) && FIXUP_BASE + 1 + AtMost(|l.fixups|, MAX_FIXUPS) * FIXUP_WORDS <= k < WIRE_WORDS
    ensures WireWord(l, k) == 0
  {
  }
}
